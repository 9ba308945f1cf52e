/** Textual identities: names that cannot be read as another path. */
module Identity {
  import opened Core

  const MAX_IDENTITY_LENGTH: nat := 200

  predicate Alphanumeric(c: char) { 'a' <= c <= 'z' || 'A' <= c <= 'Z' || '0' <= c <= '9' }

  predicate Separator(c: char) { c in {'.', '_', '-', '/', ':', '@', '#'} }

  /** No component between slashes is "." or "..", starting at a component boundary. */
  predicate NoTraversal(text: Text, start: nat)
    requires start <= |text|
    decreases |text| - start
  {
    var end := ComponentEnd(text, start);
    && text[start..end] != "." && text[start..end] != ".."
    && (end < |text| ==> NoTraversal(text, end + 1))
  }

  function ComponentEnd(text: Text, start: nat): (end: nat)
    requires start <= |text|
    ensures start <= end <= |text| && '/' !in text[start..end] && (end < |text| ==> text[end] == '/')
    decreases |text| - start
  {
    if start == |text| || text[start] == '/' then start
    else
      var end := ComponentEnd(text, start + 1);
      assert text[start..end] == [text[start]] + text[start + 1..end];
      end
  }

  predicate ValidIdentity(text: Text) {
    && 0 < |text| <= MAX_IDENTITY_LENGTH
    && text[0] !in {'/', '.', '-'}
    && !Separator(text[|text| - 1])
    && (forall i :: 0 <= i < |text| ==> Alphanumeric(text[i]) || Separator(text[i]))
    && NoTraversal(text, 0)
  }

  lemma {:induction false} SlashEnds(text: Text, start: nat, k: nat)
    requires start <= k < |text| && text[k] == '/'
    ensures ComponentEnd(text, start) <= k
    decreases |text| - start
  {
    if start < k && text[start] != '/' { SlashEnds(text, start + 1, k); }
  }

  lemma {:induction false} EndIs(text: Text, start: nat, j: nat)
    requires start <= j <= |text| && (j == |text| || text[j] == '/')
    requires forall k :: start <= k < j ==> text[k] != '/'
    ensures ComponentEnd(text, start) == j
    decreases |text| - start
  {
    if start < j { EndIs(text, start + 1, j); }
  }

  /** Whatever component a consumer cuts out of a valid identity, it does not walk the tree. */
  lemma {:induction false} NoComponentTraverses(text: Text, start: nat, i: nat, j: nat)
    requires start <= i <= j <= |text| && NoTraversal(text, start)
    requires i == start || text[i - 1] == '/'
    requires j == |text| || text[j] == '/'
    requires forall k :: i <= k < j ==> text[k] != '/'
    ensures text[i..j] != "." && text[i..j] != ".."
    decreases |text| - start
  {
    if i == start {
      EndIs(text, start, j);
    } else {
      SlashEnds(text, start, i - 1);
      NoComponentTraverses(text, ComponentEnd(text, start) + 1, i, j);
    }
  }
}
