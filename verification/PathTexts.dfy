/** The texts that are identities and the texts that are paths, by their octets. */
module PathTexts {
  import opened Core
  import opened Decimals
  import opened Domain
  import opened Identity
  import opened Paths

  // ----- identities

  predicate LetterOrDigit(c: byte) { 97 <= c as int <= 122 || 65 <= c as int <= 90 || 48 <= c as int <= 57 }

  /** Full stop, low line, hyphen, solidus, colon, commercial at and number sign. */
  predicate Mark(c: byte) { c as int in {46, 95, 45, 47, 58, 64, 35} }

  /** The octets from i up to j lie between slashes or the ends of the text. */
  predicate Component(text: Text, i: nat, j: nat) {
    && i <= j <= |text| && (i == 0 || text[i - 1] as int == 47) && (j == |text| || text[j] as int == 47)
    && forall k :: i <= k < j ==> text[k] as int != 47
  }

  predicate Dots(text: Text, i: nat, j: nat)
    requires i <= j <= |text|
  {
    1 <= j - i <= 2 && forall k :: i <= k < j ==> text[k] as int == 46
  }

  /** One to 200 letters, digits and marks, starting with no slash, stop or hyphen, ending with
      a letter or digit, and with no component of one or two stops. */
  ghost predicate IdentityText(text: Text) {
    && 1 <= |text| <= 200
    && (forall i :: 0 <= i < |text| ==> LetterOrDigit(text[i]) || Mark(text[i]))
    && text[0] as int !in {47, 46, 45} && LetterOrDigit(text[|text| - 1])
    && forall i, j :: Component(text, i, j) ==> !Dots(text, i, j)
  }

  lemma {:induction false} ComponentFound(text: Text, start: nat)
    requires start <= |text| && (start == 0 || text[start - 1] == '/') && !NoTraversal(text, start)
    ensures exists i, j :: Component(text, i, j) && Dots(text, i, j)
    decreases |text| - start
  {
    var end := ComponentEnd(text, start);
    if text[start..end] == "." || text[start..end] == ".." {
      ComponentHere(text, start);
      forall k | start <= k < end
        ensures text[k] == '.'
      {
        assert text[k] == text[start..end][k - start];
      }
      assert Component(text, start, end) && Dots(text, start, end);
    } else {
      ComponentFound(text, end + 1);
    }
  }

  lemma ComponentHere(text: Text, start: nat)
    requires start <= |text| && (start == 0 || text[start - 1] == '/')
    ensures Component(text, start, ComponentEnd(text, start))
  {
    var end := ComponentEnd(text, start);
    forall k | start <= k < end
      ensures text[k] != '/'
    {
      assert text[k] == text[start..end][k - start];
    }
  }

  lemma DotsAre(text: Text, i: nat, j: nat)
    requires i <= j <= |text| && Dots(text, i, j)
    ensures text[i..j] == "." || text[i..j] == ".."
  {
    assert text[i..j] == if j - i == 1 then "." else "..";
  }

  /** Which texts are identities. */
  lemma IdentityExactly(text: Text)
    ensures ValidIdentity(text) <==> IdentityText(text)
  {
    if NoTraversal(text, 0) {
      forall i, j | Component(text, i, j)
        ensures !Dots(text, i, j)
      {
        NoComponentTraverses(text, 0, i, j);
        if Dots(text, i, j) {
          DotsAre(text, i, j);
        }
      }
    } else {
      ComponentFound(text, 0);
    }
  }

  // ----- paths

  /** A decimal numeral without leading zeros, and its value. */
  predicate Numeral(t: Text, n: nat) {
    && t != [] && (forall i :: 0 <= i < |t| ==> 48 <= t[i] as int <= 57)
    && (|t| > 1 ==> t[0] as int != 48) && Worth(t) == n
  }

  function Worth(t: Text): int {
    if t == [] then 0 else 10 * Worth(t[..|t| - 1]) + (t[|t| - 1] as int - 48)
  }

  /** The octets of a key; a backslash stands before each backslash, stop and square bracket. */
  predicate KeyText(t: Text, key: Text) {
    if key == [] then t == []
    else if key[0] as int in {92, 46, 91, 93} then
      |t| >= 2 && t[0] as int == 92 && t[1] == key[0] && KeyText(t[2..], key[1..])
    else
      t != [] && t[0] == key[0] && KeyText(t[1..], key[1..])
  }

  /** An index stands in brackets; a key that is not first stands after a stop. */
  predicate SegmentText(t: Text, s: Segment, first: bool) {
    match s
    case Index(n) => |t| >= 2 && t[0] as int == 91 && t[|t| - 1] as int == 93 && Numeral(t[1..|t| - 1], n)
    case Key(key) => if first then KeyText(t, key) else t != [] && t[0] as int == 46 && KeyText(t[1..], key)
  }

  predicate PathText(t: Text, p: Path, first: bool) {
    if p == [] then t == []
    else exists k :: 0 <= k <= |t| && SegmentText(t[..k], p[0], first) && PathText(t[k..], p[1..], false)
  }

  lemma {:induction false} WorthIs(t: Text)
    requires AllDigits(t)
    ensures Worth(t) == ReadDigits(t)
  {
    if t != [] {
      WorthIs(t[..|t| - 1]);
    }
  }

  lemma NumeralIs(t: Text, n: nat)
    ensures Numeral(t, n) <==> t == Decimal(n)
  {
    if Numeral(t, n) {
      assert AllDigits(t);
      WorthIs(t);
      NumeralUnique(t);
    } else if t == Decimal(n) {
      DecimalReads(n);
      WorthIs(t);
    }
  }

  lemma {:induction false} KeyTextIs(t: Text, key: Text)
    ensures KeyText(t, key) <==> t == Escaped(key)
  {
    hide Escape;
    if key != [] {
      var head, rest := Escape(key[0]), Escaped(key[1..]);
      EscapeOctets(key[0]);
      assert Escaped(key) == head + rest;
      if |t| >= |head| {
        KeyTextIs(t[|head|..], key[1..]);
        Parts(t, head, rest);
      }
    }
  }

  lemma EscapeOctets(c: byte)
    ensures Escape(c) == if c as int in {92, 46, 91, 93} then [92 as char, c] else [c]
  {}

  lemma Parts(t: Text, head: Text, rest: Text)
    requires |t| >= |head|
    ensures t == head + rest <==> t[..|head|] == head && t[|head|..] == rest
    ensures t[..|head|] == head <==> forall i :: 0 <= i < |head| ==> t[i] == head[i]
  {
    assert t == t[..|head|] + t[|head|..];
  }

  lemma SegmentTextIs(t: Text, s: Segment, first: bool)
    ensures SegmentText(t, s, first) <==> t == Piece(s, first)
  {
    hide Numeral, KeyText, Escaped, Decimal;
    match s {
      case Index(n) =>
        if |t| >= 2 {
          NumeralIs(t[1..|t| - 1], n);
          assert t == [t[0]] + t[1..|t| - 1] + [t[|t| - 1]];
        }
        assert Piece(s, first)[1..|Piece(s, first)| - 1] == Decimal(n);
      case Key(key) =>
        KeyTextIs(t, key);
        if t != [] {
          KeyTextIs(t[1..], key);
          assert t == [t[0]] + t[1..];
        }
        assert Escaped(key) == [] + Escaped(key);
        assert (['.'] + Escaped(key))[1..] == Escaped(key);
    }
  }

  lemma {:induction false} PathTextIs(t: Text, p: Path, first: bool)
    ensures PathText(t, p, first) <==> t == Spell(p, first)
  {
    hide SegmentText, Piece;
    if p != [] {
      if PathText(t, p, first) {
        var k :| 0 <= k <= |t| && SegmentText(t[..k], p[0], first) && PathText(t[k..], p[1..], false);
        SegmentTextIs(t[..k], p[0], first);
        PathTextIs(t[k..], p[1..], false);
        assert t == t[..k] + t[k..];
      }
      if t == Spell(p, first) {
        var k := |Piece(p[0], first)|;
        assert t[..k] == Piece(p[0], first) && t[k..] == Spell(p[1..], false);
        SegmentTextIs(t[..k], p[0], first);
        PathTextIs(t[k..], p[1..], false);
      }
    }
  }

  /** Key octets are neither control characters nor delete, and keys are not empty. */
  predicate KeysFit(p: Path, limits: Limits) {
    && |p| <= limits.segments
    && forall i :: 0 <= i < |p| && p[i].Key? ==>
         1 <= |p[i].key| <= limits.keyBytes && forall k :: 0 <= k < |p[i].key| ==> 32 <= p[i].key[k] as int != 127
  }

  /** Which texts read as a path, and as which. */
  lemma PathReadExactly(text: Text, p: Path, limits: Limits)
    ensures
      Parsed(text, limits) == Some(p) <==>
        && PathText(text, p, true)
        && (p == [] ||
            (KeysFit(p, limits)
             && |text| <= limits.segments * ((limits.keyBytes + 4) % 0x1_0000_0000_0000_0000) % 0x1_0000_0000_0000_0000))
  {
    hide PathText, Spell, ReadFrom;
    PathTextIs(text, p, true);
    FitsIs(p, limits);
    AllowanceIs(limits);
    hide Allowance, KeysFit, ValidPath;
    if Parsed(text, limits) == Some(p) {
      OneSpelling(text, limits);
    }
    if text == ToText(p) {
      RoundTrip(p, limits);
    }
  }

  lemma FitsIs(p: Path, limits: Limits)
    ensures KeysFit(p, limits) <==> ValidPath(p, limits)
  {}

  lemma AllowanceIs(limits: Limits)
    ensures Allowance(limits)
         == limits.segments * ((limits.keyBytes + 4) % 0x1_0000_0000_0000_0000) % 0x1_0000_0000_0000_0000
  {}
}
