/** Sorting by a strict weak order, and when the sorted sequence is unique. */
module Sorting {
  ghost predicate StrictWeak<T(!new)>(less: (T, T) -> bool) {
    && (forall a, b :: less(a, b) ==> !less(b, a))
    && (forall a, b, c :: !less(b, a) && !less(c, b) ==> !less(c, a))
  }

  predicate Ordered<T>(less: (T, T) -> bool, s: seq<T>) {
    forall i, j :: 0 <= i < j < |s| ==> !less(s[j], s[i])
  }

  method Sort<T(!new)>(less: (T, T) -> bool, s: seq<T>) returns (r: seq<T>)
    requires StrictWeak(less)
    ensures multiset(r) == multiset(s) && Ordered(less, r)
  {
    r := [];
    for index := 0 to |s|
      invariant multiset(r) == multiset(s[..index]) && Ordered(less, r)
    {
      var x := s[index];
      var p := 0;
      while p < |r| && !less(x, r[p])
        invariant p <= |r| && forall i :: 0 <= i < p ==> !less(x, r[i])
      {
        p := p + 1;
      }
      assert s[..index + 1] == s[..index] + [x];
      InsertOrdered(less, r, x, p);
      r := r[..p] + [x] + r[p..];
    }
    assert s[..|s|] == s;
  }

  lemma InsertOrdered<T(!new)>(less: (T, T) -> bool, r: seq<T>, x: T, p: nat)
    requires StrictWeak(less) && Ordered(less, r) && p <= |r|
    requires forall i :: 0 <= i < p ==> !less(x, r[i])
    requires p < |r| ==> less(x, r[p])
    ensures Ordered(less, r[..p] + [x] + r[p..])
    ensures multiset(r[..p] + [x] + r[p..]) == multiset(r) + multiset{x}
  {
    assert r == r[..p] + r[p..];
    forall j | p <= j < |r| ensures !less(r[j], x) {
      assert !less(r[p], x);
      assert j == p || !less(r[j], r[p]);
    }
  }

  lemma Inhabited<T(!new)>(s: seq<T>)
    ensures s == [] <==> forall x :: x !in s
  {
    if s != [] { assert s[0] in s; }
  }

  /** Elements any two of which are comparable have one sorted arrangement. */
  lemma {:induction false} SortedOnce<T(!new)>(less: (T, T) -> bool, a: seq<T>, b: seq<T>)
    requires Ordered(less, a) && Ordered(less, b)
    requires forall i, j :: 0 <= i < j < |a| ==> a[i] != a[j]
    requires forall i, j :: 0 <= i < j < |b| ==> b[i] != b[j]
    requires forall x, y | x in a && y in a && x != y :: less(x, y) || less(y, x)
    requires forall x :: x in a <==> x in b
    ensures a == b
    decreases |a|
  {
    if a == [] {
      Inhabited(b);
    } else {
      assert a[0] in a && a[0] in b;
      var i :| 0 <= i < |b| && b[i] == a[0];
      assert b[0] in b && b[0] in a;
      var j :| 0 <= j < |a| && a[j] == b[0];
      assert a[0] == b[0];
      forall x ensures x in a[1..] <==> x in b[1..] {
        assert x in a[1..] <==> x in a && x != a[0] by {
          if x in a && x != a[0] { var k :| 0 <= k < |a| && a[k] == x; assert a[1..][k - 1] == x; }
        }
        assert x in b[1..] <==> x in b && x != b[0] by {
          if x in b && x != b[0] { var k :| 0 <= k < |b| && b[k] == x; assert b[1..][k - 1] == x; }
        }
      }
      SortedOnce(less, a[1..], b[1..]);
      assert a == [a[0]] + a[1..] && b == [b[0]] + b[1..];
    }
  }
}
