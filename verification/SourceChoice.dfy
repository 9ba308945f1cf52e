/** Which observation speaks for each source, and which source speaks for the target. */
module SourceChoice {
  import opened Core
  import opened Domain
  import opened Policy
  import opened Sorting
  import opened Comparison

  /** The first difference decides. */
  predicate Before(a: seq<int>, b: seq<int>) {
    a != [] && b != [] && (a[0] < b[0] || (a[0] == b[0] && Before(a[1..], b[1..])))
  }

  function Age(s: Snapshot): seq<int> { [s.epoch, s.incarnation, s.sequence] }

  /** Usable before unusable, then the policy's order of sources, then complete coverage, then
      the later observation. */
  function Rank(v: View): seq<int> {
    [if v.verdict.maySupportCompliance then 0 else 1, v.priority,
     if v.snapshot.coverage.CompleteCoverage? && v.snapshot.capabilities.completeCoverage then 0 else 1,
     0 - v.snapshot.epoch, 0 - v.snapshot.incarnation, 0 - v.snapshot.sequence]
  }

  lemma BeforeStep(a: int, b: int, s: seq<int>, t: seq<int>)
    ensures Before([a] + s, [b] + t) <==> a < b || (a == b && Before(s, t))
  {
    assert ([a] + s)[1..] == s && ([b] + t)[1..] == t;
  }

  lemma NewerMeans(a: Snapshot, b: Snapshot)
    ensures Newer(a, b) <==> Before(Age(b), Age(a))
  {
    hide Before;
    var s, t := [b.incarnation, b.sequence], [a.incarnation, a.sequence];
    assert Age(b) == [b.epoch] + s && Age(a) == [a.epoch] + t;
    BeforeStep(b.epoch, a.epoch, s, t);
    assert s == [b.incarnation] + [b.sequence] && t == [a.incarnation] + [a.sequence];
    BeforeStep(b.incarnation, a.incarnation, [b.sequence], [a.sequence]);
    BeforeOne(b.sequence, a.sequence);
  }

  lemma BeforeOne(a: int, b: int)
    ensures Before([a], [b]) <==> a < b
  {}

  lemma ViewLessMeans(a: View, b: View)
    ensures ViewLess(a, b) <==> Before(Rank(a), Rank(b)) || (Rank(a) == Rank(b) && Less(a.snapshot.source, b.snapshot.source))
  {
    hide Before, Less;
    var x, y := Rank(a), Rank(b);
    forall i | 0 <= i < 6 ensures Before(x[i..], y[i..]) <==> x[i] < y[i] || (x[i] == y[i] && Before(x[i + 1..], y[i + 1..])) {
      assert x[i..] == [x[i]] + x[i + 1..] && y[i..] == [y[i]] + y[i + 1..];
      BeforeStep(x[i], y[i], x[i + 1..], y[i + 1..]);
    }
    assert x[0..] == x && y[0..] == y && x[6..] == [] && y[6..] == [];
    NothingBefore();
    assert Before(x, y) <==> Before(x[0..], y[0..]);
    assert Before(x[1..], y[1..]) <==> x[1] < y[1] || (x[1] == y[1] && Before(x[2..], y[2..]));
    assert Before(x[2..], y[2..]) <==> x[2] < y[2] || (x[2] == y[2] && Before(x[3..], y[3..]));
    assert Before(x[3..], y[3..]) <==> x[3] < y[3] || (x[3] == y[3] && Before(x[4..], y[4..]));
    assert Before(x[4..], y[4..]) <==> x[4] < y[4] || (x[4] == y[4] && Before(x[5..], y[5..]));
    assert Before(x[5..], y[5..]) <==> x[5] < y[5];
  }

  lemma NothingBefore()
    ensures !Before([], [])
  {}

  /** The view is of the i-th candidate: its snapshot, its verdict, and the place of its source
      in the policy's order. */
  predicate ViewsCandidate(input: Input, policy: ObservatoryPolicy, i: nat, v: View)
    requires |input.snapshots| == |input.freshness| && i < |input.snapshots|
  {
    && v.snapshot == input.snapshots[i] && v.verdict == input.freshness[i]
    && v.priority <= |policy.sourcePriority| && v.snapshot.source !in policy.sourcePriority[..v.priority]
    && (v.priority < |policy.sourcePriority| ==> policy.sourcePriority[v.priority] == v.snapshot.source)
  }

  /** Every source is spoken for once, by an observation of which it has none newer. */
  lemma SpokenFor(input: Input, policy: ObservatoryPolicy, chosen: seq<View>, k: nat) returns (i: nat)
    requires |input.snapshots| == |input.freshness| && Current(Views(input, policy), chosen) && k < |input.snapshots|
    ensures i < |chosen| && chosen[i].snapshot.source == input.snapshots[k].source
    ensures !Before(Age(chosen[i].snapshot), Age(input.snapshots[k]))
    ensures forall j :: 0 <= j < |chosen| && chosen[j].snapshot.source == input.snapshots[k].source ==> j == i
  {
    hide ViewLess, Ordered, Newer, Before, Within, ViewOf;
    var v := Views(input, policy)[k];
    ViewIs(input, policy, k);
    assert Represented(v, chosen);
    i :| 0 <= i < |chosen| && chosen[i].SameSource(v) && !Newer(v.snapshot, chosen[i].snapshot);
    NewerMeans(v.snapshot, chosen[i].snapshot);
  }

  lemma ViewIs(input: Input, policy: ObservatoryPolicy, k: nat)
    requires |input.snapshots| == |input.freshness| && k < |input.snapshots|
    ensures |Views(input, policy)| == |input.snapshots| && ViewsCandidate(input, policy, k, Views(input, policy)[k])
  {}

  /** The chosen views are candidates, and stand in the order of their ranks. */
  lemma ChosenInOrder(input: Input, policy: ObservatoryPolicy, chosen: seq<View>, i: nat)
    requires |input.snapshots| == |input.freshness| && Current(Views(input, policy), chosen) && i < |chosen|
    ensures exists k :: 0 <= k < |input.snapshots| && ViewsCandidate(input, policy, k, chosen[i])
    ensures forall j :: i < j < |chosen| ==> !Before(Rank(chosen[j]), Rank(chosen[i]))
  {
    hide ViewLess, Newer, Before, Represented, ViewsCandidate, ViewOf;
    var k := At(chosen, Views(input, policy), i);
    ViewsLength(input, policy);
    ViewIs(input, policy, k);
    forall j | i < j < |chosen| ensures !Before(Rank(chosen[j]), Rank(chosen[i])) {
      ViewLessMeans(chosen[j], chosen[i]);
    }
  }

  lemma ViewsLength(input: Input, policy: ObservatoryPolicy)
    requires |input.snapshots| == |input.freshness|
    ensures |Views(input, policy)| == |input.snapshots|
  {}
}
