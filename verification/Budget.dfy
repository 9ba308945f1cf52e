/** The finding envelope: counting before mutating is exact, and the bound always holds. */
module Budget {
  import opened Core
  import opened Domain
  import opened Policy
  import opened Values
  import opened Findings
  import opened LedgerState
  import opened LedgerRuns
  import opened DraftIdentity

  function Ids(ds: seq<Draft>): set<FindingId> { DraftMap(ds).Keys }

  lemma IdsGrow(ds: seq<Draft>)
    requires ds != []
    ensures Ids(ds) == Ids(ds[..|ds| - 1]) + {ds[|ds| - 1].Id()}
  {
    hide Draft.Id;
  }

  lemma IdAmong(ds: seq<Draft>, id: FindingId)
    ensures id in Ids(ds) <==> exists i :: 0 <= i < |ds| && ds[i].Id() == id
  {
    hide Draft.Id, DraftMap;
    if id in Ids(ds) {
      var i :| 0 <= i < |ds| && ds[i] == DraftMap(ds)[id];
    }
  }

  lemma AddOne(a: set<FindingId>, id: FindingId)
    ensures |a + {id}| == |a| + if id in a then 0 else 1
  {
    if id in a { assert a + {id} == a; }
  }

  /** Adding the drafted identities to a set that already holds the known ones. */
  lemma {:induction false} DraftKeys(known: map<FindingId, Finding>, grown: set<FindingId>, ds: seq<Draft>)
    requires known.Keys <= grown
    ensures |grown + Ids(ds)| <= |grown| + NewDrafts(known, ds)
  {
    hide Draft.Id, Ids;
    if ds == [] {
      NoIds(grown);
    } else {
      var k := |ds| - 1;
      DraftKeys(known, grown, ds[..k]);
      OneMore(grown, ds);
    }
  }

  lemma {:induction false} DraftKeysExact(known: map<FindingId, Finding>, grown: set<FindingId>, ds: seq<Draft>)
    requires known.Keys <= grown && DistinctIds(ds)
    requires forall i :: 0 <= i < |ds| ==> ds[i].Id() in grown ==> ds[i].Id() in known
    ensures |grown + Ids(ds)| == |grown| + NewDrafts(known, ds)
  {
    hide Draft.Id, Ids;
    if ds == [] {
      NoIds(grown);
    } else {
      var k := |ds| - 1;
      DraftKeysExact(known, grown, ds[..k]);
      OneMore(grown, ds);
      IdAmong(ds[..k], ds[k].Id());
    }
  }

  lemma NoIds(grown: set<FindingId>)
    ensures grown + Ids([]) == grown
  {}

  lemma OneMore(grown: set<FindingId>, ds: seq<Draft>)
    requires ds != []
    ensures
      var before, id := grown + Ids(ds[..|ds| - 1]), ds[|ds| - 1].Id();
      |grown + Ids(ds)| == |before| + (if id in grown || id in Ids(ds[..|ds| - 1]) then 0 else 1)
  {
    hide Draft.Id, Ids;
    IdsGrow(ds);
    assert grown + Ids(ds) == (grown + Ids(ds[..|ds| - 1])) + {ds[|ds| - 1].Id()};
    AddOne(grown + Ids(ds[..|ds| - 1]), ds[|ds| - 1].Id());
  }

  /** Two evaluations that draft anything concern different targets. */
  predicate DistinctTargets(es: seq<Evaluation>) {
    forall i, j :: 0 <= i < j < |es| && es[i].drafts != [] && es[j].drafts != [] ==> es[i].target != es[j].target
  }

  predicate DistinctDrafts(es: seq<Evaluation>) {
    forall i :: 0 <= i < |es| ==> DistinctIds(es[i].drafts) && Coherent(es[i])
  }

  predicate Explained(s: Store, es: seq<Evaluation>, n: nat, id: FindingId)
    requires n <= |es|
  {
    id in s.findings || exists k :: 0 <= k < n && es[k].drafts != [] && es[k].target == id.target
  }

  lemma {:induction false} SizeBounded(s: Store, o: Outcome, policy: ObservatoryPolicy, now: int64, n: nat)
    requires n <= |o.evaluations|
    ensures
      var t := ApplyFirst(s, o, policy, now, n);
      s.findings.Keys <= t.findings.Keys && |t.findings| <= |s.findings| + NewFindings(s, o.evaluations[..n])
  {
    hide ApplyOne, NewDrafts, Accepts, Ids;
    if n > 0 {
      var e := o.evaluations[n - 1];
      var before := ApplyFirst(s, o, policy, now, n - 1);
      SizeBounded(s, o, policy, now, n - 1);
      assert o.evaluations[..n][..n - 1] == o.evaluations[..n - 1];
      if Accepts(s.baselines, e) {
        AppliedKeys(before, e, o, policy, now);
        DraftKeys(s.findings, before.findings.Keys, e.drafts);
      }
    }
  }

  /** When no draft repeats an identity the count made before any mutation is exact. */
  lemma {:induction false} SizeExact(s: Store, o: Outcome, policy: ObservatoryPolicy, now: int64, n: nat)
    requires n <= |o.evaluations| && DistinctTargets(o.evaluations) && DistinctDrafts(o.evaluations)
    ensures
      var t := ApplyFirst(s, o, policy, now, n);
      && |t.findings| == |s.findings| + NewFindings(s, o.evaluations[..n])
      && forall id :: id in t.findings ==> Explained(s, o.evaluations, n, id)
  {
    hide ApplyOne, NewDrafts, DistinctDrafts, DistinctTargets, Accepts, Ids, Explained;
    if n > 0 {
      var e := o.evaluations[n - 1];
      var before := ApplyFirst(s, o, policy, now, n - 1);
      SizeExact(s, o, policy, now, n - 1);
      SizeBounded(s, o, policy, now, n - 1);
      assert o.evaluations[..n][..n - 1] == o.evaluations[..n - 1];
      ExactStep(s, before, o.evaluations, n);
      if Accepts(s.baselines, e) {
        AppliedKeys(before, e, o, policy, now);
        DraftKeysExact(s.findings, before.findings.Keys, e.drafts);
      }
    } else {
      forall id | id in s.findings ensures Explained(s, o.evaluations, 0, id) {
        KnownExplained(s, o.evaluations, 0, id);
      }
    }
  }

  lemma KnownExplained(s: Store, es: seq<Evaluation>, n: nat, id: FindingId)
    requires n <= |es| && id in s.findings
    ensures Explained(s, es, n, id)
  {}

  lemma AppliedKeys(s: Store, e: Evaluation, o: Outcome, policy: ObservatoryPolicy, now: int64)
    ensures ApplyOne(s, e, o, policy, now).findings.Keys == s.findings.Keys + Ids(e.drafts)
    ensures |ApplyOne(s, e, o, policy, now).findings| == |s.findings.Keys + Ids(e.drafts)|
  {
    hide ApplyOne, DraftMap;
    var t := ApplyOne(s, e, o, policy, now);
    forall id ensures id in t.findings <==> id in s.findings.Keys + Ids(e.drafts) {
      AppliedAt(s, e, o, policy, now, id);
    }
    assert |t.findings.Keys| == |t.findings|;
  }

  lemma ExactStep(s: Store, before: Store, es: seq<Evaluation>, n: nat)
    requires 0 < n <= |es| && DistinctTargets(es) && DistinctDrafts(es)
    requires forall id :: id in before.findings ==> Explained(s, es, n - 1, id)
    ensures
      var ds := es[n - 1].drafts;
      && DistinctIds(ds)
      && (forall i :: 0 <= i < |ds| ==> ds[i].Id() in before.findings ==> ds[i].Id() in s.findings)
      && (forall id :: id in before.findings || id in Ids(ds) ==> Explained(s, es, n, id))
  {
    hide Ids;
    var ds := es[n - 1].drafts;
    assert Coherent(es[n - 1]);
    forall i | 0 <= i < |ds| && ds[i].Id() in before.findings ensures ds[i].Id() in s.findings {
      assert Explained(s, es, n - 1, ds[i].Id());
    }
    forall id | id in before.findings || id in Ids(ds) ensures Explained(s, es, n, id) {
      if id in before.findings {
        assert Explained(s, es, n - 1, id);
      } else {
        IdAmong(ds, id);
        assert es[n - 1].target == id.target;
      }
    }
  }

  /** A refused application changes nothing; an accepted one creates exactly as many
      findings as phase one counted; and the envelope is never exceeded. */
  lemma FindingBudget(s: Store, o: Outcome, policy: ObservatoryPolicy, now: int64, maxFindings: nat, refusedAt: nat)
    requires |s.findings| <= maxFindings
    ensures
      var r := ApplyEvaluation(s, o, policy, now, maxFindings, refusedAt);
      && |r.0.findings| <= maxFindings
      && (r.1 == Err(LimitFindingsExceeded) <==> |s.findings| + NewFindings(s, o.evaluations) > maxFindings)
      && (r.1 == Err(LimitFindingsExceeded) ==> r.0 == s)
      && (r.1.Ok? && DistinctTargets(o.evaluations) && DistinctDrafts(o.evaluations) ==>
            |r.0.findings| == |s.findings| + NewFindings(s, o.evaluations))
  {
    hide ApplyFirst, NewFindings, Accepts, DistinctTargets, DistinctDrafts, Lapsed, Explained;
    var n := |o.evaluations|;
    if |s.findings| + NewFindings(s, o.evaluations) <= maxFindings {
      if Stopped(s, o, refusedAt) {
        SizeBounded(s, o, policy, now, refusedAt + 1);
        NewFindingsMonotone(s, o.evaluations, refusedAt + 1);
      } else {
        SizeBounded(s, o, policy, now, n);
        if DistinctTargets(o.evaluations) && DistinctDrafts(o.evaluations) { SizeExact(s, o, policy, now, n); }
        assert o.evaluations[..n] == o.evaluations;
        assert ExpireAll(ApplyFirst(s, o, policy, now, n), now).findings.Keys
            == ApplyFirst(s, o, policy, now, n).findings.Keys;
        SameSize(ExpireAll(ApplyFirst(s, o, policy, now, n), now).findings, ApplyFirst(s, o, policy, now, n).findings);
      }
    }
  }

  lemma SameSize(a: map<FindingId, Finding>, b: map<FindingId, Finding>)
    requires a.Keys == b.Keys
    ensures |a| == |b|
  {
    assert |a.Keys| == |a| && |b.Keys| == |b|;
  }

  lemma {:induction false} NewFindingsMonotone(s: Store, es: seq<Evaluation>, n: nat)
    requires n <= |es|
    ensures NewFindings(s, es[..n]) <= NewFindings(s, es)
    decreases |es|
  {
    if n < |es| {
      assert es[..|es| - 1][..n] == es[..n];
      NewFindingsMonotone(s, es[..|es| - 1], n);
    } else {
      assert es[..n] == es;
    }
  }
}
