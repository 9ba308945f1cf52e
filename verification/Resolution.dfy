/** What a finding's resolution, observation count and reopen count say about the run
    that led to them. */
module Resolution {
  import opened Core
  import opened Values
  import opened Domain
  import opened Policy
  import opened Findings
  import opened LedgerState
  import opened LedgerRuns

  predicate Drafts(e: Evaluation, id: FindingId) {
    exists i :: 0 <= i < |e.drafts| && e.drafts[i].Id() == id
  }

  lemma DraftsMeans(e: Evaluation, id: FindingId)
    ensures Drafts(e, id) <==> id in DraftMap(e.drafts)
  {
    hide DraftMap;
    var m := DraftMap(e.drafts);
    if Drafts(e, id) {
      var i :| 0 <= i < |e.drafts| && e.drafts[i].Id() == id;
      assert e.drafts[i] in e.drafts;
    }
    if id in m {
      var i :| 0 <= i < |e.drafts| && e.drafts[i] == m[id];
    }
  }

  /** The decidable passes over the finding's target since the last one that drafted it. */
  function Tally(cs: seq<Change>, id: FindingId): nat {
    if cs == [] then 0
    else
      var before, c := Tally(cs[..|cs| - 1], id), cs[|cs| - 1];
      if !c.Evaluated? then before
      else if Drafts(c.e, id) then 0
      else if c.e.decidable && c.e.target == id.target then before + 1
      else before
  }

  function DraftingPasses(cs: seq<Change>, id: FindingId): nat {
    if cs == [] then 0
    else DraftingPasses(cs[..|cs| - 1], id)
         + (if cs[|cs| - 1].Evaluated? && Drafts(cs[|cs| - 1].e, id) then 1 else 0)
  }

  /** The changes that drafted a closed finding. */
  function Reopenings(s: Store, cs: seq<Change>, id: FindingId): nat {
    if cs == [] then 0
    else
      var before, c := Run(s, cs[..|cs| - 1]), cs[|cs| - 1];
      Reopenings(s, cs[..|cs| - 1], id)
      + (if c.Evaluated? && Drafts(c.e, id) && id in before.findings && !Live(before.findings[id].state) then 1 else 0)
  }

  /** No evaluation has counted towards a resolution yet: a new or a reloaded ledger. */
  predicate NoStreaks(s: Store) { s.streaks == map[] }

  // ----- streaks are tallies

  lemma StepStreak(s: Store, c: Change, id: FindingId)
    ensures Streak(Step(s, c), id) == if c.Evaluated? then NextStreak(s, c.e, DraftMap(c.e.drafts), id) else Streak(s, id)
  {
    hide ApplyOne, NextStreak;
    if c.Evaluated? { StreakAfter(s, c.e, c.o, c.policy, c.now, id); }
  }

  /** What every change but an evaluation carries over: identity, counts, and no way back
      to life or into resolution. */
  predicate Carries(f: Finding, g: Finding) {
    && g.id == f.id && g.observationCount == f.observationCount && g.reopenCount == f.reopenCount
    && g.firstSeen == f.firstSeen
    && (Live(g.state) ==> Live(f.state)) && (g.state.Resolved? <==> f.state.Resolved?)
  }

  lemma OthersCarry(s: Store, c: Change)
    requires !c.Evaluated?
    ensures Step(s, c).findings.Keys == s.findings.Keys
    ensures forall id :: id in s.findings ==> Carries(s.findings[id], Step(s, c).findings[id])
  {
    hide ScreenIntent, ValidActor, Carries, Rebased, Lapsed, ActionResult, Unsuppressed, SuppressedBy, AcknowledgedBy,
         AcknowledgementCleared, Update;
    forall id | id in s.findings ensures id in Step(s, c).findings && Carries(s.findings[id], Step(s, c).findings[id]) {
      var f := s.findings[id];
      CarriesSelf(f);
      if c.Committed? {
        RebasedCarries(f, c.document.target, c.document.generation, c.document.objects, c.now);
      } else if c.Swept? {
        LapsedCarries(f, c.now);
      } else if !c.Ingested? && !c.Rotated? {
        ActionCarries(s, c, id);
      }
    }
    OthersKeepKeys(s, c);
  }

  lemma OthersKeepKeys(s: Store, c: Change)
    requires !c.Evaluated?
    ensures Step(s, c).findings.Keys == s.findings.Keys
  {
    hide ScreenIntent, ValidActor, Rebased, Lapsed, Unsuppressed, SuppressedBy, AcknowledgedBy, AcknowledgementCleared;
  }

  lemma CarriesSelf(f: Finding)
    ensures Carries(f, f)
  {}

  lemma RebasedCarries(f: Finding, target: Text, generation: nat, objects: Table<Text, IntentObject>, now: int64)
    ensures Carries(f, Rebased(f, target, generation, objects, now))
  {
    hide StillManaged;
  }

  lemma LapsedCarries(f: Finding, now: int64)
    ensures Carries(f, Lapsed(f, now))
  {}

  lemma ActionCarries(s: Store, c: Change, id: FindingId)
    requires c.Suppressing? || c.Unsuppressing? || c.Acknowledging? || c.Unacknowledging?
    requires id in s.findings
    ensures id in Step(s, c).findings && Carries(s.findings[id], Step(s, c).findings[id])
  {
    hide ValidActor, SuppressedBy, Unsuppressed, AcknowledgedBy, AcknowledgementCleared, Carries;
    CarriesSelf(s.findings[id]);
    ResultCarries(s.findings[id], c);
  }

  lemma ResultCarries(f: Finding, c: Change)
    requires c.Suppressing? || c.Unsuppressing? || c.Acknowledging? || c.Unacknowledging?
    ensures Carries(f, ActionResult(f, c))
  {
    hide BoundedDetail;
  }

  /** While a finding is live its streak is exactly the number of agreeing passes since it
      was last drafted, and once closed never more than that. */
  lemma {:induction false} StreakIsTally(s: Store, cs: seq<Change>, id: FindingId)
    requires Lifecycle(s) && Allowed(s, cs) && NoStreaks(s)
    ensures
      var t := Run(s, cs);
      && Streak(t, id) <= Tally(cs, id)
      && (id in t.findings && Live(t.findings[id].state) ==> Streak(t, id) == Tally(cs, id))
  {
    hide Lifecycle, Step, Permitted, Drafts;
    if cs != [] {
      var before, c := Run(s, cs[..|cs| - 1]), cs[|cs| - 1];
      StreakIsTally(s, cs[..|cs| - 1], id);
      RunKeepsLifecycle(s, cs[..|cs| - 1]);
      StepStreak(before, c, id);
      if c.Evaluated? {
        EvaluatedTally(before, c, id, Tally(cs[..|cs| - 1], id));
      } else if id in Step(before, c).findings && Live(Step(before, c).findings[id].state) {
        OthersCarry(before, c);
      }
    }
  }

  lemma EvaluatedTally(s: Store, c: Change, id: FindingId, tally: nat)
    requires Lifecycle(s) && c.Evaluated? && Permitted(s, c)
    requires Streak(s, id) <= tally && (id in s.findings && Live(s.findings[id].state) ==> Streak(s, id) == tally)
    ensures
      var t := Step(s, c);
      var next := if Drafts(c.e, id) then 0 else if c.e.decidable && c.e.target == id.target then tally + 1 else tally;
      && Streak(t, id) <= next
      && (id in t.findings && Live(t.findings[id].state) ==> Streak(t, id) == next)
  {
    hide Reexplained, WindowKept, BaselineKept, Refreshed, Created, Drafts, Coherent, Accepts, ApplyOne, DraftMap;
    DraftsMeans(c.e, id);
    AppliedAt(s, c.e, c.o, c.policy, c.now, id);
    StepStreak(s, c, id);
    if id in s.findings { assert Kept(s, id); }
  }

  // ----- resolution

  /** A finding becomes resolved exactly in a decidable evaluation of its target that
      neither drafts nor re-explains it, as the last of enough such evaluations since it
      was drafted. No other change resolves anything. */
  lemma ResolvedExactlyWhen(s: Store, cs: seq<Change>, c: Change, id: FindingId)
    requires Lifecycle(s) && Allowed(s, cs) && Permitted(Run(s, cs), c) && NoStreaks(s)
    requires id in Run(s, cs).findings && !Run(s, cs).findings[id].state.Resolved?
    ensures id in Step(Run(s, cs), c).findings
    ensures Step(Run(s, cs), c).findings[id].state.Resolved? <==>
      && Live(Run(s, cs).findings[id].state)
      && c.Evaluated? && c.e.target == id.target && c.e.decidable && !Drafts(c.e, id)
      && !Reexplained(Run(s, cs).findings[id], DraftMap(c.e.drafts))
      && Tally(cs + [c], id) >= Confirmations(c.o)
  {
    hide Lifecycle, Step, Permitted, Drafts, Reexplained, Run;
    var before := Run(s, cs);
    RunKeepsLifecycle(s, cs);
    StreakIsTally(s, cs, id);
    assert (cs + [c])[..|cs|] == cs;
    if c.Evaluated? {
      StepResolves(before, c, id);
    } else {
      OthersCarry(before, c);
    }
  }

  lemma StepResolves(s: Store, c: Change, id: FindingId)
    requires Lifecycle(s) && c.Evaluated? && id in s.findings && !s.findings[id].state.Resolved?
    ensures id in Step(s, c).findings
    ensures Step(s, c).findings[id].state.Resolved? <==>
      && Live(s.findings[id].state) && c.e.target == id.target && c.e.decidable && !Drafts(c.e, id)
      && !Reexplained(s.findings[id], DraftMap(c.e.drafts)) && Streak(s, id) + 1 >= Confirmations(c.o)
  {
    hide Reexplained, WindowKept, BaselineKept, Refreshed, Created, Drafts, ApplyOne, DraftMap;
    DraftsMeans(c.e, id);
    AppliedAt(s, c.e, c.o, c.policy, c.now, id);
    assert Kept(s, id);
    if Drafts(c.e, id) {
      RefreshedSound(s.findings[id], DraftMap(c.e.drafts)[id], c.e, c.o, c.policy, c.now);
    }
  }

  /** An undecidable pass neither counts nor resets: an undrafted finding is untouched. */
  lemma UndecidableChangesNothing(s: Store, c: Change, id: FindingId)
    requires c.Evaluated? && !c.e.decidable && !Drafts(c.e, id) && id in s.findings
    ensures id in Step(s, c).findings && Step(s, c).findings[id] == s.findings[id]
    ensures Streak(Step(s, c), id) == Streak(s, id)
  {
    hide Drafts, Reexplained, ApplyOne, DraftMap;
    DraftsMeans(c.e, id);
    AppliedAt(s, c.e, c.o, c.policy, c.now, id);
    StepStreak(s, c, id);
  }

  /** Drift that returns reopens the same finding, with its streak at zero. */
  lemma ReturnReopens(s: Store, c: Change, id: FindingId)
    requires c.Evaluated? && Drafts(c.e, id) && id in s.findings && !Live(s.findings[id].state)
    ensures
      var t := Step(s, c);
      && id in t.findings && t.findings[id].state.Open? && t.findings[id].resolvedAt == 0
      && t.findings[id].firstSeen == s.findings[id].firstSeen
      && t.findings[id].reopenCount == s.findings[id].reopenCount + 1 && Streak(t, id) == 0
  {
    hide Drafts, Reexplained, FirstApplying, ApplyOne, DraftMap;
    DraftsMeans(c.e, id);
    AppliedAt(s, c.e, c.o, c.policy, c.now, id);
    StepStreak(s, c, id);
  }

  // ----- counting

  /** A finding exists exactly when some pass drafted it or it was loaded; it counts every
      pass that drafted it and every return. */
  lemma {:induction false} CountsAreExact(s: Store, cs: seq<Change>, id: FindingId)
    ensures
      var t := Run(s, cs);
      && (id in t.findings <==> id in s.findings || DraftingPasses(cs, id) > 0)
      && (id in t.findings ==>
            && t.findings[id].observationCount
               == (if id in s.findings then s.findings[id].observationCount else 0) + DraftingPasses(cs, id)
            && t.findings[id].reopenCount
               == (if id in s.findings then s.findings[id].reopenCount else 0) + Reopenings(s, cs, id))
      && (id !in t.findings ==> Reopenings(s, cs, id) == 0)
  {
    hide Step, Drafts;
    if cs != [] {
      var before, c := Run(s, cs[..|cs| - 1]), cs[|cs| - 1];
      CountsAreExact(s, cs[..|cs| - 1], id);
      if c.Evaluated? { EvaluatedCounts(before, c, id); } else { OthersCarry(before, c); }
    }
  }

  lemma EvaluatedCounts(s: Store, c: Change, id: FindingId)
    requires c.Evaluated?
    ensures
      var t := Step(s, c);
      && (id in t.findings <==> id in s.findings || Drafts(c.e, id))
      && (id in t.findings ==>
            && t.findings[id].observationCount
               == (if id in s.findings then s.findings[id].observationCount else 0) + (if Drafts(c.e, id) then 1 else 0)
            && t.findings[id].reopenCount
               == (if id in s.findings then s.findings[id].reopenCount else 0)
                  + (if Drafts(c.e, id) && id in s.findings && !Live(s.findings[id].state) then 1 else 0))
  {
    hide Drafts, Reexplained, FirstApplying, ApplyOne, DraftMap;
    DraftsMeans(c.e, id);
    AppliedAt(s, c.e, c.o, c.policy, c.now, id);
  }
}
