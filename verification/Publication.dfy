/** What a published evaluation leaves in the ledger, over whole runs. */
module Publication {
  import opened Core
  import opened Domain
  import opened Comparison
  import opened LedgerState
  import opened LedgerRuns
  import opened Engine
  import opened EngineRuns
  import opened EngineResults
  import opened EngineFences
  import opened Application
  import Budget
  import DraftIdentity

  /** The inputs of a flight are of different targets, so its evaluations are. */
  lemma FlightApart(w: World, f: Flight)
    requires FlightSane(w, f) && f.compared.Some?
    ensures Apart(f.compared.value.evaluations)
  {
    hide Compares, Coherent, BaselineBehind, Less, Framing;
    var es, p := f.compared.value.evaluations, f.compared.value.policy;
    forall i, j | 0 <= i < j < |es| ensures es[i].target != es[j].target || Idle(es[i]) || Idle(es[j]) {
      assert SlotSane(w.limits.maxRefs, p, f.inputs[i], es[i]) && SlotSane(w.limits.maxRefs, p, f.inputs[j], es[j]);
      if es[i] != BLANK && es[j] != BLANK {
        ComparesFramed(f.inputs[i], p, w.limits.maxRefs, es[i]);
        ComparesFramed(f.inputs[j], p, w.limits.maxRefs, es[j]);
        FramedTarget(f.inputs[i], es[i]);
        FramedTarget(f.inputs[j], es[j]);
        LessStrict(f.inputs[i].target, f.inputs[j].target);
      }
    }
  }

  /** In every run: when an evaluation is published and applied, each draft of each accepted target
      has its finding in the ledger, saying what the draft says. */
  lemma PublishedIsRecorded(w: World, events: seq<Event>, token: nat, refusedAt: nat, j: nat, k: nat)
    requires Sane(w) && Possible(w, events) && Published(Reach(w, events), token, true, refusedAt)
    requires
      var v := Reach(w, events);
      var es := v.flights[token].compared.value.evaluations;
      j < |es| && Accepts(v.store.baselines, es[j]) && k < |es[j].drafts|
    ensures
      var v := Reach(w, events);
      var f, t := v.flights[token], Next(v, Finish(token, true, refusedAt)).store;
      var e := f.compared.value.evaluations[j];
      var d := e.drafts[k];
      var id := FindingId(d.target, d.objectId, d.path, d.klass, d.generation, d.qualifier);
      && id in t.findings && Says(t.findings[id], d, e.bestFreshness, f.policyId, f.now)
      && if id in v.store.findings then Again(v.store.findings[id], t.findings[id], f.compared.value.policy, d, f.now)
         else Begins(t.findings[id], f.compared.value.policy, d, f.now)
  {
    hide Reach, Possible, Lifecycle, ApplyEvaluation, FlightSane, Apart, Says, Again, Begins, Accepts, Next, Published,
         CoherentOutcome, Budget.DistinctTargets;
    var v := Reach(w, events);
    RunSane(w, events);
    PublishedNeeds(v, token, refusedAt);
    var f := v.flights[token];
    FlightIsSane(v, token);
    FlightApart(v, f);
    FlightDistinct(v, f);
    FlightCoherent(v, f);
    PublishedExactly(v, token, true, refusedAt);
    assert DraftIdentity.DistinctIds(f.compared.value.evaluations[j].drafts);
    DraftIsApplied(v.store, OutcomeOf(f), f.compared.value.policy, f.now, v.limits.maxFindings, refusedAt, j, k);
  }

  lemma PublishedNeeds(v: World, token: nat, refusedAt: nat)
    requires Published(v, token, true, refusedAt)
    ensures token in v.flights && v.flights[token].compared.Some?
  {
    hide Applied, Passes;
  }
}
