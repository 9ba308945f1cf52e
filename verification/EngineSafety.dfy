/** No interleaving draws a conclusion from recovered evidence. */
module EngineSafety {
  import opened Core
  import opened Values
  import opened Domain
  import opened Policy
  import opened Comparison
  import opened Window
  import opened Findings
  import opened LedgerState
  import opened LedgerRuns
  import opened Engine
  import opened EngineRuns

  // ----- recovered evidence decides nothing

  /** Every retained observation of the target is recovered, and whatever is in flight is
      fenced or holds no usable evidence of the target. */
  predicate Quiet(w: World, target: Text) {
    && (forall k :: k in w.store.windows && k.target == target ==> AllRecovered(w.store.windows[k]))
    && (forall token :: token in w.flights ==> FlightQuiet(w, w.flights[token], target))
  }

  predicate FlightQuiet(w: World, f: Flight, target: Text) {
    || f.incarnation < w.config.incarnation
    || forall i :: 0 <= i < |f.inputs| && f.inputs[i].target == target ==> Unusable(f.inputs[i])
  }

  /** A new observation of the target is stored. */
  predicate StoresFor(w: World, ev: Event, target: Text) {
    && ev.Arrive? && ev.snapshot.target == target && ArrivalAllowed(w, ev.snapshot, ev.validation)
    && Screen(WindowOf(w.store, WindowKey(target, ev.snapshot.source)), Stamped(ev.snapshot, ev.now)).Stored?
  }

  lemma RotationQuiets(w: World, incarnation: nat, epoch: nat, now: int64, target: Text)
    requires Sane(w) && RotationAllowed(w, incarnation, epoch)
    ensures Quiet(Next(w, Rotate(incarnation, epoch, now)), target)
  {
    hide Lifecycle, SlotSane, BaselineBehind;
    var v := Next(w, Rotate(incarnation, epoch, now));
    forall token | token in v.flights ensures FlightQuiet(v, v.flights[token], target) {
      assert FlightSane(w, w.flights[token]);
    }
  }

  lemma LoadQuiets(w: World, store: Store, target: Text)
    requires Enabled(w, Load(store))
    ensures Quiet(Next(w, Load(store)), target)
  {
    hide Lifecycle;
  }

  lemma GatheredUnusable(w: World, now: int64, input: Input)
    requires Gathers(w, now, input)
    requires forall k :: k in w.store.windows && k.target == input.target ==> AllRecovered(w.store.windows[k])
    ensures Unusable(input)
  {
    hide Included, LiveVerdict;
    forall i | 0 <= i < |input.freshness| ensures !input.freshness[i].maySupportCompliance {
      assert FromWindow(w, now, input, i);
      var k :| k in w.store.windows && k.target == input.target &&
        exists j :: 0 <= j < |w.store.windows[k]| && Copied(w, now, input, i, k, j);
      var j :| 0 <= j < |w.store.windows[k]| && Copied(w, now, input, i, k, j);
      assert w.store.windows[k][j].recovered;
    }
  }

  lemma BegunQuiet(w: World, ev: Event, target: Text)
    requires ev.Begin? && Enabled(w, ev) && Quiet(w, target)
    ensures forall i :: 0 <= i < |ev.inputs| && ev.inputs[i].target == target ==> Unusable(ev.inputs[i])
  {
    hide Gathers, Known, Unusable, FlightQuiet;
    forall i | 0 <= i < |ev.inputs| && ev.inputs[i].target == target ensures Unusable(ev.inputs[i]) {
      GatheredUnusable(w, ev.now, ev.inputs[i]);
    }
  }

  lemma QuietStep(w: World, ev: Event, target: Text)
    requires Sane(w) && Enabled(w, ev) && Quiet(w, target) && !StoresFor(w, ev, target)
    ensures Quiet(Next(w, ev), target)
  {
    hide Lifecycle, Recovered, FlightSane, GathersAll, ComparedAt, Advances, ApplyEvaluation, Step, CommitIntent, Ingest,
         Invalidate, LiveVerdict, AllRecovered, Unusable, Screen;
    StoreStep(w, ev);
    var v := Next(w, ev);
    forall k | k in v.store.windows && k.target == target ensures AllRecovered(v.store.windows[k]) {
      WindowStep(w, ev, target, k);
    }
    forall token | token in v.flights ensures FlightQuiet(v, v.flights[token], target) {
      if ev.Begin? && token == ev.token { BegunQuiet(w, ev, target); }
      else if ev.Compare? && token == ev.token { assert FlightQuiet(w, w.flights[token], target); }
      else { assert FlightQuiet(w, w.flights[token], target); }
    }
  }

  lemma WindowStep(w: World, ev: Event, target: Text, k: WindowKey)
    requires Sane(w) && Enabled(w, ev) && Quiet(w, target) && !StoresFor(w, ev, target)
    requires k in Next(w, ev).store.windows && k.target == target
    ensures AllRecovered(Next(w, ev).store.windows[k])
  {
    hide Lifecycle, FlightSane, GathersAll, ComparedAt, ApplyEvaluation, LiveVerdict, Screen, Step, FlightQuiet,
         Stopped, RebaseAll;
    match ev {
      case Finish(token, apply, refusedAt) => FinishedStore(w, token, refusedAt);
      case Act(change) => ActedStore(w.store, change);
      case _ =>
    }
  }

  /** The states a conclusion would put a finding in. */
  predicate Unmoved(f: Finding, g: Finding) {
    (g.state.Resolved? ==> f.state.Resolved?) && (g.state.Superseded? ==> f.state.Superseded?)
  }

  predicate Undecided(o: Outcome, target: Text) {
    forall i :: 0 <= i < |o.evaluations| && o.evaluations[i].target == target ==> !o.evaluations[i].decidable
  }

  lemma {:induction false} ApplyFirstUnmoved(s: Store, o: Outcome, policy: ObservatoryPolicy, now: int64, n: nat,
                                             id: FindingId)
    requires n <= |o.evaluations| && CoherentOutcome(o) && Undecided(o, id.target) && Lifecycle(s) && id in s.findings
    ensures
      var t := ApplyFirst(s, o, policy, now, n);
      id in t.findings && Unmoved(s.findings[id], t.findings[id])
  {
    hide ApplyOne, Accepts, Lifecycle, Coherent;
    if n > 0 {
      var before := ApplyFirst(s, o, policy, now, n - 1);
      ApplyFirstUnmoved(s, o, policy, now, n - 1, id);
      PrefixKept(s, o, policy, now, n - 1);
      OneUnmoved(before, o.evaluations[n - 1], o, policy, now, id);
    }
  }

  lemma PrefixKept(s: Store, o: Outcome, policy: ObservatoryPolicy, now: int64, n: nat)
    requires n <= |o.evaluations| && CoherentOutcome(o) && Lifecycle(s)
    ensures Lifecycle(ApplyFirst(s, o, policy, now, n))
  {
    hide Lifecycle, ApplyFirst, CoherentOutcome, ChangesOf;
    ApplyFirstIsRun(s, o, policy, now, n);
    RunKeepsLifecycle(s, ChangesOf(s, o, policy, now, n));
  }

  lemma OneUnmoved(s: Store, e: Evaluation, o: Outcome, policy: ObservatoryPolicy, now: int64, id: FindingId)
    requires Coherent(e) && Lifecycle(s) && id in s.findings && (e.target == id.target ==> !e.decidable)
    ensures
      var t := ApplyOne(s, e, o, policy, now);
      id in t.findings && Unmoved(s.findings[id], t.findings[id])
  {
    hide ApplyOne, Refreshed, Reexplained, WindowKept, BaselineKept;
    AppliedAt(s, e, o, policy, now, id);
    var m := DraftMap(e.drafts);
    assert Kept(s, id);
    if id in m {
      assert m[id] in e.drafts;
      RefreshedSound(s.findings[id], m[id], e, o, policy, now);
    }
  }

  lemma ApplyUnmoved(s: Store, o: Outcome, policy: ObservatoryPolicy, now: int64, maxFindings: nat, refusedAt: nat,
                     id: FindingId)
    requires CoherentOutcome(o) && Undecided(o, id.target) && Lifecycle(s) && id in s.findings
    ensures
      var t := ApplyEvaluation(s, o, policy, now, maxFindings, refusedAt).0;
      id in t.findings && Unmoved(s.findings[id], t.findings[id])
  {
    hide ApplyFirst, CoherentOutcome, Undecided, Lifecycle, NewFindings, Accepts;
    if Stopped(s, o, refusedAt) { ApplyFirstUnmoved(s, o, policy, now, refusedAt + 1, id); }
    ApplyFirstUnmoved(s, o, policy, now, |o.evaluations|, id);
  }

  lemma QuietOutcome(w: World, token: nat, target: Text)
    requires Sane(w) && Quiet(w, target) && token in w.flights && w.flights[token].compared.Some?
    requires w.flights[token].incarnation == w.config.incarnation
    ensures Undecided(OutcomeOf(w.flights[token]), target)
  {
    hide Lifecycle, SlotSane, BaselineBehind, Unusable, AllRecovered, Coherent;
    var f := w.flights[token];
    assert FlightSane(w, f) && FlightQuiet(w, f, target);
    var es := f.compared.value.evaluations;
    forall i | 0 <= i < |es| && es[i].target == target ensures !es[i].decidable {
      SlotFramed(w.limits.maxRefs, f.compared.value.policy, f.inputs[i], es[i]);
    }
  }

  predicate NothingStored(w: World, events: seq<Event>, target: Text) {
    events == [] || (&& NothingStored(w, events[..|events| - 1], target)
                     && !StoresFor(Reach(w, events[..|events| - 1]), events[|events| - 1], target))
  }

  lemma {:induction false} StaysQuiet(w: World, events: seq<Event>, target: Text)
    requires Sane(w) && Possible(w, events) && Quiet(w, target) && NothingStored(w, events, target)
    ensures Quiet(Reach(w, events), target)
  {
    hide Sane, Quiet, Enabled, Next, StoresFor;
    if events != [] {
      var k := |events| - 1;
      StaysQuiet(w, events[..k], target);
      RunSane(w, events[..k]);
      QuietStep(Reach(w, events[..k]), events[k], target);
    }
  }

  /** The evaluation says nothing about the target. */
  predicate Silent(es: seq<Evaluation>, target: Text) {
    forall i :: 0 <= i < |es| && es[i].target == target ==> !es[i].decidable && !es[i].compliant
  }

  /** No finding of the target has been resolved or superseded. */
  predicate NoneMoved(s: Store, t: Store, target: Text) {
    forall id :: id in s.findings && id.target == target ==> id in t.findings && Unmoved(s.findings[id], t.findings[id])
  }

  /** Once all retained evidence of a target is recovered, no evaluation, begun before or
      after, reports the target decidable or compliant or moves one of its findings to
      Resolved or Superseded, until a new observation of it is stored. */
  lemma EvidenceSafety(w: World, events: seq<Event>, target: Text, token: nat, apply: bool, refusedAt: nat)
    requires Sane(w) && Possible(w, events) && Quiet(w, target) && NothingStored(w, events, target)
    requires Enabled(Reach(w, events), Finish(token, apply, refusedAt))
    ensures
      var v := Reach(w, events);
      && (Published(v, token, apply, refusedAt) ==> Silent(v.flights[token].compared.value.evaluations, target))
      && NoneMoved(v.store, Next(v, Finish(token, apply, refusedAt)).store, target)
  {
    hide Sane, Quiet, Next, Possible, NothingStored, Reach, Silent, NoneMoved, Passes;
    RunSane(w, events);
    StaysQuiet(w, events, target);
    QuietFinish(Reach(w, events), target, token, apply, refusedAt);
  }

  lemma QuietFinish(v: World, target: Text, token: nat, apply: bool, refusedAt: nat)
    requires Sane(v) && Quiet(v, target) && token in v.flights && v.flights[token].compared.Some?
    ensures Passes(v, v.flights[token]) ==> Silent(v.flights[token].compared.value.evaluations, target)
    ensures NoneMoved(v.store, Next(v, Finish(token, apply, refusedAt)).store, target)
  {
    hide Sane, Quiet, ApplyEvaluation, Undecided, Unmoved;
    var f := v.flights[token];
    FlightIsSane(v, token);
    if Passes(v, f) {
      QuietOutcome(v, token, target);
      FlightCoherent(v, f);
      UndecidedMeans(v, token, target);
    }
    forall id | id in v.store.findings && id.target == target
      ensures var t := Next(v, Finish(token, apply, refusedAt)).store;
              id in t.findings && Unmoved(v.store.findings[id], t.findings[id])
    {
      UnmovedSelf(v.store.findings[id]);
      if Passes(v, f) {
        ApplyUnmoved(v.store, OutcomeOf(f), f.compared.value.policy, f.now, v.limits.maxFindings, refusedAt, id);
      }
    }
  }

  lemma UnmovedSelf(f: Finding)
    ensures Unmoved(f, f)
  {}

  lemma UndecidedMeans(w: World, token: nat, target: Text)
    requires Sane(w) && token in w.flights && w.flights[token].compared.Some?
    requires Undecided(OutcomeOf(w.flights[token]), target)
    ensures Silent(w.flights[token].compared.value.evaluations, target)
  {
    hide SlotSane, BaselineBehind, Lifecycle, Coherent;
    var f := w.flights[token];
    assert FlightSane(w, f);
    forall i | 0 <= i < |f.compared.value.evaluations| && f.compared.value.evaluations[i].target == target
      ensures var e := f.compared.value.evaluations[i]; !e.decidable && !e.compliant
    {
      SlotFramed(w.limits.maxRefs, f.compared.value.policy, f.inputs[i], f.compared.value.evaluations[i]);
    }
  }
}
