/** Whole runs of the engine under every interleaving: what every step keeps, and
    baselines without ABA. */
module EngineRuns {
  import opened Core
  import opened Values
  import opened Domain
  import opened Policy
  import opened Sorting
  import opened Comparison
  import opened Compliance
  import opened Window
  import opened Findings
  import opened LedgerState
  import opened LedgerRuns
  import opened Budget
  import opened Engine

  // ----- what an evaluation in flight always satisfies

  predicate Unusable(input: Input) {
    forall i :: 0 <= i < |input.freshness| ==> !input.freshness[i].maySupportCompliance
  }

  /** Framed by its input: the same target and baseline generation, and nothing decided
      without usable evidence. */
  predicate Framing(input: Input, e: Evaluation) {
    && e.target == input.target && e.hasBaseline == input.baseline.Some?
    && (input.baseline.Some? ==> e.generation == input.baseline.value.generation)
    && Coherent(e) && (e.compliant ==> e.decidable)
    && (Unusable(input) ==> !e.decidable)
  }

  lemma ComparesFramed(input: Input, policy: ObservatoryPolicy, maxRefs: nat, e: Evaluation)
    requires Compares(input, policy, maxRefs, e)
    ensures Framing(input, e)
  {
    hide Current, Views, Conclude, AnyUsable;
    if |input.snapshots| == |input.freshness| {
      var chosen :| Current(Views(input, policy), chosen)
                    && e == Conclude(input.target, input.baseline, policy, maxRefs, chosen);
      EvaluationFramed(input.target, input.baseline, policy, maxRefs, chosen);
      FramedCoherent(input, policy, maxRefs, chosen);
      if Unusable(input) {
        NoneUsable(input, policy, chosen);
        UndecidedWithoutEvidence(input.target, input.baseline, policy, maxRefs, chosen);
      }
    }
  }

  lemma FramedCoherent(input: Input, policy: ObservatoryPolicy, maxRefs: nat, chosen: seq<View>)
    ensures
      var e := Conclude(input.target, input.baseline, policy, maxRefs, chosen);
      Coherent(e)
  {
    hide Conclude, Blocking, Acting;
    EvaluationFramed(input.target, input.baseline, policy, maxRefs, chosen);
    var e := Conclude(input.target, input.baseline, policy, maxRefs, chosen);
    var f := FrameOf(input.target, input.baseline, policy, maxRefs);
    forall i | 0 <= i < |e.drafts|
      ensures e.drafts[i].target == e.target && e.drafts[i].generation == (if e.hasBaseline then e.generation else 0)
    {
      assert Framed(f, e.drafts[i]);
    }
  }

  lemma NoneUsable(input: Input, policy: ObservatoryPolicy, chosen: seq<View>)
    requires |input.snapshots| == |input.freshness| && Unusable(input) && Current(Views(input, policy), chosen)
    ensures !AnyUsable(chosen)
  {
    hide ViewOf, Ordered, Represented, Within;
    forall i | 0 <= i < |chosen| ensures !chosen[i].Usable() {
      var j := At(chosen, Views(input, policy), i);
      ViewVerdict(input, policy, j);
    }
  }

  lemma ViewVerdict(input: Input, policy: ObservatoryPolicy, j: nat)
    requires |input.snapshots| == |input.freshness| && j < |input.snapshots|
    ensures Views(input, policy)[j].verdict == input.freshness[j]
    ensures Views(input, policy)[j].snapshot == input.snapshots[j]
  {}

  // ----- the invariant of every run

  /** The copied baseline is the committed one, or an older generation of it. */
  predicate BaselineBehind(s: Store, input: Input) {
    input.baseline.Some? ==>
      && input.target in s.baselines
      && (s.baselines[input.target] == input.baseline.value
          || s.baselines[input.target].generation > input.baseline.value.generation)
  }

  ghost predicate SlotSane(maxRefs: nat, policy: ObservatoryPolicy, input: Input, e: Evaluation) {
    e == BLANK || Compares(input, policy, maxRefs, e)
  }

  predicate Increasing(inputs: seq<Input>) {
    forall i, j :: 0 <= i < j < |inputs| ==> Less(inputs[i].target, inputs[j].target)
  }

  ghost predicate FlightSane(w: World, f: Flight) {
    && f.incarnation <= w.config.incarnation && Increasing(f.inputs)
    && (forall i :: 0 <= i < |f.inputs| ==> BaselineBehind(w.store, f.inputs[i]))
    && (f.compared.Some? ==>
          && |f.compared.value.evaluations| == |f.inputs|
          && forall i :: 0 <= i < |f.inputs| ==>
               SlotSane(w.limits.maxRefs, f.compared.value.policy, f.inputs[i], f.compared.value.evaluations[i]))
  }

  ghost predicate Sane(w: World) {
    && Lifecycle(w.store) && |w.store.findings| <= w.limits.maxFindings
    && forall token :: token in w.flights ==> FlightSane(w, w.flights[token])
  }

  lemma FlightIsSane(w: World, token: nat)
    requires Sane(w) && token in w.flights
    ensures FlightSane(w, w.flights[token]) && Lifecycle(w.store)
  {
    hide FlightSane, Lifecycle;
  }

  lemma SlotFramed(maxRefs: nat, policy: ObservatoryPolicy, input: Input, e: Evaluation)
    requires SlotSane(maxRefs, policy, input, e)
    ensures e == BLANK || Framing(input, e)
    ensures Coherent(e) && (e.compliant ==> e.decidable)
  {
    hide Compares, Framing;
    if e != BLANK {
      ComparesFramed(input, policy, maxRefs, e);
      FramingCoherent(input, e);
    }
  }

  lemma FramingCoherent(input: Input, e: Evaluation)
    requires Framing(input, e)
    ensures Coherent(e) && (e.compliant ==> e.decidable)
  {}

  lemma FlightCoherent(w: World, f: Flight)
    requires FlightSane(w, f) && f.compared.Some?
    ensures CoherentOutcome(OutcomeOf(f))
  {
    hide SlotSane, Coherent, BaselineBehind;
    forall i | 0 <= i < |f.inputs| ensures Coherent(f.compared.value.evaluations[i]) {
      SlotFramed(w.limits.maxRefs, f.compared.value.policy, f.inputs[i], f.compared.value.evaluations[i]);
    }
  }

  /** Committed baselines are only ever replaced by a later generation at no earlier epoch. */
  predicate Advances(s: Store, t: Store) {
    forall x :: x in s.baselines ==>
      && x in t.baselines
      && (t.baselines[x] == s.baselines[x]
          || (t.baselines[x].generation > s.baselines[x].generation && t.baselines[x].epoch >= s.baselines[x].epoch))
  }

  lemma StepAdvances(s: Store, c: Change)
    ensures Advances(s, Step(s, c))
  {
    hide RebaseAll, ApplyOne, ExpireAll, Invalidate, Update, Admit, ValidActor;
    if c.Evaluated? { AppliedBaselines(s, c.e, c.o, c.policy, c.now); }
    if c.Swept? { SweptBaselines(s, c.now); }
    if c.Rotated? { InvalidatedBaselines(s, c.reason, c.now); }
    if c.Suppressing? || c.Unsuppressing? || c.Acknowledging? || c.Unacknowledging? { ActedBaselines(s, c); }
  }

  lemma AppliedBaselines(s: Store, e: Evaluation, o: Outcome, policy: ObservatoryPolicy, now: int64)
    ensures ApplyOne(s, e, o, policy, now).baselines == s.baselines
  {
    hide NextFinding, NextStreak, DraftMap;
  }

  lemma SweptBaselines(s: Store, now: int64)
    ensures ExpireAll(s, now).baselines == s.baselines && ExpireAll(s, now).windows == s.windows
  {
    hide Lapsed;
  }

  lemma InvalidatedBaselines(s: Store, reason: Reason, now: int64)
    ensures Invalidate(s, reason, now).baselines == s.baselines && Invalidate(s, reason, now).findings == s.findings
  {
    hide InvalidatedWindow;
  }

  lemma ActedBaselines(s: Store, c: Change)
    requires c.Suppressing? || c.Unsuppressing? || c.Acknowledging? || c.Unacknowledging?
    ensures Step(s, c).baselines == s.baselines && Step(s, c).windows == s.windows
  {
    hide ValidActor, SuppressedBy, Unsuppressed, AcknowledgedBy, AcknowledgementCleared;
  }

  lemma AppliedStore(s: Store, o: Outcome, policy: ObservatoryPolicy, now: int64, maxFindings: nat, refusedAt: nat)
    requires Lifecycle(s) && CoherentOutcome(o) && |s.findings| <= maxFindings
    ensures
      var t := ApplyEvaluation(s, o, policy, now, maxFindings, refusedAt).0;
      t.baselines == s.baselines && t.windows == s.windows && Lifecycle(t) && |t.findings| <= maxFindings
  {
    hide Lifecycle, CoherentOutcome, ApplyFirst, NewFindings, Stopped;
    FindingBudget(s, o, policy, now, maxFindings, refusedAt);
    LifecycleApplied(s, o, policy, now, maxFindings, refusedAt);
    SweptBaselines(ApplyFirst(s, o, policy, now, |o.evaluations|), now);
  }

  lemma LifecycleApplied(s: Store, o: Outcome, policy: ObservatoryPolicy, now: int64, maxFindings: nat, refusedAt: nat)
    requires Lifecycle(s) && CoherentOutcome(o)
    ensures Lifecycle(ApplyEvaluation(s, o, policy, now, maxFindings, refusedAt).0)
  {
    hide Lifecycle, CoherentOutcome, ApplyEvaluation, ApplyChanges;
    ApplyIsRun(s, o, policy, now, maxFindings, refusedAt);
    RunKeepsLifecycle(s, ApplyChanges(s, o, policy, now, maxFindings, refusedAt));
  }

  /** What one event does to the committed state. */
  lemma StoreStep(w: World, ev: Event)
    requires Sane(w) && Enabled(w, ev)
    ensures
      var v := Next(w, ev);
      && Lifecycle(v.store) && |v.store.findings| <= v.limits.maxFindings && v.limits == w.limits
      && (!ev.Load? ==> Advances(w.store, v.store) && v.config.incarnation >= w.config.incarnation)
  {
    hide Lifecycle, Next, Enabled, Advances, FlightSane;
    if ev.Rotate? || ev.Publish? || ev.Arrive? {
      IntakeStep(w, ev);
    } else {
      OtherStep(w, ev);
    }
  }

  /** Documents, observations and rotations. */
  lemma IntakeStep(w: World, ev: Event)
    requires Sane(w) && (ev.Rotate? || ev.Publish? || ev.Arrive?)
    ensures
      var v := Next(w, ev);
      && Lifecycle(v.store) && |v.store.findings| <= v.limits.maxFindings && v.limits == w.limits
      && Advances(w.store, v.store) && v.config.incarnation >= w.config.incarnation
  {
    hide Lifecycle, CommitIntent, Ingest, Invalidate, FlightSane, Advances, LiveVerdict, ArrivalAllowed, Serving, Stamped;
    SameAdvances(w.store);
    match ev {
      case Rotate(_, _, now) => RotatedStore(w.store, EvidenceRecoveredNotFresh, now);
      case Publish(d, now, _) => CommittedStore(w.store, d, now, w.limits.maxTargets);
      case Arrive(s, now, _) =>
        var stamped := Stamped(s, now);
        IngestedStore(w.store, Retained(stamped, LiveVerdict(w.config, now, s.target, stamped), false),
                      w.limits.maxRetained);
    }
  }

  lemma OtherStep(w: World, ev: Event)
    requires Sane(w) && Enabled(w, ev) && !ev.Rotate? && !ev.Publish? && !ev.Arrive?
    ensures
      var v := Next(w, ev);
      && Lifecycle(v.store) && |v.store.findings| <= v.limits.maxFindings && v.limits == w.limits
      && (!ev.Load? ==> Advances(w.store, v.store) && v.config.incarnation >= w.config.incarnation)
  {
    hide Lifecycle, ApplyEvaluation, FlightSane, GathersAll, ComparedAt, Advances, Recovered, Applied, Passes, Serving, Step,
         IsAction;
    SameAdvances(w.store);
    match ev {
      case Finish(token, apply, refusedAt) => FinishedStore(w, token, refusedAt);
      case Act(change) => ActedStore(w.store, change);
      case Load(store) => RecoveredSound(store);
      case _ =>
    }
  }

  lemma FinishedStore(w: World, token: nat, refusedAt: nat)
    requires Sane(w) && token in w.flights && w.flights[token].compared.Some?
    ensures
      var t := Applied(w, w.flights[token], refusedAt).0;
      && Lifecycle(t) && |t.findings| <= w.limits.maxFindings && Advances(w.store, t)
      && t.baselines == w.store.baselines && t.windows == w.store.windows
  {
    hide Lifecycle, ApplyEvaluation, FlightSane, Advances;
    var f := w.flights[token];
    FlightCoherent(w, f);
    AppliedStore(w.store, OutcomeOf(f), f.compared.value.policy, f.now, w.limits.maxFindings, refusedAt);
    EqualAdvances(w.store, Applied(w, f, refusedAt).0);
  }

  lemma RecoveredSound(s: Store)
    requires Recovered(s)
    ensures Lifecycle(s)
  {
    hide Lifecycle;
  }

  lemma SameAdvances(s: Store)
    ensures Advances(s, s)
  {}

  lemma EqualAdvances(s: Store, t: Store)
    requires s.baselines == t.baselines
    ensures Advances(s, t)
  {}

  lemma StepIs(s: Store, c: Change)
    requires Lifecycle(s) && Permitted(s, c)
    ensures Lifecycle(Step(s, c)) && Advances(s, Step(s, c))
  {
    hide Lifecycle, Step, Advances, Permitted;
    StepKeepsLifecycle(s, c);
    StepAdvances(s, c);
  }

  lemma RotatedStore(s: Store, reason: Reason, now: int64)
    requires Lifecycle(s)
    ensures Lifecycle(Invalidate(s, reason, now)) && Advances(s, Invalidate(s, reason, now))
    ensures Invalidate(s, reason, now).findings == s.findings
  {
    hide Lifecycle, Advances, InvalidatedWindow;
    StepIs(s, Rotated(reason, now));
  }

  lemma CommittedStore(s: Store, d: Document, now: int64, maxTargets: nat)
    requires Lifecycle(s)
    ensures
      var t := CommitIntent(s, d, now, maxTargets);
      Lifecycle(t) && Advances(s, t) && |t.findings| == |s.findings| && t.windows == s.windows
  {
    hide Lifecycle, Advances, ScreenIntent, Rebased;
    StepIs(s, Committed(d, now, maxTargets));
    SameSize(CommitIntent(s, d, now, maxTargets).findings, s.findings);
  }

  lemma IngestedStore(s: Store, r: Retained, limit: nat)
    requires Lifecycle(s)
    ensures Lifecycle(Ingest(s, r, limit)) && Advances(s, Ingest(s, r, limit)) && Ingest(s, r, limit).findings == s.findings
  {
    hide Lifecycle, Advances, Admit;
    StepIs(s, Ingested(r, limit));
  }

  lemma ActedStore(s: Store, c: Change)
    requires Lifecycle(s) && IsAction(c)
    ensures
      var t := Step(s, c);
      && Lifecycle(t) && Advances(s, t) && |t.findings| == |s.findings|
      && t.baselines == s.baselines && t.windows == s.windows
  {
    hide Lifecycle, Advances, Step;
    StepIs(s, c);
    if c.Swept? { SweptWindows(s, c.now); } else { ActedBaselines(s, c); }
    ActedKeys(s, c);
    SameSize(Step(s, c).findings, s.findings);
  }

  lemma SweptWindows(s: Store, now: int64)
    ensures Step(s, Swept(now)) == ExpireAll(s, now)
    ensures ExpireAll(s, now).baselines == s.baselines && ExpireAll(s, now).windows == s.windows
  {
    hide Lapsed;
  }

  lemma ActedKeys(s: Store, c: Change)
    requires IsAction(c)
    ensures Step(s, c).findings.Keys == s.findings.Keys
  {
    hide ValidActor, SuppressedBy, Unsuppressed, AcknowledgedBy, AcknowledgementCleared, Lapsed;
  }

  /** Every enabled event keeps the invariant. */
  lemma SaneStep(w: World, ev: Event)
    requires Sane(w) && Enabled(w, ev)
    ensures Sane(Next(w, ev))
  {
    hide Lifecycle, Recovered, FlightSane, GathersAll, ComparedAt, Advances, ApplyEvaluation, Step, CommitIntent, Ingest,
         Invalidate, LiveVerdict;
    StoreStep(w, ev);
    var v := Next(w, ev);
    forall token | token in v.flights ensures FlightSane(v, v.flights[token]) {
      if ev.Begin? && token == ev.token {
        FlightStarts(w, ev);
      } else if ev.Compare? && token == ev.token {
        FlightCompares(w, ev);
      } else {
        assert token in w.flights;
        assert !ev.Load?;
        FlightCarries(w, v, w.flights[token]);
      }
    }
  }

  lemma FlightStarts(w: World, ev: Event)
    requires ev.Begin? && Enabled(w, ev)
    ensures FlightSane(Next(w, ev), Next(w, ev).flights[ev.token])
  {
    hide Known;
  }

  lemma FlightCompares(w: World, ev: Event)
    requires ev.Compare? && Enabled(w, ev) && FlightSane(w, w.flights[ev.token])
    ensures FlightSane(Next(w, ev), Next(w, ev).flights[ev.token])
  {
    hide Compares, BaselineBehind;
  }

  lemma FlightCarries(w: World, v: World, f: Flight)
    requires FlightSane(w, f) && Advances(w.store, v.store)
    requires v.config.incarnation >= w.config.incarnation && v.limits == w.limits
    ensures FlightSane(v, f)
  {
    hide SlotSane;
    forall i | 0 <= i < |f.inputs| ensures BaselineBehind(v.store, f.inputs[i]) {
      assert BaselineBehind(w.store, f.inputs[i]);
    }
  }

  lemma {:induction false} RunSane(w: World, events: seq<Event>)
    requires Sane(w) && Possible(w, events)
    ensures Sane(Reach(w, events))
  {
    hide Sane, Enabled, Next;
    if events != [] {
      RunSane(w, events[..|events| - 1]);
      SaneStep(Reach(w, events[..|events| - 1]), events[|events| - 1]);
    }
  }

  lemma StartSane(config: Config, limits: Limits)
    ensures Sane(World(config, limits, Store(map[], map[], map[], map[]), map[], map[], false, false, false))
  {
    EmptyLifecycle();
  }

  // ----- no ABA

  /** In every interleaving, each target whose evaluation is accepted was compared against
      exactly the baseline that is committed at that moment. */
  lemma NoAba(w: World, events: seq<Event>, token: nat, i: nat)
    requires Sane(w) && Possible(w, events)
    requires var f := Reach(w, events).flights; token in f && f[token].compared.Some? && i < |f[token].inputs|
    ensures
      var v := Reach(w, events);
      var f := v.flights[token];
      && i < |f.compared.value.evaluations|
      && var e := f.compared.value.evaluations[i];
         (e != BLANK && Accepts(v.store.baselines, e) ==> f.inputs[i].baseline == BaselineFor(v.store, e.target))
  {
    hide Lifecycle, Next, Enabled, Reach, Possible, SlotSane, Coherent;
    RunSane(w, events);
    var v := Reach(w, events);
    var f := v.flights[token];
    assert FlightSane(v, f);
    SlotFramed(v.limits.maxRefs, f.compared.value.policy, f.inputs[i], f.compared.value.evaluations[i]);
    assert BaselineBehind(v.store, f.inputs[i]);
  }

  predicate NoLoad(events: seq<Event>) {
    forall i :: 0 <= i < |events| ==> !events[i].Load?
  }

  /** Between two moments of one run a committed baseline stays the same or moves to a
      later generation, so a generation of a target only ever has one content. */
  lemma {:induction false} BaselinesOnlyAdvance(w: World, events: seq<Event>)
    requires Sane(w) && Possible(w, events) && NoLoad(events)
    ensures Advances(w.store, Reach(w, events).store)
  {
    hide Sane, Enabled, Next, Advances;
    if events == [] {
      SameAdvances(w.store);
    } else {
      var k := |events| - 1;
      BaselinesOnlyAdvance(w, events[..k]);
      RunSane(w, events[..k]);
      assert !events[k].Load?;
      StoreStep(Reach(w, events[..k]), events[k]);
      AdvancesTwice(w.store, Reach(w, events[..k]).store, Reach(w, events).store);
    }
  }

  lemma AdvancesTwice(a: Store, b: Store, c: Store)
    requires Advances(a, b) && Advances(b, c)
    ensures Advances(a, c)
  {}
}
