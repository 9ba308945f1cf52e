/** When the outcome of an evaluation leaves the engine, and what the other steps may change,
    over whole runs. */
module EngineFences {
  import opened Core
  import opened Values
  import opened Domain
  import opened Policy
  import opened Freshnesses
  import opened Comparison
  import opened Findings
  import opened Window
  import opened LedgerState
  import opened LedgerRuns
  import opened Engine
  import opened EngineRuns

  // ----- a finish that must not leave a trace

  /** Finishing the evaluation now neither returns it nor changes the ledger. */
  predicate Dropped(v: World, token: nat, apply: bool, refusedAt: nat) {
    && !Published(v, token, apply, refusedAt)
    && Next(v, Finish(token, apply, refusedAt)).store == v.store
  }

  predicate NoneFrom(events: seq<Event>, k: nat, barred: Event -> bool) {
    forall i :: k <= i < |events| ==> !barred(events[i])
  }

  predicate Starts(ev: Event) { ev.Start? }

  predicate Resumes(ev: Event) { ev.Start? || (ev.Cancel? && !ev.requested) }

  lemma {:induction false} StaysCancelled(w: World, events: seq<Event>, k: nat)
    requires k < |events| && events[k] == Cancel(true) && NoneFrom(events, k + 1, Resumes)
    ensures Reach(w, events).cancelled
    decreases |events|
  {
    hide Applied, Passes, Serving, ArrivalAllowed, RotationAllowed, LiveVerdict, Step;
    var last := |events| - 1;
    if k < last {
      assert !Resumes(events[last]);
      StaysCancelled(w, events[..last], k);
    }
  }

  /** After a cancellation, until the engine starts or the request is withdrawn, no evaluation
      is published or applied, whatever else happens in between. */
  lemma CancelledIsDropped(w: World, events: seq<Event>, k: nat, token: nat, apply: bool, refusedAt: nat)
    requires k < |events| && events[k] == Cancel(true) && NoneFrom(events, k + 1, Resumes)
    ensures Dropped(Reach(w, events), token, apply, refusedAt)
  {
    hide Reach, Applied, Serving;
    StaysCancelled(w, events, k);
  }

  lemma {:induction false} StaysStopped(w: World, events: seq<Event>, k: nat)
    requires k < |events| && events[k].Stop? && NoneFrom(events, k + 1, Starts)
    ensures Reach(w, events).stopping && !Reach(w, events).started
    decreases |events|
  {
    hide Applied, Passes, Serving, ArrivalAllowed, RotationAllowed, LiveVerdict, Step;
    var last := |events| - 1;
    if k < last {
      assert !Starts(events[last]);
      StaysStopped(w, events[..last], k);
    }
  }

  /** After a stop the same holds until the engine starts. */
  lemma StoppedIsDropped(w: World, events: seq<Event>, k: nat, token: nat, apply: bool, refusedAt: nat)
    requires k < |events| && events[k].Stop? && NoneFrom(events, k + 1, Starts)
    ensures Dropped(Reach(w, events), token, apply, refusedAt)
  {
    hide Reach, Applied, Serving;
    StaysStopped(w, events, k);
  }

  // ----- incarnation and epoch

  /** Exactly a later incarnation at no earlier epoch is taken, and nothing else moves either. */
  lemma FencesMove(w: World, ev: Event)
    ensures
      var c, d := w.config, Next(w, ev).config;
      if ev.Rotate? && ev.incarnation > c.incarnation && ev.epoch >= c.epoch
      then d.incarnation == ev.incarnation && d.epoch == ev.epoch
      else d.incarnation == c.incarnation && d.epoch == c.epoch
    ensures Next(w, ev).config.requireStarted == w.config.requireStarted
    ensures Next(w, ev).config.requireRegistered == w.config.requireRegistered && Next(w, ev).limits == w.limits
  {
    hide Applied, Passes, Serving, ArrivalAllowed, LiveVerdict, Step, Invalidate, CommitIntent, Ingest;
  }

  lemma {:induction false} FencesRise(w: World, events: seq<Event>)
    ensures
      var c, d := w.config, Reach(w, events).config;
      d.incarnation >= c.incarnation && d.epoch >= c.epoch && Reach(w, events).limits == w.limits
    ensures Reach(w, events).config.requireStarted == w.config.requireStarted
    ensures
      var c, d := w.config, Reach(w, events).config;
      d.incarnation == c.incarnation ==> d.epoch == c.epoch
  {
    hide Next;
    if events != [] {
      FencesRise(w, events[..|events| - 1]);
      FencesMove(Reach(w, events[..|events| - 1]), events[|events| - 1]);
    }
  }

  function Ends(token: nat): Event -> bool {
    (ev: Event) => (ev.Begin? && ev.token == token) || (ev.Finish? && ev.token == token)
  }

  /** The evaluation in flight is the one begun then. */
  predicate SameFlight(f: Flight, g: Flight) { g == f.(compared := g.compared) }

  lemma FlightStays(u: World, ev: Event, token: nat)
    requires token in u.flights && !Ends(token)(ev)
    ensures token in Next(u, ev).flights && SameFlight(u.flights[token], Next(u, ev).flights[token])
  {
    hide Applied, Passes, Serving, ArrivalAllowed, RotationAllowed, LiveVerdict, Step, Invalidate, CommitIntent, Ingest;
  }

  lemma {:induction false} StillInFlight(w: World, events: seq<Event>, token: nat)
    requires token in w.flights && NoneFrom(events, 0, Ends(token))
    ensures token in Reach(w, events).flights && SameFlight(w.flights[token], Reach(w, events).flights[token])
  {
    hide Next, Ends;
    if events != [] {
      var last := |events| - 1;
      StillInFlight(w, events[..last], token);
      FlightStays(Reach(w, events[..last]), events[last], token);
    }
  }

  /** An evaluation begun before an accepted rotation is never published after it. */
  lemma RotatedIsDropped(w: World, before: seq<Event>, rotate: Event, after: seq<Event>, token: nat, apply: bool,
                         refusedAt: nat)
    requires Sane(w) && Possible(w, before) && token in Reach(w, before).flights
    requires rotate.Rotate? && rotate.incarnation > Reach(w, before).config.incarnation
    requires rotate.epoch >= Reach(w, before).config.epoch && NoneFrom(after, 0, Ends(token))
    ensures Dropped(Reach(Reach(w, before + [rotate]), after), token, apply, refusedAt)
  {
    hide Reach, Applied, Serving, Possible, Lifecycle, Invalidate, Next, NoneFrom;
    RunSane(w, before);
    var u := Reach(w, before);
    FlightIsSane(u, token);
    FencesMove(u, rotate);
    ReachOne(w, before, rotate);
    RotateKeepsFlights(u, rotate);
    StillInFlight(Reach(w, before + [rotate]), after, token);
    FencesRise(Reach(w, before + [rotate]), after);
    FinishDropped(Reach(Reach(w, before + [rotate]), after), token, apply, refusedAt);
  }

  lemma ReachOne(w: World, before: seq<Event>, ev: Event)
    ensures Reach(w, before + [ev]) == Next(Reach(w, before), ev)
  {
    hide Next;
    assert (before + [ev])[..|before|] == before;
  }

  lemma RotateKeepsFlights(w: World, ev: Event)
    requires ev.Rotate?
    ensures Next(w, ev).flights == w.flights
  {
    hide Invalidate;
  }

  lemma FinishDropped(v: World, token: nat, apply: bool, refusedAt: nat)
    requires token in v.flights && v.flights[token].incarnation != v.config.incarnation
    ensures Dropped(v, token, apply, refusedAt)
  {
    hide Applied, Serving;
  }

  // ----- and one that must

  /** Exactly when a finishing evaluation is published, and what is then in the ledger. */
  lemma PublishedExactly(v: World, token: nat, apply: bool, refusedAt: nat)
    requires token in v.flights && v.flights[token].compared.Some?
    ensures
      var f := v.flights[token];
      var free := && !v.cancelled && !v.stopping && (v.config.requireStarted ==> v.started)
                  && f.epoch == v.config.epoch && f.incarnation == v.config.incarnation;
      var r := LedgerState.ApplyEvaluation(v.store, Outcome(f.policyId, f.confirmations, f.compared.value.evaluations),
                                           f.compared.value.policy, f.now, v.limits.maxFindings, refusedAt);
      && (Published(v, token, apply, refusedAt) <==> free && (apply ==> r.1.Ok?))
      && Next(v, Finish(token, apply, refusedAt)).store == (if free && apply then r.0 else v.store)
      && Next(v, Finish(token, apply, refusedAt)).flights == v.flights - {token}
  {
    hide LedgerState.ApplyEvaluation;
  }

  predicate Moves(ev: Event) { ev.Rotate? || ev.Stop? || ev.Cancel? }

  lemma {:induction false} NothingMoved(w: World, events: seq<Event>)
    requires NoneFrom(events, 0, Moves) && !w.cancelled
    ensures
      var v := Reach(w, events);
      && !v.cancelled && (w.started ==> v.started) && v.config.epoch == w.config.epoch && v.limits == w.limits
      && v.config.incarnation == w.config.incarnation && v.config.requireStarted == w.config.requireStarted
      && (!w.stopping ==> !v.stopping)
  {
    hide Applied, Passes, Serving, ArrivalAllowed, LiveVerdict, Step, Invalidate, CommitIntent, Ingest;
    if events != [] {
      var last := |events| - 1;
      assert !Moves(events[last]);
      NothingMoved(w, events[..last]);
      FencesMove(Reach(w, events[..last]), events[last]);
    }
  }

  /** An evaluation that began on an engine not being stopped, and saw no rotation, stop or
      cancellation since, is published when it is not to be applied or fits the envelopes. */
  lemma UndisturbedIsPublished(w: World, before: seq<Event>, begin: Event, after: seq<Event>, token: nat, apply: bool,
                               refusedAt: nat)
    requires begin.Begin? && begin.token == token && Enabled(Reach(w, before), begin) && !Reach(w, before).stopping
    requires NoneFrom(after, 0, Ends(token)) && NoneFrom(after, 0, Moves)
    requires
      var v := Reach(Reach(w, before + [begin]), after);
      token in v.flights && v.flights[token].compared.Some?
      && (apply ==> Applied(v, v.flights[token], refusedAt).1.Ok?)
    ensures Published(Reach(Reach(w, before + [begin]), after), token, apply, refusedAt)
  {
    hide Reach, GathersAll, LedgerState.ApplyEvaluation, NoneFrom;
    var u := Reach(w, before);
    ReachOne(w, before, begin);
    var b := Reach(w, before + [begin]);
    BeginsServing(u, begin);
    StillInFlight(b, after, token);
    NothingMoved(b, after);
    PublishedExactly(Reach(b, after), token, apply, refusedAt);
  }

  lemma BeginsServing(u: World, begin: Event)
    requires begin.Begin? && Enabled(u, begin) && !u.stopping
    ensures
      var b := Next(u, begin);
      && begin.token in b.flights && !b.cancelled && !b.stopping && (b.config.requireStarted ==> b.started)
      && b.flights[begin.token].epoch == b.config.epoch && b.flights[begin.token].incarnation == b.config.incarnation
  {
    hide GathersAll;
  }

  // ----- what the other steps may change

  predicate NotServing(w: World) { w.config.requireStarted && !w.started }

  predicate Unregistered(w: World, s: Snapshot) { w.config.requireRegistered && s.source !in w.sources }

  /** A publication changes nothing unless the engine serves, the document is of its epoch and it
      is valid; an arrival nothing unless the engine serves, the source is registered where that
      is asked for, and it is valid. No evaluation begins while the engine does not serve. */
  lemma RefusedAtTheDoor(w: World, ev: Event)
    requires ev.Publish? || ev.Arrive? || ev.Begin?
    ensures ev.Publish? && (NotServing(w) || ev.document.epoch != w.config.epoch || ev.validation.Err?) ==> Next(w, ev) == w
    ensures ev.Arrive? && (NotServing(w) || Unregistered(w, ev.snapshot) || ev.validation.Err?) ==> Next(w, ev) == w
    ensures ev.Begin? && Enabled(w, ev) ==> !w.cancelled && !NotServing(w)
  {
    hide GathersAll, LiveVerdict;
  }

  predicate WithinEpoch(w: World) {
    forall t :: t in w.store.baselines ==> w.store.baselines[t].epoch <= w.config.epoch
  }

  /** Unless a ledger is loaded, every committed baseline is of an epoch the engine has reached. */
  lemma {:induction false} BaselinesWithinEpoch(w: World, events: seq<Event>)
    requires Sane(w) && Possible(w, events) && NoLoad(events) && WithinEpoch(w)
    ensures WithinEpoch(Reach(w, events))
  {
    hide Sane, Enabled, Next, WithinEpoch;
    if events != [] {
      var k := |events| - 1;
      BaselinesWithinEpoch(w, events[..k]);
      RunSane(w, events[..k]);
      assert !events[k].Load?;
      EpochStep(Reach(w, events[..k]), events[k]);
    }
  }

  lemma EpochStep(w: World, ev: Event)
    requires Sane(w) && Enabled(w, ev) && !ev.Load? && WithinEpoch(w)
    ensures WithinEpoch(Next(w, ev))
  {
    hide Sane, Enabled, LedgerState.ApplyEvaluation, RebaseAll, Admit, LiveVerdict, Step, Invalidate, ScreenIntent, Applied,
         Passes;
    FencesMove(w, ev);
    match ev {
      case Rotate(_, _, now) => InvalidatedBaselines(w.store, EvidenceRecoveredNotFresh, now);
      case Finish(token, apply, refusedAt) =>
        if token in w.flights && w.flights[token].compared.Some? { FinishedStore(w, token, refusedAt); }
      case Act(change) => if IsAction(change) { ActedBaselinesOnly(w, change); }
      case _ =>
    }
  }

  lemma ActedBaselinesOnly(w: World, change: Change)
    requires Sane(w) && IsAction(change)
    ensures Step(w.store, change).baselines == w.store.baselines
  {
    hide Step, Lifecycle;
    ActedStore(w.store, change);
  }

  lemma {:induction false} SourcesRise(w: World, events: seq<Event>)
    ensures forall s :: s in w.sources ==> s in Reach(w, events).sources && Reach(w, events).sources[s] >= w.sources[s]
  {
    hide Applied, Passes, Serving, ArrivalAllowed, LiveVerdict, Step, RotationAllowed;
    if events != [] { SourcesRise(w, events[..|events| - 1]); }
  }

  /** Evidence copied into an evaluation supports a conclusion only if it was not recovered, is of
      the engine's epoch, and is within the lifetime that the policy gives its target. */
  lemma GatheredUsable(w: World, now: int64, input: Input, i: nat)
    requires Gathers(w, now, input) && i < |input.snapshots| && input.freshness[i].maySupportCompliance
    ensures
      var s := input.snapshots[i];
      var lifetime := Ttl(w.config.policy, input.target, "@target", []);
      && s.collectedAt != 0 && (w.config.epoch == 0 || s.epoch == w.config.epoch)
      && -w.config.policy.freshness.maxClockSkew <= now - s.collectedAt <= lifetime
      && (s.ttl > 0 ==> now - s.collectedAt <= s.ttl)
      && exists k, j :: IsLiveRecord(w.store, k, j, input.target, s)
  {
    hide EvaluateFreshness, Included, Ttl;
    assert FromWindow(w, now, input, i);
    var k :| k in w.store.windows && k.target == input.target &&
      exists j :: 0 <= j < |w.store.windows[k]| && Copied(w, now, input, i, k, j);
    var j :| 0 <= j < |w.store.windows[k]| && Copied(w, now, input, i, k, j);
    var lifetime := Ttl(w.config.policy, input.target, TARGET_SCOPE, []);
    UsableMeans(input.snapshots[i], w.config.policy.freshness.(ttl := lifetime), now, w.config.epoch, false);
    assert IsLiveRecord(w.store, k, j, input.target, input.snapshots[i]);
  }

  predicate IsLiveRecord(s: Store, k: WindowKey, j: nat, target: Text, snapshot: Snapshot) {
    && k in s.windows && k.target == target && j < |s.windows[k]|
    && s.windows[k][j].snapshot == snapshot && !s.windows[k][j].recovered
  }

  /** And every retained observation of the target is copied, with the verdict that it supports a
      conclusion exactly when it is live, of the epoch, dated, and within its lifetime on each clock. */
  lemma RetainedIsGathered(w: World, now: int64, input: Input, k: WindowKey, j: nat) returns (i: nat)
    requires Gathers(w, now, input) && k in w.store.windows && k.target == input.target && j < |w.store.windows[k]|
    ensures i < |input.snapshots| == |input.freshness| && input.snapshots[i] == w.store.windows[k][j].snapshot
    ensures
      var r, s, f := w.store.windows[k][j], input.snapshots[i], w.config.policy.freshness;
      var given := Ttl(w.config.policy, input.target, "@target", []);
      var lifetime := if 0 < s.ttl < given then s.ttl else given;
      input.freshness[i].maySupportCompliance <==>
        && !r.recovered && s.collectedAt != 0 && (w.config.epoch == 0 || s.epoch == w.config.epoch) && 0 < lifetime
        && InRange(now - s.collectedAt) && -f.maxClockSkew <= now - s.collectedAt <= lifetime
        && (f.ttlAppliesToReceiveTime && s.receivedAt != 0
            ==> InRange(now - s.receivedAt) && now - s.receivedAt <= lifetime)
  {
    hide EvaluateFreshness, FromWindow, Ttl;
    assert Included(w, now, input, k, j);
    i :| 0 <= i < |input.snapshots| && Copied(w, now, input, i, k, j);
    var r, given := w.store.windows[k][j], Ttl(w.config.policy, input.target, TARGET_SCOPE, []);
    UsableMeans(r.snapshot, w.config.policy.freshness.(ttl := given), now, w.config.epoch, false);
  }
}
