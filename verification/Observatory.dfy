/** The engine's locked sections as methods on its shared state. */
module Observatories {
  import opened Core
  import opened Values
  import opened Domain
  import opened Policy
  import opened Freshnesses
  import opened Sorting
  import opened Comparison
  import opened Comparator
  import opened Window
  import opened Findings
  import opened LedgerState
  import opened LedgerRuns
  import opened Ledger
  import opened Engine
  import opened EngineRuns

  class Observatory {
    const limits: Limits
    var config: Config
    var ledger: FindingLedger
    var sources: map<Text, nat>
    var flights: map<nat, Flight>
    var started: bool
    var stopping: bool
    var cancelled: bool

    function State(): World
      reads this, ledger
    {
      World(config, limits, ledger.Contents(), sources, flights, started, stopping, cancelled)
    }

    ghost predicate Valid()
      reads this, ledger
    {
      ledger.Valid() && ledger.limits == limits && Sane(State())
    }

    constructor (config: Config, limits: Limits)
      ensures Valid() && fresh(ledger)
      ensures State() == World(config, limits, Store(map[], map[], map[], map[]), map[], map[], false, false, false)
    {
      this.limits, this.config := limits, config;
      ledger := new FindingLedger(limits);
      sources, flights, started, stopping, cancelled := map[], map[], false, false, false;
      new;
      StartSane(config, limits);
    }

    method RotateIncarnation(incarnation: nat, epoch: nat, now: int64) returns (r: Result<()>)
      requires Valid()
      modifies this`config, ledger
      ensures Valid() && State() == Next(old(State()), Rotate(incarnation, epoch, now))
      ensures r.Ok? <==> RotationAllowed(old(State()), incarnation, epoch)
    {
      hide Sane, Lifecycle, Invalidate;
      SaneStep(State(), Rotate(incarnation, epoch, now));
      if incarnation == 0 { return Err(FencedStaleIncarnation); }
      if incarnation <= config.incarnation { return Err(FencedStaleIncarnation); }
      if epoch < config.epoch { return Err(FencedStaleEpoch); }
      config := config.(incarnation := incarnation, epoch := epoch);
      var _ := ledger.InvalidateRetainedEvidence(EvidenceRecoveredNotFresh, now);
      return Ok(());
    }

    method PublishIntent(d: Document, now: int64, validation: Result<()>) returns (r: Result<Commit>)
      requires Valid()
      modifies ledger
      ensures Valid() && State() == Next(old(State()), Publish(d, now, validation))
      ensures r.Ok? ==> r.value == ScreenIntent(old(State()).store, d, limits.maxTargets)
      ensures r.Ok? <==> Serving(old(State())) && d.epoch == config.epoch && validation.Ok?
    {
      hide Sane, Lifecycle, LedgerState.CommitIntent, ScreenIntent;
      SaneStep(State(), Publish(d, now, validation));
      if config.requireStarted && !started { return Err(NotStarted); }
      if d.epoch != config.epoch { return Err(FencedStaleEpoch); }
      r := ledger.CommitIntent(d, now, validation);
    }

    method IngestObservation(snapshot: Snapshot, now: int64, validation: Result<()>) returns (r: Result<Admission>)
      requires Valid()
      modifies ledger`windows, ledger`revision
      ensures Valid() && State() == Next(old(State()), Arrive(snapshot, now, validation))
      ensures r.Ok? <==> ArrivalAllowed(old(State()), snapshot, validation)
      ensures r.Ok? ==> r.value == Screen(WindowOf(old(State()).store, WindowKey(snapshot.target, snapshot.source)),
                                          Stamped(snapshot, now))
    {
      hide Sane, Lifecycle, Ingest, Screen, EvaluateFreshness, Ledger.Rising;
      SaneStep(State(), Arrive(snapshot, now, validation));
      if config.requireStarted && !started { return Err(NotStarted); }
      var stamped := snapshot.(receivedAt := now);
      if config.requireRegistered && snapshot.source !in sources { return Err(AuthorityMismatch); }
      var ttl := TtlFor(config.policy, snapshot.target, TARGET_SCOPE, []);
      var freshness := config.policy.freshness.(ttl := ttl);
      var verdict := EvaluateFreshness(stamped, freshness, now, config.epoch, false);
      r := ledger.RecordObservation(stamped, verdict, false, validation);
    }

    method SetPolicy(policy: ObservatoryPolicy, now: int64, validation: Result<()>) returns (r: Result<()>)
      requires Valid()
      modifies this`config, ledger`timeline, ledger`timelineSequence, ledger`revision
      ensures Valid() && r == validation
      ensures State() == if validation.Ok? then Next(old(State()), Event.SetPolicy(policy)) else old(State())
      ensures validation.Err? ==> ledger.timeline == old(ledger.timeline) && ledger.revision == old(ledger.revision)
      ensures validation.Ok? ==> |ledger.timeline| <= limits.maxTimeline && ledger.revision == old(ledger.revision) + 1
    {
      hide Sane, Lifecycle, Ledger.Rising;
      if validation.Err? { return validation; }
      SaneStep(State(), Event.SetPolicy(policy));
      config := config.(policy := policy);
      ledger.RecordEvent(EventUpdated, "policy", "policy", now, Open);
      return validation;
    }

    method RequestCancellation(requested: bool)
      requires Valid()
      modifies this`cancelled
      ensures Valid() && State() == Next(old(State()), Cancel(requested))
    {
      hide Sane, Lifecycle;
      SaneStep(State(), Cancel(requested));
      cancelled := requested;
    }

    /** The first locked section of an evaluation: copy every input. */
    method BeginEvaluation(token: nat, now: int64) returns (r: Result<()>)
      requires Valid() && token !in flights
      modifies this`flights
      ensures Valid()
      ensures r.Ok? <==> Serving(old(State())) && !cancelled
      ensures r.Err? ==> State() == old(State())
      ensures r.Ok? ==> exists inputs :: Enabled(old(State()), Begin(token, now, inputs))
                                         && State() == Next(old(State()), Begin(token, now, inputs))
    {
      hide Sane, Lifecycle, GathersAll;
      if config.requireStarted && !started { return Err(NotStarted); }
      if cancelled { return Err(Cancelled); }
      var inputs := BuildEvaluationInput(now);
      ghost var before := State();
      assert Enabled(before, Begin(token, now, inputs));
      SaneStep(before, Begin(token, now, inputs));
      flights := flights[token := Flight(now, config.epoch, config.incarnation, config.policy.id,
                                         config.policy.resolutionConfirmations, inputs, None)];
      assert State() == Next(before, Begin(token, now, inputs));
      return Ok(());
    }

    method BuildEvaluationInput(now: int64) returns (inputs: seq<Input>)
      ensures GathersAll(State(), now, inputs)
    {
      hide Gathers, Less;
      var windowed := set k | k in ledger.windows :: k.target;
      var known := ledger.baselines.Keys + windowed + (set t | t in config.policy.requiredTargets);
      var targets := SortedTargets(known);
      inputs := [];
      for index := 0 to |targets|
        invariant |inputs| == index
        invariant forall i :: 0 <= i < index ==> inputs[i].target == targets[i] && Gathers(State(), now, inputs[i])
      {
        var input := GatherInput(targets[index], now);
        inputs := inputs + [input];
      }
      assert forall t :: t in known <==> Known(State(), t);
      forall t | Known(State(), t) ensures exists i :: 0 <= i < |inputs| && inputs[i].target == t {
        assert t in targets;
        var i :| 0 <= i < |targets| && targets[i] == t;
        assert inputs[i].target == t;
      }
      assert forall i :: 0 <= i < |inputs| ==> targets[i] in targets;
    }

    method GatherInput(target: Text, now: int64) returns (input: Input)
      ensures input.target == target && Gathers(State(), now, input)
    {
      hide VerdictOf, Copied, FromWindow, Included;
      var baseline := if target in ledger.baselines then Some(ledger.baselines[target]) else None;
      input := Input(target, baseline, [], []);
      var ttl := TtlFor(config.policy, target, TARGET_SCOPE, []);
      var pending := set k | k in ledger.windows && k.target == target;
      while pending != {}
        invariant forall k :: k in pending ==> k in ledger.windows && k.target == target
        invariant input.target == target && input.baseline == baseline && |input.snapshots| == |input.freshness|
        invariant forall i :: 0 <= i < |input.snapshots| ==> FromWindow(State(), now, input, i)
        invariant forall k, j :: k in ledger.windows && k.target == target && k !in pending && 0 <= j < |ledger.windows[k]|
                    ==> Included(State(), now, input, k, j)
        decreases |pending|
      {
        var key :| key in pending;
        input := CopyWindow(input, key, ttl, now);
        pending := pending - {key};
      }
    }

    method CopyWindow(start: Input, key: WindowKey, ttl: int64, now: int64) returns (input: Input)
      requires key in ledger.windows && key.target == start.target && |start.snapshots| == |start.freshness|
      requires ttl == Ttl(config.policy, key.target, TARGET_SCOPE, [])
      requires forall i :: 0 <= i < |start.snapshots| ==> FromWindow(State(), now, start, i)
      ensures input.target == start.target && input.baseline == start.baseline
      ensures |input.snapshots| == |input.freshness|
      ensures forall i :: 0 <= i < |input.snapshots| ==> FromWindow(State(), now, input, i)
      ensures forall j :: 0 <= j < |ledger.windows[key]| ==> Included(State(), now, input, key, j)
      ensures forall k, j :: k in ledger.windows && 0 <= j < |ledger.windows[k]| && Included(State(), now, start, k, j)
                ==> Included(State(), now, input, k, j)
    {
      hide VerdictOf, Copied, FromWindow, Included;
      input := start;
      var window := ledger.windows[key];
      for index := 0 to |window|
        invariant input.target == start.target && input.baseline == start.baseline
        invariant |input.snapshots| == |input.freshness|
        invariant forall i :: 0 <= i < |input.snapshots| ==> FromWindow(State(), now, input, i)
        invariant forall j :: 0 <= j < index ==> Included(State(), now, input, key, j)
        invariant forall k, j :: k in ledger.windows && 0 <= j < |ledger.windows[k]| && Included(State(), now, start, k, j)
                    ==> Included(State(), now, input, k, j)
      {
        var verdict := VerdictFor(window[index], key.target, ttl, now);
        ghost var before := input;
        input := input.(snapshots := input.snapshots + [window[index].snapshot],
                        freshness := input.freshness + [verdict]);
        Grows(State(), now, before, input, key, index);
      }
    }

    method VerdictFor(r: Retained, target: Text, ttl: int64, now: int64) returns (verdict: Freshness)
      requires ttl == Ttl(config.policy, target, TARGET_SCOPE, [])
      ensures verdict == VerdictOf(config, now, target, r)
    {
      if r.recovered {
        verdict := Freshness(RecoveredNotFresh, EvidenceRecoveredNotFresh, 0, 0, false, false);
        var age := Difference(now, r.snapshot.collectedAt);
        if age.Some? { verdict := verdict.(age := age.value); }
      } else {
        verdict := EvaluateFreshness(r.snapshot, config.policy.freshness.(ttl := ttl), now, config.epoch, false);
      }
    }

    /** The unlocked part: compare every input under the policy read at its start. A slot
        in `skipped` is one a worker left because cancellation or stopping was seen. */
    method CompareInputs(token: nat, skipped: set<nat>)
      requires Valid() && token in flights && flights[token].compared.None?
      modifies this`flights
      ensures Valid()
      ensures exists evaluations :: Enabled(old(State()), Event.Compare(token, evaluations))
                                    && State() == Next(old(State()), Event.Compare(token, evaluations))
    {
      hide Sane, Lifecycle, Compares;
      var policy := config.policy;
      var inputs := flights[token].inputs;
      var evaluations: seq<Evaluation> := [];
      for index := 0 to |inputs|
        invariant |evaluations| == index
        invariant forall i :: 0 <= i < index ==> ComparedAt(State(), inputs[i], evaluations[i])
        invariant State() == old(State())
      {
        if index in skipped {
          evaluations := evaluations + [BLANK];
          continue;
        }
        var evaluation := CompareTarget(inputs[index], policy, limits.maxRefs);
        evaluations := evaluations + [evaluation];
      }
      ghost var before := State();
      assert Enabled(before, Event.Compare(token, evaluations));
      SaneStep(before, Event.Compare(token, evaluations));
      flights := flights[token := flights[token].(compared := Some(Compared(policy, evaluations)))];
      assert State() == Next(before, Event.Compare(token, evaluations));
    }

    /** The second locked section: fence, then apply. */
    method FinishEvaluation(token: nat, apply: bool, refusedAt: nat) returns (r: Result<seq<Evaluation>>)
      requires Valid() && token in flights && flights[token].compared.Some?
      modifies this`flights, ledger
      ensures Valid() && State() == Next(old(State()), Finish(token, apply, refusedAt))
      ensures r.Ok? <==> Published(old(State()), token, apply, refusedAt)
      ensures r.Ok? ==> r.value == old(flights)[token].compared.value.evaluations
    {
      hide Lifecycle, LedgerState.ApplyEvaluation, FlightSane;
      ghost var before := State();
      SaneStep(before, Finish(token, apply, refusedAt));
      FlightIsSane(before, token);
      FlightCoherent(before, flights[token]);
      var f := flights[token];
      flights := flights - {token};
      if cancelled { return Err(Cancelled); }
      if stopping || (config.requireStarted && !started) { return Err(Cancelled); }
      if f.epoch != config.epoch || f.incarnation != config.incarnation { return Err(FencedStaleEpoch); }
      if apply {
        var status := ledger.ApplyEvaluation(Outcome(f.policyId, f.confirmations, f.compared.value.evaluations),
                                             f.compared.value.policy, f.now, refusedAt);
        if status.Err? { return Err(status.reason); }
      }
      return Ok(f.compared.value.evaluations);
    }
  }

  // ----- gathering

  lemma FromGrows(w: World, now: int64, before: Input, after: Input, i: nat)
    requires |before.snapshots| == |before.freshness| && |after.snapshots| == |after.freshness|
    requires before.snapshots <= after.snapshots && before.freshness <= after.freshness && before.target == after.target
    requires i < |before.snapshots| && FromWindow(w, now, before, i)
    ensures FromWindow(w, now, after, i)
  {
    hide VerdictOf;
    var k :| k in w.store.windows && k.target == before.target &&
      exists j :: 0 <= j < |w.store.windows[k]| && Copied(w, now, before, i, k, j);
    var j :| 0 <= j < |w.store.windows[k]| && Copied(w, now, before, i, k, j);
    assert Copied(w, now, after, i, k, j);
  }

  lemma IncludedGrows(w: World, now: int64, before: Input, after: Input, k: WindowKey, j: nat)
    requires |before.snapshots| == |before.freshness| && |after.snapshots| == |after.freshness|
    requires before.snapshots <= after.snapshots && before.freshness <= after.freshness && before.target == after.target
    requires k in w.store.windows && j < |w.store.windows[k]| && Included(w, now, before, k, j)
    ensures Included(w, now, after, k, j)
  {
    hide VerdictOf;
    var i :| 0 <= i < |before.snapshots| && Copied(w, now, before, i, k, j);
    assert Copied(w, now, after, i, k, j);
  }

  lemma Grows(w: World, now: int64, before: Input, after: Input, key: WindowKey, j: nat)
    requires |before.snapshots| == |before.freshness| && key in w.store.windows && key.target == before.target
    requires j < |w.store.windows[key]|
    requires after == before.(
      snapshots := before.snapshots + [w.store.windows[key][j].snapshot],
      freshness := before.freshness + [VerdictOf(w.config, now, before.target, w.store.windows[key][j])])
    ensures FromWindow(w, now, after, |before.snapshots|) && Included(w, now, after, key, j)
    ensures forall i :: 0 <= i < |before.snapshots| && FromWindow(w, now, before, i) ==> FromWindow(w, now, after, i)
    ensures forall k, l :: k in w.store.windows && 0 <= l < |w.store.windows[k]| && Included(w, now, before, k, l)
              ==> Included(w, now, after, k, l)
  {
    hide VerdictOf, FromWindow, Included;
    Added(w, now, before, after, key, j);
    forall i | 0 <= i < |before.snapshots| && FromWindow(w, now, before, i) ensures FromWindow(w, now, after, i) {
      FromGrows(w, now, before, after, i);
    }
    forall k, l | k in w.store.windows && 0 <= l < |w.store.windows[k]| && Included(w, now, before, k, l)
      ensures Included(w, now, after, k, l)
    {
      IncludedGrows(w, now, before, after, k, l);
    }
  }

  lemma Added(w: World, now: int64, before: Input, after: Input, key: WindowKey, j: nat)
    requires |before.snapshots| == |before.freshness| && key in w.store.windows && key.target == before.target
    requires j < |w.store.windows[key]|
    requires after == before.(
      snapshots := before.snapshots + [w.store.windows[key][j].snapshot],
      freshness := before.freshness + [VerdictOf(w.config, now, before.target, w.store.windows[key][j])])
    ensures FromWindow(w, now, after, |before.snapshots|) && Included(w, now, after, key, j)
  {
    hide VerdictOf;
    assert Copied(w, now, after, |before.snapshots|, key, j);
  }

  lemma LessIsWeak()
    ensures StrictWeak(Less)
  {
    hide Less;
    forall a: Text, b: Text ensures Less(a, b) ==> !Less(b, a) { LessWeak(a, b, a); }
    forall a: Text, b: Text, c: Text | !Less(b, a) && !Less(c, b) ensures !Less(c, a) { LessWeak(a, b, c); }
  }

  /** The members of a set in lexicographic order, each once. */
  method SortedTargets(known: set<Text>) returns (targets: seq<Text>)
    ensures forall t :: t in targets <==> t in known
    ensures forall i, j :: 0 <= i < j < |targets| ==> Less(targets[i], targets[j])
  {
    hide Less, StrictWeak, Ordered;
    var pending := known;
    var listed: seq<Text> := [];
    while pending != {}
      invariant pending <= known && forall t :: t in listed <==> t in known - pending
      invariant forall i, j :: 0 <= i < j < |listed| ==> listed[i] != listed[j]
      decreases |pending|
    {
      var t :| t in pending;
      pending := pending - {t};
      listed := listed + [t];
    }
    LessIsWeak();
    targets := Sort(Less, listed);
    SortedDistinct(listed, targets);
  }

  lemma SortedDistinct(listed: seq<Text>, targets: seq<Text>)
    requires multiset(targets) == multiset(listed) && Ordered(Less, targets)
    requires forall i, j :: 0 <= i < j < |listed| ==> listed[i] != listed[j]
    ensures forall t :: t in targets <==> t in listed
    ensures forall i, j :: 0 <= i < j < |targets| ==> Less(targets[i], targets[j])
  {
    hide Less;
    forall t ensures t in targets <==> t in listed {
      assert t in targets <==> t in multiset(targets);
      assert t in listed <==> t in multiset(listed);
    }
    forall i, j | 0 <= i < j < |targets| ensures Less(targets[i], targets[j]) {
      if targets[i] == targets[j] {
        CountTwice(targets, i, j);
        CountOnce(listed, targets[i]);
      }
      LessTotal(targets[i], targets[j]);
    }
  }
}
