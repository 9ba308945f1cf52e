/** What a published evaluation says about the ledger it came from. */
module EngineResults {
  import opened Core
  import opened Values
  import opened Domain
  import opened Policy
  import opened Comparison
  import opened Compliance
  import opened DraftIdentity
  import opened Budget
  import opened Findings
  import opened Window
  import opened LedgerState
  import opened LedgerRuns
  import opened Engine
  import opened EngineRuns

  // ----- a compliant verdict is true of the baseline committed when it is applied

  ghost predicate CompliesBy(policy: ObservatoryPolicy, input: Input, baseline: Baseline, views: seq<View>)
    requires |input.snapshots| == |input.freshness|
  {
    && Comparison.Current(Views(input, policy), views) && AnyUsable(views)
    && Complies(policy, input.target, baseline, views)
  }

  lemma ComparedCompliant(input: Input, policy: ObservatoryPolicy, maxRefs: nat, e: Evaluation)
    requires Compares(input, policy, maxRefs, e) && e.compliant
    ensures |input.snapshots| == |input.freshness| && input.baseline.Some?
    ensures exists views :: CompliesBy(policy, input, input.baseline.value, views)
  {
    hide Comparison.Current, Views, Conclude, AnyUsable, Complies;
    if |input.snapshots| == |input.freshness| {
      var views :| Comparison.Current(Views(input, policy), views)
                   && e == Conclude(input.target, input.baseline, policy, maxRefs, views);
      if input.baseline.None? || !AnyUsable(views) {
        UndecidedWithoutEvidence(input.target, input.baseline, policy, maxRefs, views);
      } else {
        CompliantMeans(input.target, input.baseline.value, policy, maxRefs, views);
        assert CompliesBy(policy, input, input.baseline.value, views);
      }
    }
  }

  /** In every interleaving: if a finishing evaluation calls an accepted target compliant,
      the target agrees, object by object and field by field, with the baseline that is
      committed at that moment, as seen through usable evidence. */
  lemma CompliantIsCurrent(w: World, events: seq<Event>, token: nat, i: nat)
    requires Sane(w) && Possible(w, events)
    requires var f := Reach(w, events).flights; token in f && f[token].compared.Some? && i < |f[token].inputs|
    ensures
      var v := Reach(w, events);
      var f := v.flights[token];
      && i < |f.compared.value.evaluations|
      && var e := f.compared.value.evaluations[i];
         (e.compliant && Accepts(v.store.baselines, e) ==>
            && e.target in v.store.baselines && |f.inputs[i].snapshots| == |f.inputs[i].freshness|
            && f.inputs[i].target == e.target
            && exists views :: CompliesBy(f.compared.value.policy, f.inputs[i], v.store.baselines[e.target], views))
  {
    hide Next, Enabled, Reach, Possible, Compares, CompliesBy, Lifecycle, Accepts, Framing;
    RunSane(w, events);
    var v := Reach(w, events);
    var f := v.flights[token];
    FlightIsSane(v, token);
    NoAba(w, events, token, i);
    var e := f.compared.value.evaluations[i];
    if e.compliant && Accepts(v.store.baselines, e) {
      assert SlotSane(v.limits.maxRefs, f.compared.value.policy, f.inputs[i], e);
      ComparedCompliant(f.inputs[i], f.compared.value.policy, v.limits.maxRefs, e);
      ComparesFramed(f.inputs[i], f.compared.value.policy, v.limits.maxRefs, e);
      FramedTarget(f.inputs[i], e);
    }
  }

  lemma FramedTarget(input: Input, e: Evaluation)
    requires Framing(input, e)
    ensures e.target == input.target
  {}

  // ----- one ledger state, one outcome

  lemma WindowNewest(key: WindowKey, w: seq<Retained>, i: nat)
    requires WindowKept(key, w) && i < |w|
    ensures i == |w| - 1 || Newer(w[|w| - 1].snapshot, w[i].snapshot)
  {}

  lemma CopiedView(w: World, now: int64, input: Input, policy: ObservatoryPolicy, i: nat, k: WindowKey, j: nat)
    requires |input.snapshots| == |input.freshness| && i < |input.snapshots|
    requires k in w.store.windows && j < |w.store.windows[k]| && Copied(w, now, input, i, k, j)
    requires WindowKept(k, w.store.windows[k])
    ensures
      var r := w.store.windows[k][j];
      && Views(input, policy)[i] == ViewOf(r.snapshot, VerdictOf(w.config, now, input.target, r), policy)
      && Views(input, policy)[i].snapshot.source == k.source
  {
    hide VerdictOf;
  }

  lemma Origin(w: World, now: int64, input: Input, i: nat) returns (k: WindowKey, j: nat)
    requires Gathers(w, now, input) && i < |input.snapshots|
    ensures k in w.store.windows && k.target == input.target && j < |w.store.windows[k]| && Copied(w, now, input, i, k, j)
  {
    hide Copied, Included;
    assert FromWindow(w, now, input, i);
    k :| k in w.store.windows && k.target == input.target &&
      exists j :: 0 <= j < |w.store.windows[k]| && Copied(w, now, input, i, k, j);
    j :| 0 <= j < |w.store.windows[k]| && Copied(w, now, input, i, k, j);
  }

  lemma Place(w: World, now: int64, input: Input, k: WindowKey, j: nat) returns (i: nat)
    requires Gathers(w, now, input) && k in w.store.windows && k.target == input.target && j < |w.store.windows[k]|
    ensures i < |input.snapshots| && Copied(w, now, input, i, k, j)
  {
    hide Copied, FromWindow;
    assert Included(w, now, input, k, j);
    i :| 0 <= i < |input.snapshots| && Copied(w, now, input, i, k, j);
  }

  predicate WindowsKept(s: Store) {
    forall k :: k in s.windows ==> WindowKept(k, s.windows[k])
  }

  lemma IsNewestOf(w: World, now: int64, input: Input, policy: ObservatoryPolicy, k: WindowKey, n: nat)
    requires Gathers(w, now, input) && WindowsKept(w.store)
    requires k in w.store.windows && k.target == input.target && w.store.windows[k] != []
    requires n < |input.snapshots| && Copied(w, now, input, n, k, |w.store.windows[k]| - 1)
    ensures IsNewest(Views(input, policy), Views(input, policy)[n])
  {
    hide Gathers, WindowKept, Views, ViewOf, VerdictOf, Copied, Newer;
    GathersLengths(w, now, input);
    ViewCount(w, now, input, policy);
    var views := Views(input, policy);
    var last := |w.store.windows[k]| - 1;
    CopiedView(w, now, input, policy, n, k, last);
    forall m | 0 <= m < |views| && views[m].SameSource(views[n])
      ensures views[m] == views[n] || Newer(views[n].snapshot, views[m].snapshot)
    {
      var l, j := Origin(w, now, input, m);
      CopiedView(w, now, input, policy, m, l, j);
      assert l == k;
      WindowNewest(k, w.store.windows[k], j);
      ViewSnapshot(w.store.windows[k][j].snapshot, VerdictOf(w.config, now, input.target, w.store.windows[k][j]), policy);
      ViewSnapshot(w.store.windows[k][last].snapshot, VerdictOf(w.config, now, input.target, w.store.windows[k][last]),
                   policy);
    }
  }

  lemma GathersLengths(w: World, now: int64, input: Input)
    requires Gathers(w, now, input)
    ensures |input.snapshots| == |input.freshness|
  {}

  lemma ViewCount(w: World, now: int64, input: Input, policy: ObservatoryPolicy)
    requires Gathers(w, now, input)
    ensures |Views(input, policy)| == |input.snapshots|
  {}

  lemma ViewSnapshot(s: Snapshot, v: Freshness, policy: ObservatoryPolicy)
    ensures ViewOf(s, v, policy).snapshot == s
  {}

  /** Every window the ledger can reach has one strictly newest record, so the comparison's
      precondition always holds, duplicates among the older records notwithstanding. */
  lemma GatheredStrictNewest(w: World, now: int64, input: Input, policy: ObservatoryPolicy)
    requires Lifecycle(w.store) && Gathers(w, now, input)
    ensures StrictNewest(Views(input, policy))
  {
    hide Gathers, WindowKept, Views, VerdictOf, Copied, IsNewest, ViewOf, Kept, BaselineKept;
    assert WindowsKept(w.store);
    GathersLengths(w, now, input);
    ViewCount(w, now, input, policy);
    var views := Views(input, policy);
    forall i | 0 <= i < |views| ensures HasNewest(views, views[i]) {
      var k, j := Origin(w, now, input, i);
      CopiedView(w, now, input, policy, i, k, j);
      var last := |w.store.windows[k]| - 1;
      var n := Place(w, now, input, k, last);
      CopiedView(w, now, input, policy, n, k, last);
      IsNewestOf(w, now, input, policy, k, n);
    }
  }

  lemma GatheredAlike(w: World, now: int64, a: Input, b: Input)
    requires Gathers(w, now, a) && Gathers(w, now, b) && a.target == b.target
    ensures SubEvidence(a, b)
  {
    hide Gathers, VerdictOf;
    GathersLengths(w, now, a);
    GathersLengths(w, now, b);
    forall i | 0 <= i < |a.snapshots| ensures Supplied(a.snapshots[i], a.freshness[i], b) {
      var k, j := Origin(w, now, a, i);
      var n := Place(w, now, b, k, j);
    }
  }

  /** Evaluating the same ledger contents with the same clock reading and policy yields the
      same evaluation of each target, however the observations were gathered and sorted. */
  lemma EvaluationIsDetermined(w: World, now: int64, a: Input, b: Input, policy: ObservatoryPolicy, maxRefs: nat,
                               r: Evaluation, s: Evaluation)
    requires Lifecycle(w.store) && Gathers(w, now, a) && Gathers(w, now, b) && a.target == b.target
    requires Compares(a, policy, maxRefs, r) && Compares(b, policy, maxRefs, s)
    ensures r == s
  {
    hide Lifecycle, SubEvidence, StrictNewest, Compares, Views;
    GatheredStrictNewest(w, now, a, policy);
    GatheredAlike(w, now, a, b);
    GatheredAlike(w, now, b, a);
    OrderIrrelevant(a, b, policy, maxRefs, r, s);
  }

  // ----- the count made before an application is exact

  lemma ComparedDistinct(input: Input, policy: ObservatoryPolicy, maxRefs: nat, e: Evaluation)
    requires Compares(input, policy, maxRefs, e)
    ensures DistinctIds(e.drafts)
  {
    hide Conclude, Views, Comparison.Current;
    if |input.snapshots| == |input.freshness| {
      var views :| Comparison.Current(Views(input, policy), views)
                   && e == Conclude(input.target, input.baseline, policy, maxRefs, views);
      ChosenDistinct(input, policy, views);
      EvaluationDistinct(input.target, input.baseline, policy, maxRefs, views);
    }
  }

  lemma ChosenDistinct(input: Input, policy: ObservatoryPolicy, views: seq<View>)
    requires |input.snapshots| == |input.freshness| && Comparison.Current(Views(input, policy), views)
    ensures DistinctSources(views)
  {
    hide Views, Within, ViewLess, Represented;
  }

  lemma FlightDistinct(w: World, f: Flight)
    requires FlightSane(w, f) && f.compared.Some?
    ensures DistinctTargets(f.compared.value.evaluations) && DistinctDrafts(f.compared.value.evaluations)
  {
    hide Compares, Coherent, BaselineBehind, Less, Framing, DistinctIds;
    var es, p := f.compared.value.evaluations, f.compared.value.policy;
    forall i | 0 <= i < |es| ensures DistinctIds(es[i].drafts) && Coherent(es[i]) {
      assert SlotSane(w.limits.maxRefs, p, f.inputs[i], es[i]);
      SlotFramed(w.limits.maxRefs, p, f.inputs[i], es[i]);
      if es[i] == BLANK { NoDraftsDistinct(es[i]); } else { ComparedDistinct(f.inputs[i], p, w.limits.maxRefs, es[i]); }
    }
    forall i, j | 0 <= i < j < |es| && es[i].drafts != [] && es[j].drafts != [] ensures es[i].target != es[j].target {
      assert SlotSane(w.limits.maxRefs, p, f.inputs[i], es[i]) && SlotSane(w.limits.maxRefs, p, f.inputs[j], es[j]);
      ComparesFramed(f.inputs[i], p, w.limits.maxRefs, es[i]);
      ComparesFramed(f.inputs[j], p, w.limits.maxRefs, es[j]);
      FramedTarget(f.inputs[i], es[i]);
      FramedTarget(f.inputs[j], es[j]);
      LessStrict(f.inputs[i].target, f.inputs[j].target);
    }
  }

  lemma NoDraftsDistinct(e: Evaluation)
    requires e.drafts == []
    ensures DistinctIds(e.drafts)
  {}

  /** In every run the number of findings an applied evaluation creates is the number phase
      one counted before changing anything, and the envelope holds at every moment. */
  lemma ApplicationIsExact(w: World, events: seq<Event>, token: nat, refusedAt: nat)
    requires Sane(w) && Possible(w, events)
    requires var f := Reach(w, events).flights; token in f && f[token].compared.Some?
    ensures
      var v := Reach(w, events);
      var f := v.flights[token];
      var r := Applied(v, f, refusedAt);
      && |v.store.findings| <= v.limits.maxFindings && |r.0.findings| <= v.limits.maxFindings
      && (r.1.Ok? ==> |r.0.findings| == |v.store.findings| + NewFindings(v.store, f.compared.value.evaluations))
      && (r.1 == Err(LimitFindingsExceeded) ==> r.0 == v.store)
  {
    hide Next, Enabled, Reach, Possible, Lifecycle, ApplyEvaluation, NewFindings, FlightSane,
         DistinctTargets, DistinctDrafts;
    RunSane(w, events);
    var v := Reach(w, events);
    var f := v.flights[token];
    FlightIsSane(v, token);
    FlightDistinct(v, f);
    FindingBudget(v.store, OutcomeOf(f), f.compared.value.policy, f.now, v.limits.maxFindings, refusedAt);
  }

  // ----- an engine run is a ledger history

  /** The ledger changes one event makes. */
  function ChangesIn(w: World, ev: Event): seq<Change> {
    match ev
    case Rotate(incarnation, epoch, now) =>
      if RotationAllowed(w, incarnation, epoch) then [Rotated(EvidenceRecoveredNotFresh, now)] else []
    case Publish(d, now, validation) =>
      if !Serving(w) || d.epoch != w.config.epoch || validation.Err? then [] else [Committed(d, now, w.limits.maxTargets)]
    case Arrive(s, now, validation) =>
      if !ArrivalAllowed(w, s, validation) then []
      else
        var stamped := Stamped(s, now);
        [Ingested(Retained(stamped, LiveVerdict(w.config, now, s.target, stamped), false), w.limits.maxRetained)]
    case Finish(token, apply, refusedAt) =>
      if token !in w.flights || w.flights[token].compared.None? || !apply || !Passes(w, w.flights[token]) then []
      else
        var f := w.flights[token];
        ApplyChanges(w.store, OutcomeOf(f), f.compared.value.policy, f.now, w.limits.maxFindings, refusedAt)
    case Act(change) => if IsAction(change) then [change] else []
    case _ => []
  }

  function History(w: World, events: seq<Event>): seq<Change> {
    if events == [] then []
    else History(w, events[..|events| - 1]) + ChangesIn(Reach(w, events[..|events| - 1]), events[|events| - 1])
  }

  lemma {:induction false} RunTwice(s: Store, a: seq<Change>, b: seq<Change>)
    ensures LedgerRuns.Run(s, a + b) == LedgerRuns.Run(LedgerRuns.Run(s, a), b)
    ensures Allowed(s, a) && Allowed(LedgerRuns.Run(s, a), b) ==> Allowed(s, a + b)
    decreases |b|
  {
    hide Step, Permitted;
    if b == [] {
      assert a + b == a;
    } else {
      var k := |b| - 1;
      RunTwice(s, a, b[..k]);
      assert (a + b)[..|a + b| - 1] == a + b[..k];
    }
  }

  lemma RunOnce(s: Store, c: Change)
    requires Permitted(s, c)
    ensures LedgerRuns.Run(s, [c]) == Step(s, c) && Allowed(s, [c])
  {
    hide Step, Permitted;
    assert [c][..0] == [];
    assert LedgerRuns.Run(s, []) == s;
  }

  lemma EventChanges(w: World, ev: Event)
    requires Sane(w) && Enabled(w, ev) && !ev.Load?
    ensures LedgerRuns.Run(w.store, ChangesIn(w, ev)) == Next(w, ev).store && Allowed(w.store, ChangesIn(w, ev))
  {
    hide Lifecycle, ApplyEvaluation, Step, CommitIntent, Ingest, Invalidate, FlightSane, GathersAll, ComparedAt,
         Recovered, LiveVerdict, LedgerRuns.Run, Allowed, ApplyChanges, IsAction;
    NothingRuns(w.store);
    match ev {
      case Rotate(_, _, now) => SingleRun(w.store, Rotated(EvidenceRecoveredNotFresh, now));
      case Publish(d, now, _) => SingleRun(w.store, Committed(d, now, w.limits.maxTargets));
      case Arrive(s, now, _) =>
        var stamped := Stamped(s, now);
        SingleRun(w.store, Ingested(Retained(stamped, LiveVerdict(w.config, now, s.target, stamped), false),
                                    w.limits.maxRetained));
      case Act(change) => SingleRun(w.store, change) by { ActionPermitted(w.store, change); }
      case Finish(token, apply, refusedAt) =>
        var f := w.flights[token];
        FlightIsSane(w, token);
        FlightCoherent(w, f);
        ApplyIsRun(w.store, OutcomeOf(f), f.compared.value.policy, f.now, w.limits.maxFindings, refusedAt);
      case _ =>
    }
  }

  lemma NothingRuns(s: Store)
    ensures LedgerRuns.Run(s, []) == s && Allowed(s, [])
  {}

  lemma ActionPermitted(s: Store, c: Change)
    requires IsAction(c)
    ensures Permitted(s, c)
  {}

  lemma SingleRun(s: Store, c: Change)
    requires Permitted(s, c)
    ensures LedgerRuns.Run(s, [c]) == Step(s, c) && Allowed(s, [c])
    ensures c.Rotated? ==> Step(s, c) == Invalidate(s, c.reason, c.now)
    ensures c.Committed? ==> Step(s, c) == CommitIntent(s, c.document, c.now, c.maxTargets)
    ensures c.Ingested? ==> Step(s, c) == Ingest(s, c.record, c.limit)
  {
    hide Permitted, Invalidate, CommitIntent, Ingest;
    RunOnce(s, c);
  }

  /** Every engine run without a reload is one allowed ledger history, so what holds of all
      histories (resolution, counts, lifecycle) holds of every interleaving. */
  lemma {:induction false} RunIsHistory(w: World, events: seq<Event>)
    requires Sane(w) && Possible(w, events) && NoLoad(events)
    ensures LedgerRuns.Run(w.store, History(w, events)) == Reach(w, events).store
    ensures Allowed(w.store, History(w, events))
  {
    hide Sane, Enabled, Next, ChangesIn, Allowed, LedgerRuns.Run;
    if events == [] {
      NothingRuns(w.store);
    } else {
      var k := |events| - 1;
      RunIsHistory(w, events[..k]);
      RunSane(w, events[..k]);
      assert !events[k].Load?;
      EventChanges(Reach(w, events[..k]), events[k]);
      RunTwice(w.store, History(w, events[..k]), ChangesIn(Reach(w, events[..k]), events[k]));
    }
  }
}
