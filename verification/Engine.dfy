/** The evaluation protocol as atomic steps: inputs are copied under the lock, compared
    without it, and applied under it again after fencing. */
module Engine {
  import opened Core
  import opened Values
  import opened Domain
  import opened Policy
  import opened Freshnesses
  import opened Comparison
  import opened Window
  import opened Findings
  import opened LedgerState
  import opened LedgerRuns

  datatype Config = Config(epoch: nat, incarnation: nat, policy: ObservatoryPolicy, requireStarted: bool,
                           requireRegistered: bool)

  datatype Compared = Compared(policy: ObservatoryPolicy, evaluations: seq<Evaluation>)

  /** An evaluation between its two locked sections: a copy of everything it compares. */
  datatype Flight = Flight(now: int64, epoch: nat, incarnation: nat, policyId: Text, confirmations: uint32,
                           inputs: seq<Input>, compared: Option<Compared>)

  datatype World = World(config: Config, limits: Limits, store: Store, sources: map<Text, nat>,
                         flights: map<nat, Flight>, started: bool, stopping: bool, cancelled: bool)

  /** One locked section, with what the environment and the comparison chose in it. */
  datatype Event =
    | Rotate(incarnation: nat, epoch: nat, now: int64)
    | Register(source: Text, incarnation: nat)
    | Publish(document: Document, now: int64, validation: Result<()>)
    | Arrive(snapshot: Snapshot, now: int64, validation: Result<()>)
    | Begin(token: nat, now: int64, inputs: seq<Input>)
    | Compare(token: nat, evaluations: seq<Evaluation>)
    | Finish(token: nat, apply: bool, refusedAt: nat)
    | Act(change: Change)
    | SetPolicy(policy: ObservatoryPolicy)
    | Start
    | Stop
    | Cancel(requested: bool)
    | Load(store: Store)

  // ----- what an evaluation copies

  /** The verdict of a retained observation at the moment its evaluation begins. */
  function VerdictOf(c: Config, now: int64, target: Text, r: Retained): Freshness {
    if r.recovered then
      var age := Difference(now, r.snapshot.collectedAt);
      Freshness(RecoveredNotFresh, EvidenceRecoveredNotFresh, if age.Some? then age.value else 0, 0, false, false)
    else LiveVerdict(c, now, target, r.snapshot)
  }

  function LiveVerdict(c: Config, now: int64, target: Text, s: Snapshot): Freshness {
    EvaluateFreshness(s, c.policy.freshness.(ttl := Ttl(c.policy, target, TARGET_SCOPE, [])), now, c.epoch, false)
  }

  function BaselineFor(s: Store, target: Text): Option<Baseline> {
    if target in s.baselines then Some(s.baselines[target]) else None
  }

  predicate Known(w: World, target: Text) {
    || target in w.store.baselines
    || (exists k :: k in w.store.windows && k.target == target)
    || target in w.config.policy.requiredTargets
  }

  /** The record at one place of one window, as the i-th candidate of an input. */
  predicate Copied(w: World, now: int64, input: Input, i: nat, k: WindowKey, j: nat)
    requires |input.snapshots| == |input.freshness| && i < |input.snapshots|
    requires k in w.store.windows && j < |w.store.windows[k]|
  {
    var r := w.store.windows[k][j];
    input.snapshots[i] == r.snapshot && input.freshness[i] == VerdictOf(w.config, now, input.target, r)
  }

  predicate FromWindow(w: World, now: int64, input: Input, i: nat)
    requires |input.snapshots| == |input.freshness| && i < |input.snapshots|
  {
    exists k :: k in w.store.windows && k.target == input.target &&
      exists j :: 0 <= j < |w.store.windows[k]| && Copied(w, now, input, i, k, j)
  }

  predicate Included(w: World, now: int64, input: Input, k: WindowKey, j: nat)
    requires |input.snapshots| == |input.freshness|
    requires k in w.store.windows && j < |w.store.windows[k]|
  {
    exists i :: 0 <= i < |input.snapshots| && Copied(w, now, input, i, k, j)
  }

  /** The input holds the committed baseline and every retained observation of its target. */
  predicate Gathers(w: World, now: int64, input: Input) {
    && |input.snapshots| == |input.freshness|
    && input.baseline == BaselineFor(w.store, input.target)
    && (forall i :: 0 <= i < |input.snapshots| ==> FromWindow(w, now, input, i))
    && (forall k, j :: k in w.store.windows && k.target == input.target && 0 <= j < |w.store.windows[k]|
          ==> Included(w, now, input, k, j))
  }

  /** One input for each known target, in order. */
  ghost predicate GathersAll(w: World, now: int64, inputs: seq<Input>) {
    && (forall i, j :: 0 <= i < j < |inputs| ==> Less(inputs[i].target, inputs[j].target))
    && (forall i :: 0 <= i < |inputs| ==> Known(w, inputs[i].target) && Gathers(w, now, inputs[i]))
    && (forall t :: Known(w, t) ==> exists i :: 0 <= i < |inputs| && inputs[i].target == t)
  }

  // ----- the steps

  predicate Serving(w: World) { w.config.requireStarted ==> w.started }

  predicate RotationAllowed(w: World, incarnation: nat, epoch: nat) {
    incarnation > w.config.incarnation && epoch >= w.config.epoch
  }

  function Stamped(s: Snapshot, now: int64): Snapshot { s.(receivedAt := now) }

  predicate ArrivalAllowed(w: World, s: Snapshot, validation: Result<()>) {
    Serving(w) && (w.config.requireRegistered ==> s.source in w.sources) && validation.Ok?
  }

  /** The outcome leaves the engine only if nothing moved underneath it. */
  predicate Passes(w: World, f: Flight) {
    !w.cancelled && !w.stopping && Serving(w) && f.epoch == w.config.epoch && f.incarnation == w.config.incarnation
  }

  function OutcomeOf(f: Flight): Outcome
    requires f.compared.Some?
  {
    Outcome(f.policyId, f.confirmations, f.compared.value.evaluations)
  }

  function Applied(w: World, f: Flight, refusedAt: nat): (Store, Result<()>)
    requires f.compared.Some?
  {
    ApplyEvaluation(w.store, OutcomeOf(f), f.compared.value.policy, f.now, w.limits.maxFindings, refusedAt)
  }

  predicate IsAction(c: Change) {
    c.Swept? || c.Suppressing? || c.Unsuppressing? || c.Acknowledging? || c.Unacknowledging?
  }

  /** A decoded ledger: sound, with no streaks and no evidence that is not recovered. */
  predicate Recovered(s: Store) {
    && Lifecycle(s) && s.streaks == map[]
    && forall k :: k in s.windows ==> AllRecovered(s.windows[k])
  }

  predicate AllRecovered(w: seq<Retained>) {
    forall i :: 0 <= i < |w| ==> w[i].recovered
  }

  /** When the event can happen as described. */
  ghost predicate Enabled(w: World, ev: Event) {
    match ev
    case Begin(token, now, inputs) => token !in w.flights && Serving(w) && !w.cancelled && GathersAll(w, now, inputs)
    case Compare(token, evaluations) =>
      && token in w.flights && w.flights[token].compared.None? && |evaluations| == |w.flights[token].inputs|
      && forall i :: 0 <= i < |evaluations| ==> ComparedAt(w, w.flights[token].inputs[i], evaluations[i])
    case Finish(token, _, _) => token in w.flights && w.flights[token].compared.Some?
    case Act(change) => IsAction(change)
    case Load(store) => w.flights == map[] && Recovered(store) && |store.findings| <= w.limits.maxFindings
    case _ => true
  }

  /** A slot skipped because of cancellation stays blank. */
  ghost predicate ComparedAt(w: World, input: Input, e: Evaluation) {
    e == BLANK || Compares(input, w.config.policy, w.limits.maxRefs, e)
  }

  function Next(w: World, ev: Event): World {
    match ev
    case Rotate(incarnation, epoch, now) =>
      if !RotationAllowed(w, incarnation, epoch) then w
      else w.(config := w.config.(incarnation := incarnation, epoch := epoch),
              store := Invalidate(w.store, EvidenceRecoveredNotFresh, now))
    case Register(source, incarnation) =>
      if source in w.sources && incarnation < w.sources[source] then w
      else w.(sources := w.sources[source := incarnation])
    case Publish(d, now, validation) =>
      if !Serving(w) || d.epoch != w.config.epoch || validation.Err? then w
      else w.(store := CommitIntent(w.store, d, now, w.limits.maxTargets))
    case Arrive(s, now, validation) =>
      if !ArrivalAllowed(w, s, validation) then w
      else
        var stamped := Stamped(s, now);
        w.(store := Ingest(w.store, Retained(stamped, LiveVerdict(w.config, now, s.target, stamped), false),
                           w.limits.maxRetained))
    case Begin(token, now, inputs) =>
      w.(flights := w.flights[token := Flight(now, w.config.epoch, w.config.incarnation, w.config.policy.id,
                                              w.config.policy.resolutionConfirmations, inputs, None)])
    case Compare(token, evaluations) =>
      if token !in w.flights then w
      else w.(flights := w.flights[token := w.flights[token].(compared := Some(Compared(w.config.policy, evaluations)))])
    case Finish(token, apply, refusedAt) =>
      if token !in w.flights || w.flights[token].compared.None? then w
      else
        var f := w.flights[token];
        w.(flights := w.flights - {token},
           store := if apply && Passes(w, f) then Applied(w, f, refusedAt).0 else w.store)
    case Act(change) => if IsAction(change) then w.(store := Step(w.store, change)) else w
    case SetPolicy(policy) => w.(config := w.config.(policy := policy))
    case Start => if w.started then w else w.(started := true, stopping := false, cancelled := false)
    case Stop => w.(stopping := true, started := false)
    case Cancel(requested) => w.(cancelled := requested)
    case Load(store) => w.(store := store)
  }

  /** The evaluation was returned to its caller, applied or not. */
  predicate Published(w: World, token: nat, apply: bool, refusedAt: nat) {
    && token in w.flights && w.flights[token].compared.Some? && Passes(w, w.flights[token])
    && (apply ==> Applied(w, w.flights[token], refusedAt).1.Ok?)
  }

  // ----- runs

  function Reach(w: World, events: seq<Event>): World {
    if events == [] then w else Next(Reach(w, events[..|events| - 1]), events[|events| - 1])
  }

  ghost predicate Possible(w: World, events: seq<Event>) {
    events == [] || (Possible(w, events[..|events| - 1]) && Enabled(Reach(w, events[..|events| - 1]), events[|events| - 1]))
  }
}
