/** One finding and each change of its life, as functions on values. */
module Findings {
  import opened Core
  import opened Values
  import opened Domain
  import opened Policy

  datatype State = Open | Acknowledged | Suppressed | Resolved | Superseded | Retired

  predicate Live(s: State) { s.Open? || s.Acknowledged? || s.Suppressed? }

  datatype Origin = NoOrigin | ByPolicy | ByOperator

  datatype Finding = Finding(
    id: FindingId, klass: DriftClass, rawClass: DriftClass, severity: Severity, state: State, reason: Reason,
    generation: nat, epoch: nat, authority: Authority, policy: Text,
    intended: Option<Value>, observed: Option<Value>, evidence: seq<EvidenceRef>, freshness: FreshnessState,
    observationCount: nat, reopenCount: nat, confirmations: nat,
    firstSeen: int64, lastSeen: int64, lastEvaluated: int64, resolvedAt: int64,
    suppression: Option<Text>, origin: Origin, suppressedBy: Text, suppressionReason: Text, expiresAt: Option<int64>,
    acknowledgedBy: Text, acknowledgedAt: int64, acknowledgementReason: Text, complianceRelevant: bool)

  datatype Outcome = Outcome(policy: Text, confirmations: uint32, evaluations: seq<Evaluation>)

  /** Text kept with a finding is cut at 240 octets. */
  function BoundedDetail(text: Text): Text {
    if |text| <= 240 then text else text[..240] + "..."
  }

  // ----- evaluation

  function SuppressionFor(policy: ObservatoryPolicy, d: Draft, now: int64): Option<SuppressionRule> {
    FirstApplying(policy.suppressions, d.target, d.objectId, d.path, d.klass, d.severity, now)
  }

  function Created(d: Draft, e: Evaluation, o: Outcome, policy: ObservatoryPolicy, now: int64): Finding {
    var f := Finding(d.Id(), d.klass, d.rawClass, d.severity, Open, d.reason, d.generation, d.epoch, d.authority,
                     o.policy, d.intended, d.observed, d.evidence, e.bestFreshness, 1, 0, 0, now, now, now, 0,
                     None, NoOrigin, [], [], None, [], 0, [], d.complianceRelevant);
    var s := SuppressionFor(policy, d, now);
    if s.None? then f
    else f.(state := Suppressed, origin := ByPolicy, suppression := Some(s.value.id), suppressedBy := s.value.author,
            suppressionReason := s.value.reason, expiresAt := s.value.expiresAt)
  }

  /** The suppression ends; the evidence and the compliance truth stay as they were. */
  function Unsuppressed(f: Finding): Finding {
    f.(suppression := None, origin := NoOrigin, suppressedBy := [], suppressionReason := [], expiresAt := None,
       state := if !f.state.Suppressed? then f.state else if f.acknowledgedBy == [] then Open else Acknowledged)
  }

  function Observed(f: Finding, d: Draft, e: Evaluation, o: Outcome, now: int64): Finding {
    f.(klass := d.klass, rawClass := d.rawClass, severity := d.severity, reason := d.reason,
       generation := d.generation, epoch := d.epoch, authority := d.authority, policy := o.policy,
       intended := d.intended, observed := d.observed, evidence := d.evidence, freshness := e.bestFreshness,
       complianceRelevant := d.complianceRelevant, lastSeen := now, lastEvaluated := now,
       observationCount := f.observationCount + 1)
  }

  function Reopened(f: Finding): Finding {
    f.(state := Open, resolvedAt := 0, confirmations := 0, reopenCount := f.reopenCount + 1)
  }

  predicate PolicyLetGo(f: Finding, policy: ObservatoryPolicy, now: int64) {
    f.suppression.Some? && f.origin.ByPolicy?
    && FirstApplying(policy.suppressions, f.id.target, f.id.objectId, f.id.path, f.klass, f.severity, now).None?
  }

  function Refreshed(f: Finding, d: Draft, e: Evaluation, o: Outcome, policy: ObservatoryPolicy, now: int64): Finding {
    var seen := Observed(f, d, e, o, now);
    var g := if Live(f.state) then seen else Reopened(seen);
    if PolicyLetGo(g, policy, now) then Unsuppressed(g) else g
  }

  function Reclassified(f: Finding, now: int64): Finding {
    f.(state := Superseded, reason := FindingReclassified, lastEvaluated := now)
  }

  function Confirmations(o: Outcome): nat { if o.confirmations == 0 then 1 else o.confirmations }

  /** One more evaluation agreed with intent. */
  function Agreed(f: Finding, streak: nat, o: Outcome, now: int64): Finding {
    if streak >= Confirmations(o) then
      f.(confirmations := streak, state := Resolved, reason := FindingResolved, resolvedAt := now, lastEvaluated := now)
    else f.(confirmations := streak)
  }

  // ----- intent

  /** Whether the new baseline still speaks about the finding's location. */
  predicate StillManaged(f: Finding, objects: Table<Text, IntentObject>) {
    f.id.objectId == TARGET_SCOPE ||
    var found := Find(objects, f.id.objectId);
    found.Some? && (f.id.path != [] ==> Find(found.value.fields, f.id.path).Some?)
  }

  function Rebased(f: Finding, target: Text, generation: nat, objects: Table<Text, IntentObject>, now: int64): Finding {
    if f.id.target != target || !Live(f.state) || f.generation == generation then f
    else if StillManaged(f, objects) then f.(state := Superseded, reason := FindingRebased, lastEvaluated := now)
    else f.(state := Retired, reason := FindingRetired, lastEvaluated := now)
  }

  // ----- operator actions

  function SuppressedBy(f: Finding, id: Text, actor: Text, reason: Text, expiresAt: Option<int64>): Finding {
    f.(suppression := Some(id), origin := ByOperator, suppressedBy := actor, suppressionReason := BoundedDetail(reason),
       expiresAt := expiresAt, state := if Live(f.state) then Suppressed else f.state)
  }

  function AcknowledgedBy(f: Finding, actor: Text, reason: Text, now: int64): Finding {
    f.(acknowledgedBy := actor, acknowledgedAt := now, acknowledgementReason := BoundedDetail(reason),
       state := if f.state.Open? then Acknowledged else f.state)
  }

  function AcknowledgementCleared(f: Finding): Finding {
    f.(acknowledgedBy := [], acknowledgedAt := 0, acknowledgementReason := [],
       state := if f.state.Acknowledged? then Open else f.state)
  }

  predicate SuppressionDue(f: Finding, now: int64) {
    f.suppression.Some? && f.expiresAt.Some? && now >= f.expiresAt.value
  }

  function Lapsed(f: Finding, now: int64): Finding {
    if SuppressionDue(f, now) then Unsuppressed(f) else f
  }

  // ----- what every change keeps

  /** The record agrees with its own identity and with how it came to its state. */
  predicate Sound(f: Finding, id: FindingId) {
    && f.id == id && f.klass == id.klass && f.generation == id.generation
    && (f.state.Suppressed? ==> f.suppression.Some?)
    && (f.state.Acknowledged? ==> f.acknowledgedBy != [])
    && (f.origin.NoOrigin? <==> f.suppression.None?)
  }

  lemma CreatedSound(d: Draft, e: Evaluation, o: Outcome, policy: ObservatoryPolicy, now: int64)
    ensures Sound(Created(d, e, o, policy, now), d.Id()) && Live(Created(d, e, o, policy, now).state)
  {
    hide FirstApplying;
  }

  lemma RefreshedSound(f: Finding, d: Draft, e: Evaluation, o: Outcome, policy: ObservatoryPolicy, now: int64)
    requires Sound(f, d.Id())
    ensures Sound(Refreshed(f, d, e, o, policy, now), d.Id()) && Live(Refreshed(f, d, e, o, policy, now).state)
    ensures Refreshed(f, d, e, o, policy, now).observationCount == f.observationCount + 1
    ensures Refreshed(f, d, e, o, policy, now).reopenCount == f.reopenCount + (if Live(f.state) then 0 else 1)
  {
    hide FirstApplying;
  }

  /** Every other change keeps a finding sound, and none of them makes a closed finding live. */
  lemma ChangesSound(f: Finding, id: FindingId, o: Outcome, streak: nat, target: Text, generation: nat,
                     objects: Table<Text, IntentObject>, text: Text, actor: Text, reason: Text,
                     expiresAt: Option<int64>, now: int64)
    requires Sound(f, id) && actor != []
    ensures forall g :: g in {Reclassified(f, now), Agreed(f, streak, o, now),
                              Rebased(f, target, generation, objects, now),
                              SuppressedBy(f, text, actor, reason, expiresAt), AcknowledgedBy(f, actor, reason, now),
                              AcknowledgementCleared(f), Unsuppressed(f), Lapsed(f, now)}
              ==> Sound(g, id) && (Live(g.state) ==> Live(f.state))
  {
    hide StillManaged, BoundedDetail;
  }

  // ----- what operators undo

  /** Clearing a suppression restores the finding, except one that was reopened after
      an acknowledgement: it comes back acknowledged. */
  lemma SuppressionUndone(f: Finding, id: FindingId, suppression: Text, actor: Text, reason: Text,
                          expiresAt: Option<int64>)
    requires Sound(f, id) && f.suppression.None?
    requires f.suppressedBy == [] && f.suppressionReason == [] && f.expiresAt.None?
    ensures Unsuppressed(SuppressedBy(f, suppression, actor, reason, expiresAt)) == f
       <==> !(f.state.Open? && f.acknowledgedBy != [])
  {
    hide BoundedDetail;
    var g := Unsuppressed(SuppressedBy(f, suppression, actor, reason, expiresAt));
    assert g.state == if f.state.Open? && f.acknowledgedBy != [] then Acknowledged else f.state;
    assert g == f.(state := g.state);
  }

  /** Such a finding is reached by acknowledging, resolving and drafting it again. */
  lemma ReopenedComesBackAcknowledged(f: Finding, actor: Text, reason: Text, streak: nat, d: Draft, e: Evaluation,
                                      o: Outcome, policy: ObservatoryPolicy, now: int64, suppression: Text,
                                      author: Text, why: Text, expiresAt: Option<int64>)
    requires f.state.Open? && f.suppression.None? && actor != [] && streak >= Confirmations(o)
    ensures
      var g := Refreshed(Agreed(AcknowledgedBy(f, actor, reason, now), streak, o, now), d, e, o, policy, now);
      && g.state.Open? && g.acknowledgedBy == actor && g.suppression.None?
      && Unsuppressed(SuppressedBy(g, suppression, author, why, expiresAt)).state.Acknowledged?
  {
    hide BoundedDetail, FirstApplying;
  }

  /** Clearing a first acknowledgement restores the finding. */
  lemma AcknowledgementUndone(f: Finding, id: FindingId, actor: Text, reason: Text, now: int64)
    requires Sound(f, id) && f.acknowledgedBy == [] && f.acknowledgedAt == 0 && f.acknowledgementReason == []
    ensures AcknowledgementCleared(AcknowledgedBy(f, actor, reason, now)) == f
  {
    hide BoundedDetail;
    var g := AcknowledgementCleared(AcknowledgedBy(f, actor, reason, now));
    assert g == f.(state := g.state);
  }
}
