/** The ledger as a value: what each operation does to baselines, windows, findings
    and resolution streaks. */
module LedgerState {
  import opened Core
  import opened Identity
  import opened Values
  import opened Domain
  import opened Policy
  import opened Freshnesses
  import opened Window
  import opened Findings

  datatype WindowKey = WindowKey(target: Text, source: Text)

  datatype Store = Store(
    baselines: map<Text, Baseline>, windows: map<WindowKey, seq<Retained>>,
    findings: map<FindingId, Finding>, streaks: map<FindingId, nat>)

  datatype Limits = Limits(maxTargets: nat, maxFindings: nat, maxRetained: nat, maxRefs: nat, maxSuppressions: nat,
                           maxTimeline: nat)

  const UINT32: nat := 0x1_0000_0000

  // ----- intent

  function BaselineOf(d: Document, now: int64): Baseline {
    Baseline(d.target, d.generation, d.epoch, d.authority, d.policy, now, d, d.evidence, d.objects)
  }

  datatype Commit = Accepted | DuplicateIdentical | CommitRefused(reason: Reason)

  function ScreenIntent(s: Store, d: Document, maxTargets: nat): Commit {
    if d.target !in s.baselines then
      if |s.baselines| >= maxTargets then CommitRefused(LimitObjectsExceeded) else Accepted
    else
      var existing := s.baselines[d.target];
      if d.epoch < existing.epoch then CommitRefused(FencedStaleEpoch)
      else if d.generation < existing.generation then CommitRefused(IntentGenerationRegressed)
      else if d.generation > existing.generation then Accepted
      else if d == existing.content then DuplicateIdentical
      else CommitRefused(IntentGenerationConflicting)
  }

  /** The first commit for a target leaves its findings alone; a later one rebases them. */
  function CommitIntent(s: Store, d: Document, now: int64, maxTargets: nat): Store {
    if !ScreenIntent(s, d, maxTargets).Accepted? then s
    else
      s.(baselines := s.baselines[d.target := BaselineOf(d, now)],
         findings := if d.target in s.baselines then RebaseAll(s.findings, d, now) else s.findings)
  }

  function RebaseAll(findings: map<FindingId, Finding>, d: Document, now: int64): map<FindingId, Finding> {
    map id | id in findings :: Rebased(findings[id], d.target, d.generation, d.objects, now)
  }

  // ----- observations

  function WindowOf(s: Store, key: WindowKey): seq<Retained> {
    if key in s.windows then s.windows[key] else []
  }

  function Ingest(s: Store, r: Retained, limit: nat): Store {
    var key := WindowKey(r.snapshot.target, r.snapshot.source);
    s.(windows := s.windows[key := Admit(WindowOf(s, key), r, limit)])
  }

  /** Evidence that outlived a restart: never fresh, only its age is kept. */
  function Invalidated(r: Retained, reason: Reason, now: int64): Retained {
    var age := Difference(now, r.snapshot.collectedAt);
    Retained(r.snapshot, Freshness(RecoveredNotFresh, reason, if age.Some? then age.value else 0, 0, false, false), true)
  }

  function InvalidatedWindow(w: seq<Retained>, reason: Reason, now: int64): (v: seq<Retained>)
    ensures |v| == |w|
    ensures forall i :: 0 <= i < |w| ==> v[i] == Invalidated(w[i], reason, now)
  {
    seq(|w|, i requires 0 <= i < |w| => Invalidated(w[i], reason, now))
  }

  function Invalidate(s: Store, reason: Reason, now: int64): Store {
    s.(windows := map k | k in s.windows :: InvalidatedWindow(s.windows[k], reason, now))
  }

  // ----- evaluation

  predicate Accepts(baselines: map<Text, Baseline>, e: Evaluation) {
    if e.hasBaseline then e.target in baselines && baselines[e.target].generation == e.generation
    else e.target !in baselines
  }

  /** The drafts by identity; of several with one identity the first is kept. */
  function DraftMap(drafts: seq<Draft>): (m: map<FindingId, Draft>)
    ensures forall id :: id in m ==> m[id] in drafts && m[id].Id() == id
    ensures forall d :: d in drafts ==> d.Id() in m
  {
    if drafts == [] then map[]
    else
      var m := DraftMap(drafts[..|drafts| - 1]);
      var d := drafts[|drafts| - 1];
      if d.Id() in m then m else m[d.Id() := d]
  }

  function NewDrafts(findings: map<FindingId, Finding>, drafts: seq<Draft>): nat {
    if drafts == [] then 0
    else NewDrafts(findings, drafts[..|drafts| - 1]) + (if drafts[|drafts| - 1].Id() in findings then 0 else 1)
  }

  function NewFindings(s: Store, evaluations: seq<Evaluation>): nat {
    if evaluations == [] then 0
    else
      var e := evaluations[|evaluations| - 1];
      NewFindings(s, evaluations[..|evaluations| - 1])
      + (if Accepts(s.baselines, e) then NewDrafts(s.findings, e.drafts) else 0)
  }

  function Streak(s: Store, id: FindingId): nat {
    if id in s.streaks then s.streaks[id] else 0
  }

  /** A drafted location explains the finding differently. */
  predicate Reexplained(f: Finding, m: map<FindingId, Draft>) {
    exists id :: id in m && id.objectId == f.id.objectId && id.path == f.id.path && m[id].generation == f.generation
  }

  /** The finding is live on the evaluated target and was not drafted. */
  predicate Unseen(s: Store, e: Evaluation, m: map<FindingId, Draft>, id: FindingId) {
    id in s.findings && s.findings[id].id.target == e.target && Live(s.findings[id].state) && id !in m
  }

  predicate Counts(s: Store, e: Evaluation, m: map<FindingId, Draft>, id: FindingId) {
    Unseen(s, e, m, id) && e.decidable && !Reexplained(s.findings[id], m)
  }

  function NextStreak(s: Store, e: Evaluation, m: map<FindingId, Draft>, id: FindingId): nat {
    if id in m then if id in s.findings then 0 else Streak(s, id)
    else if Counts(s, e, m, id) then (Streak(s, id) + 1) % UINT32
    else Streak(s, id)
  }

  function NextFinding(s: Store, e: Evaluation, m: map<FindingId, Draft>, o: Outcome, policy: ObservatoryPolicy, now: int64,
                       id: FindingId): Finding
    requires id in s.findings || id in m
  {
    if id in m then
      if id in s.findings then Refreshed(s.findings[id], m[id], e, o, policy, now)
      else Created(m[id], e, o, policy, now)
    else if !Unseen(s, e, m, id) || !e.decidable then s.findings[id]
    else if Reexplained(s.findings[id], m) then Reclassified(s.findings[id], now)
    else Agreed(s.findings[id], NextStreak(s, e, m, id), o, now)
  }

  predicate StreakTouched(s: Store, e: Evaluation, m: map<FindingId, Draft>, id: FindingId) {
    id in s.findings && (id in m || Counts(s, e, m, id))
  }

  function ApplyOne(s: Store, e: Evaluation, o: Outcome, policy: ObservatoryPolicy, now: int64): Store {
    var m := DraftMap(e.drafts);
    s.(findings := map id | id in s.findings.Keys + m.Keys :: NextFinding(s, e, m, o, policy, now, id),
       streaks := map id | id in s.streaks.Keys + (set i | i in s.findings && StreakTouched(s, e, m, i))
                  :: NextStreak(s, e, m, id))
  }

  /** The first n evaluations, each only if its baseline is still the committed one. */
  function ApplyFirst(s: Store, o: Outcome, policy: ObservatoryPolicy, now: int64, n: nat): (r: Store)
    requires n <= |o.evaluations|
    ensures r.baselines == s.baselines && r.windows == s.windows
  {
    if n == 0 then s
    else
      var before := ApplyFirst(s, o, policy, now, n - 1);
      if Accepts(s.baselines, o.evaluations[n - 1]) then ApplyOne(before, o.evaluations[n - 1], o, policy, now)
      else before
  }

  function ExpireAll(s: Store, now: int64): Store {
    s.(findings := map id | id in s.findings :: Lapsed(s.findings[id], now))
  }

  /** A refused grouping stops the pass after the evaluation it belongs to. */
  predicate Stopped(s: Store, o: Outcome, refusedAt: nat) {
    refusedAt < |o.evaluations| && Accepts(s.baselines, o.evaluations[refusedAt])
  }

  function ApplyEvaluation(s: Store, o: Outcome, policy: ObservatoryPolicy, now: int64, maxFindings: nat, refusedAt: nat)
    : (Store, Result<()>)
  {
    if |s.findings| + NewFindings(s, o.evaluations) > maxFindings then (s, Err(LimitFindingsExceeded))
    else if Stopped(s, o, refusedAt) then
      (ApplyFirst(s, o, policy, now, refusedAt + 1), Err(LimitObjectsExceeded))
    else (ExpireAll(ApplyFirst(s, o, policy, now, |o.evaluations|), now), Ok(()))
  }

  // ----- operator actions

  function Update(s: Store, id: FindingId, f: Finding): Store
    requires id in s.findings
  {
    s.(findings := s.findings[id := f])
  }

  predicate ValidActor(actor: Text) { actor != [] && ValidIdentity(actor) }

  /** `room` says whether another suppression fits; replacing an existing one always does. */
  function Suppress(s: Store, id: FindingId, suppressionId: Text, actor: Text, reason: Text, expiresAt: Option<int64>,
                    room: bool): (Store, Result<()>)
  {
    if id !in s.findings then (s, Err(FindingNotFound))
    else if !ValidActor(actor) then (s, Err(EncodingMalformed))
    else if !room && s.findings[id].suppression.None? then (s, Err(LimitFieldsExceeded))
    else (Update(s, id, SuppressedBy(s.findings[id], suppressionId, actor, reason, expiresAt)), Ok(()))
  }

  function ClearSuppression(s: Store, id: FindingId): (Store, Result<()>) {
    if id !in s.findings || s.findings[id].suppression.None? then (s, Err(SuppressionNotFound))
    else (Update(s, id, Unsuppressed(s.findings[id])), Ok(()))
  }

  function Acknowledge(s: Store, id: FindingId, actor: Text, reason: Text, now: int64): (Store, Result<()>) {
    if id !in s.findings then (s, Err(FindingNotFound))
    else if !ValidActor(actor) then (s, Err(EncodingMalformed))
    else (Update(s, id, AcknowledgedBy(s.findings[id], actor, reason, now)), Ok(()))
  }

  function ClearAcknowledgement(s: Store, id: FindingId): (Store, Result<()>) {
    if id !in s.findings then (s, Err(FindingNotFound))
    else if s.findings[id].acknowledgedBy == [] then (s, Err(AcknowledgementRecorded))
    else (Update(s, id, AcknowledgementCleared(s.findings[id])), Ok(()))
  }
}
