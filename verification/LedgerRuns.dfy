/** The ledger over whole histories: what every change keeps, and what a run implies
    about resolution, counting and the finding budget. */
module LedgerRuns {
  import opened Core
  import opened Values
  import opened Domain
  import opened Policy
  import opened Window
  import opened Findings
  import opened LedgerState

  /** One atomic change. Applying an evaluation outcome is one change per accepted target
      evaluation, then the expiry sweep. */
  datatype Change =
    | Evaluated(e: Evaluation, o: Outcome, policy: ObservatoryPolicy, now: int64)
    | Swept(now: int64)
    | Committed(document: Document, now: int64, maxTargets: nat)
    | Ingested(record: Retained, limit: nat)
    | Rotated(reason: Reason, now: int64)
    | Suppressing(id: FindingId, suppressionId: Text, actor: Text, reason_: Text, expiresAt: Option<int64>, room: bool)
    | Unsuppressing(id: FindingId)
    | Acknowledging(id: FindingId, actor: Text, reason_: Text, now: int64)
    | Unacknowledging(id: FindingId)

  function Step(s: Store, c: Change): Store {
    match c
    case Evaluated(e, o, policy, now) => ApplyOne(s, e, o, policy, now)
    case Swept(now) => ExpireAll(s, now)
    case Committed(d, now, maxTargets) => CommitIntent(s, d, now, maxTargets)
    case Ingested(r, limit) => Ingest(s, r, limit)
    case Rotated(reason, now) => Invalidate(s, reason, now)
    case Suppressing(id, suppressionId, actor, reason, expiresAt, room) =>
      Suppress(s, id, suppressionId, actor, reason, expiresAt, room).0
    case Unsuppressing(id) => ClearSuppression(s, id).0
    case Acknowledging(id, actor, reason, now) => Acknowledge(s, id, actor, reason, now).0
    case Unacknowledging(id) => ClearAcknowledgement(s, id).0
  }

  /** Drafts name the target and generation they were compared under, as every comparison's do. */
  predicate Coherent(e: Evaluation) {
    forall i :: 0 <= i < |e.drafts| ==>
      e.drafts[i].target == e.target && e.drafts[i].generation == (if e.hasBaseline then e.generation else 0)
  }

  /** An evaluation is applied only under its own baseline. */
  predicate Permitted(s: Store, c: Change) {
    c.Evaluated? ==> Accepts(s.baselines, c.e) && Coherent(c.e)
  }

  function Run(s: Store, cs: seq<Change>): Store {
    if cs == [] then s else Step(Run(s, cs[..|cs| - 1]), cs[|cs| - 1])
  }

  predicate Allowed(s: Store, cs: seq<Change>) {
    cs == [] || (Allowed(s, cs[..|cs| - 1]) && Permitted(Run(s, cs[..|cs| - 1]), cs[|cs| - 1]))
  }

  // ----- applying an outcome is a run

  function ChangesOf(s: Store, o: Outcome, policy: ObservatoryPolicy, now: int64, n: nat): seq<Change>
    requires n <= |o.evaluations|
  {
    if n == 0 then []
    else ChangesOf(s, o, policy, now, n - 1)
         + (if Accepts(s.baselines, o.evaluations[n - 1]) then [Evaluated(o.evaluations[n - 1], o, policy, now)] else [])
  }

  function ApplyChanges(s: Store, o: Outcome, policy: ObservatoryPolicy, now: int64, maxFindings: nat, refusedAt: nat)
    : seq<Change>
  {
    if |s.findings| + NewFindings(s, o.evaluations) > maxFindings then []
    else if Stopped(s, o, refusedAt) then ChangesOf(s, o, policy, now, refusedAt + 1)
    else ChangesOf(s, o, policy, now, |o.evaluations|) + [Swept(now)]
  }

  predicate CoherentOutcome(o: Outcome) {
    forall i :: 0 <= i < |o.evaluations| ==> Coherent(o.evaluations[i])
  }

  lemma {:induction false} ApplyFirstIsRun(s: Store, o: Outcome, policy: ObservatoryPolicy, now: int64, n: nat)
    requires n <= |o.evaluations| && CoherentOutcome(o)
    ensures
      var cs := ChangesOf(s, o, policy, now, n);
      Run(s, cs) == ApplyFirst(s, o, policy, now, n) && Allowed(s, cs)
  {
    hide ApplyOne, Coherent, Accepts;
    if n > 0 {
      ApplyFirstIsRun(s, o, policy, now, n - 1);
      var cs := ChangesOf(s, o, policy, now, n);
      var before := ChangesOf(s, o, policy, now, n - 1);
      if Accepts(s.baselines, o.evaluations[n - 1]) {
        assert Coherent(o.evaluations[n - 1]);
        hide Run, Allowed;
        OneMore(s, before, Evaluated(o.evaluations[n - 1], o, policy, now));
      } else {
        assert cs == before;
      }
    }
  }

  lemma OneMore(s: Store, cs: seq<Change>, c: Change)
    requires Allowed(s, cs) && Permitted(Run(s, cs), c)
    ensures Run(s, cs + [c]) == Step(Run(s, cs), c) && Allowed(s, cs + [c])
  {
    hide Step, Permitted;
    assert (cs + [c])[..|cs|] == cs;
  }

  /** The whole two-phase application is exactly the run of its accepted changes. */
  lemma ApplyIsRun(s: Store, o: Outcome, policy: ObservatoryPolicy, now: int64, maxFindings: nat, refusedAt: nat)
    requires CoherentOutcome(o)
    ensures
      var cs := ApplyChanges(s, o, policy, now, maxFindings, refusedAt);
      Run(s, cs) == ApplyEvaluation(s, o, policy, now, maxFindings, refusedAt).0 && Allowed(s, cs)
  {
    hide ApplyFirst, ChangesOf, CoherentOutcome, Accepts, ExpireAll, NewFindings, Run, Allowed, Permitted;
    if |s.findings| + NewFindings(s, o.evaluations) <= maxFindings {
      if Stopped(s, o, refusedAt) {
        ApplyFirstIsRun(s, o, policy, now, refusedAt + 1);
      } else {
        ApplyFirstIsRun(s, o, policy, now, |o.evaluations|);
        SweepLast(s, ChangesOf(s, o, policy, now, |o.evaluations|), now);
      }
    } else {
      NothingRun(s);
    }
  }

  lemma SweepLast(s: Store, cs: seq<Change>, now: int64)
    requires Allowed(s, cs)
    ensures Run(s, cs + [Swept(now)]) == ExpireAll(Run(s, cs), now) && Allowed(s, cs + [Swept(now)])
  {
    hide ExpireAll, Run, Allowed;
    OneMore(s, cs, Swept(now));
  }

  lemma NothingRun(s: Store)
    ensures Run(s, []) == s && Allowed(s, [])
  {}

  // ----- the lifecycle invariant

  predicate OfCommitted(s: Store, id: FindingId) {
    id.generation == 0 || (id.target in s.baselines && s.baselines[id.target].generation == id.generation)
  }

  predicate Kept(s: Store, id: FindingId)
    requires id in s.findings
  {
    KeptAs(s.findings[id], id, OfCommitted(s, id), Streak(s, id))
  }

  /** Sound, and while live of the committed generation (or none) with a streak that cannot wrap. */
  predicate KeptAs(f: Finding, id: FindingId, current: bool, streak: nat) {
    Sound(f, id) && (Live(f.state) ==> current && streak + 1 < UINT32)
  }

  predicate WindowKept(key: WindowKey, w: seq<Retained>) {
    Tidy(w) && forall i :: 0 <= i < |w| ==> w[i].snapshot.target == key.target && w[i].snapshot.source == key.source
  }

  predicate BaselineKept(t: Text, b: Baseline) {
    b.content.target == t && b == BaselineOf(b.content, b.committedAt)
  }

  predicate Lifecycle(s: Store) {
    && (forall id :: id in s.findings ==> Kept(s, id))
    && s.streaks.Keys <= s.findings.Keys
    && (forall k :: k in s.windows ==> WindowKept(k, s.windows[k]))
    && (forall t :: t in s.baselines ==> BaselineKept(t, s.baselines[t]))
  }

  lemma EmptyLifecycle()
    ensures Lifecycle(Store(map[], map[], map[], map[]))
  {}

  lemma EvaluatedKept(s: Store, e: Evaluation, o: Outcome, policy: ObservatoryPolicy, now: int64, id: FindingId)
    requires Lifecycle(s) && Permitted(s, Evaluated(e, o, policy, now))
    requires id in ApplyOne(s, e, o, policy, now).findings
    ensures Kept(ApplyOne(s, e, o, policy, now), id)
  {
    hide BaselineKept, WindowKept, KeptAs, NextFinding, NextStreak, StreakTouched, Accepts, Coherent;
    var m := DraftMap(e.drafts);
    StreakAfter(s, e, o, policy, now, id);
    if id in m {
      assert m[id] in e.drafts;
      DraftedKept(s, e, m, o, policy, now, id);
    } else {
      assert Kept(s, id);
      UndraftedKept(s, e, m, o, policy, now, id);
    }
  }

  lemma DraftedKept(s: Store, e: Evaluation, m: map<FindingId, Draft>, o: Outcome, policy: ObservatoryPolicy, now: int64,
                    id: FindingId)
    requires Accepts(s.baselines, e) && Coherent(e) && id in m && m[id] in e.drafts && m[id].Id() == id
    requires id in s.findings ==> Kept(s, id)
    requires s.streaks.Keys <= s.findings.Keys
    ensures KeptAs(NextFinding(s, e, m, o, policy, now, id), id, OfCommitted(s, id), NextStreak(s, e, m, id))
  {
    hide Refreshed, Created, Sound;
    if id in s.findings {
      RefreshedSound(s.findings[id], m[id], e, o, policy, now);
    } else {
      CreatedSound(m[id], e, o, policy, now);
    }
  }

  lemma UndraftedKept(s: Store, e: Evaluation, m: map<FindingId, Draft>, o: Outcome, policy: ObservatoryPolicy, now: int64,
                      id: FindingId)
    requires id !in m && id in s.findings && Kept(s, id)
    ensures KeptAs(NextFinding(s, e, m, o, policy, now, id), id, OfCommitted(s, id), NextStreak(s, e, m, id))
  {
    hide Reexplained, OfCommitted;
  }

  lemma AppliedAt(s: Store, e: Evaluation, o: Outcome, policy: ObservatoryPolicy, now: int64, id: FindingId)
    ensures id in ApplyOne(s, e, o, policy, now).findings <==> id in s.findings || id in DraftMap(e.drafts)
    ensures id in ApplyOne(s, e, o, policy, now).findings
        ==> ApplyOne(s, e, o, policy, now).findings[id] == NextFinding(s, e, DraftMap(e.drafts), o, policy, now, id)
  {
    hide NextFinding, DraftMap, NextStreak, StreakTouched;
  }

  lemma StreakAfter(s: Store, e: Evaluation, o: Outcome, policy: ObservatoryPolicy, now: int64, id: FindingId)
    ensures Streak(ApplyOne(s, e, o, policy, now), id) == NextStreak(s, e, DraftMap(e.drafts), id)
  {
    hide NextFinding, Reexplained;
  }

  lemma EvaluatedLifecycle(s: Store, e: Evaluation, o: Outcome, policy: ObservatoryPolicy, now: int64)
    requires Lifecycle(s) && Permitted(s, Evaluated(e, o, policy, now))
    ensures Lifecycle(ApplyOne(s, e, o, policy, now))
  {
    hide Kept, BaselineKept, WindowKept, NextFinding, NextStreak, StreakTouched;
    var t := ApplyOne(s, e, o, policy, now);
    forall id | id in t.findings ensures Kept(t, id) {
      EvaluatedKept(s, e, o, policy, now, id);
    }
  }

  lemma CommitLifecycle(s: Store, d: Document, now: int64, maxTargets: nat)
    requires Lifecycle(s)
    ensures Lifecycle(CommitIntent(s, d, now, maxTargets))
  {
    hide WindowKept, Kept;
    var t := CommitIntent(s, d, now, maxTargets);
    if ScreenIntent(s, d, maxTargets).Accepted? {
      forall id | id in t.findings ensures Kept(t, id) {
        CommitKept(s, d, now, maxTargets, id);
      }
    }
  }

  lemma CommitKept(s: Store, d: Document, now: int64, maxTargets: nat, id: FindingId)
    requires id in s.findings && Kept(s, id) && ScreenIntent(s, d, maxTargets).Accepted?
    ensures Kept(CommitIntent(s, d, now, maxTargets), id)
  {
    hide StillManaged;
  }

  lemma IngestLifecycle(s: Store, r: Retained, limit: nat)
    requires Lifecycle(s)
    ensures Lifecycle(Ingest(s, r, limit))
  {
    hide BaselineKept, Tidy, Admit, Live;
    var key := WindowKey(r.snapshot.target, r.snapshot.source);
    var t := Ingest(s, r, limit);
    AdmitKept(key, WindowOf(s, key), r, limit) by {
      assert key in s.windows ==> WindowKept(key, s.windows[key]);
      assert Tidy([]) by { EmptyTidy(); }
    }
    forall id | id in t.findings ensures Kept(t, id) { assert Kept(s, id); }
  }

  lemma EmptyTidy()
    ensures Tidy([])
  {}

  lemma AdmitKept(key: WindowKey, w: seq<Retained>, r: Retained, limit: nat)
    requires WindowKept(key, w) && key == WindowKey(r.snapshot.target, r.snapshot.source)
    ensures WindowKept(key, Admit(w, r, limit))
  {
    hide Tidy, Admit;
    AdmitTidy(w, r, limit);
    AdmitAdds(w, r, limit);
  }

  lemma InvalidateLifecycle(s: Store, reason: Reason, now: int64)
    requires Lifecycle(s)
    ensures Lifecycle(Invalidate(s, reason, now))
  {
    hide BaselineKept, Live;
    var t := Invalidate(s, reason, now);
    forall k | k in t.windows ensures WindowKept(k, t.windows[k]) {
      InvalidatedKept(k, s.windows[k], reason, now);
    }
    forall id | id in t.findings ensures Kept(t, id) { assert Kept(s, id); }
  }

  lemma InvalidatedKept(k: WindowKey, w: seq<Retained>, reason: Reason, now: int64)
    requires WindowKept(k, w)
    ensures WindowKept(k, InvalidatedWindow(w, reason, now))
  {
    hide Earlier, InOrder;
  }

  lemma SweptLifecycle(s: Store, now: int64)
    requires Lifecycle(s)
    ensures Lifecycle(ExpireAll(s, now))
  {
    hide BaselineKept, WindowKept;
    var t := ExpireAll(s, now);
    forall id | id in t.findings ensures Kept(t, id) { assert Kept(s, id); }
  }

  lemma UpdateLifecycle(s: Store, id: FindingId, f: Finding)
    requires Lifecycle(s) && id in s.findings && Sound(f, id)
    requires Live(f.state) ==> Live(s.findings[id].state)
    ensures Lifecycle(Update(s, id, f))
  {
    hide BaselineKept, WindowKept, Live;
    var t := Update(s, id, f);
    forall i | i in t.findings ensures Kept(t, i) { assert Kept(s, i); }
  }

  /** Every change of the ledger keeps the lifecycle invariant. */
  lemma StepKeepsLifecycle(s: Store, c: Change)
    requires Lifecycle(s) && Permitted(s, c)
    ensures Lifecycle(Step(s, c))
  {
    hide Lifecycle, ApplyOne, ExpireAll, CommitIntent, Ingest, Invalidate, Update, Accepts, Coherent;
    match c {
      case Evaluated(e, o, policy, now) => EvaluatedLifecycle(s, e, o, policy, now);
      case Swept(now) => SweptLifecycle(s, now);
      case Committed(d, now, maxTargets) => CommitLifecycle(s, d, now, maxTargets);
      case Ingested(r, limit) => IngestLifecycle(s, r, limit);
      case Rotated(reason, now) => InvalidateLifecycle(s, reason, now);
      case _ => ActionLifecycle(s, c);
    }
  }

  lemma ActionLifecycle(s: Store, c: Change)
    requires Lifecycle(s)
    requires c.Suppressing? || c.Unsuppressing? || c.Acknowledging? || c.Unacknowledging?
    ensures Lifecycle(Step(s, c))
  {
    hide Update, Live, BoundedDetail;
    if c.id in s.findings {
      assert Kept(s, c.id);
      if Step(s, c) != s {
        ActionSound(s.findings[c.id], c);
        UpdateLifecycle(s, c.id, ActionResult(s.findings[c.id], c));
      }
    }
  }

  function ActionResult(f: Finding, c: Change): Finding
    requires c.Suppressing? || c.Unsuppressing? || c.Acknowledging? || c.Unacknowledging?
  {
    match c
    case Suppressing(_, suppressionId, actor, reason, expiresAt, _) => SuppressedBy(f, suppressionId, actor, reason, expiresAt)
    case Unsuppressing(_) => Unsuppressed(f)
    case Acknowledging(_, actor, reason, now) => AcknowledgedBy(f, actor, reason, now)
    case Unacknowledging(_) => AcknowledgementCleared(f)
  }

  lemma ActionSound(f: Finding, c: Change)
    requires c.Suppressing? || c.Unsuppressing? || c.Acknowledging? || c.Unacknowledging?
    requires Sound(f, c.id) && (c.Acknowledging? ==> c.actor != [])
    ensures Sound(ActionResult(f, c), c.id) && (Live(ActionResult(f, c).state) ==> Live(f.state))
  {
    hide BoundedDetail;
  }

  lemma {:induction false} RunKeepsLifecycle(s: Store, cs: seq<Change>)
    requires Lifecycle(s) && Allowed(s, cs)
    ensures Lifecycle(Run(s, cs))
  {
    hide Lifecycle, Step, Permitted;
    if cs != [] {
      RunKeepsLifecycle(s, cs[..|cs| - 1]);
      StepKeepsLifecycle(Run(s, cs[..|cs| - 1]), cs[|cs| - 1]);
    }
  }
}
