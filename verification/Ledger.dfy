/** The ledger as the program keeps it: maps updated in place by loops that visit them in
    identity-digest order, which is no order a caller can know. */
module Ledger {
  import opened Core
  import opened Values
  import opened Domain
  import opened Policy
  import opened Window
  import opened Findings
  import opened LedgerState
  import opened LedgerRuns

  datatype EventKind =
    | EventCreated | EventUpdated | EventReopened | EventResolved | EventSuppressed | EventSuppressionExpired
    | EventSuppressionCleared | EventAcknowledged | EventAcknowledgementCleared | EventReclassified | EventRebased
    | EventRetired | EventEvidenceRecovered

  datatype TimelineEntry = TimelineEntry(
    sequence: nat, kind: EventKind, target: Text, objectId: Text, finding: Option<FindingId>, at: int64, after: State)

  /** Global sequence numbers rise strictly and stay within the counter. */
  predicate Rising(t: seq<TimelineEntry>, bound: nat) {
    && (forall i, j :: 0 <= i < j < |t| ==> t[i].sequence < t[j].sequence)
    && (forall i :: 0 <= i < |t| ==> t[i].sequence <= bound)
  }

  function EventOf(kind: EventKind, f: Finding, at: int64, sequence: nat): TimelineEntry {
    TimelineEntry(sequence, kind, f.id.target, f.id.objectId, Some(f.id), at, f.state)
  }

  predicate Reported(e: TimelineEntry, f: Finding, at: int64, kind: EventKind) {
    e == EventOf(kind, f, at, e.sequence)
  }

  predicate ReportedIn(entries: seq<TimelineEntry>, f: Finding, at: int64, kind: EventKind) {
    exists i :: 0 <= i < |entries| && Reported(entries[i], f, at, kind)
  }

  /** One entry for each of the findings, as it is now, and no other. */
  predicate Reports(entries: seq<TimelineEntry>, ids: set<FindingId>, findings: map<FindingId, Finding>, at: int64,
                    kindOf: Finding -> EventKind)
  {
    && |entries| == |ids|
    && forall id :: id in ids ==> id in findings && ReportedIn(entries, findings[id], at, kindOf(findings[id]))
  }

  function RebaseKind(f: Finding): EventKind { if f.state.Retired? then EventRetired else EventRebased }

  function LapseKind(f: Finding): EventKind { EventSuppressionExpired }

  /** The live findings a committed document takes out of its target's older generation. */
  predicate Moves(f: Finding, d: Document) {
    f.id.target == d.target && Live(f.state) && f.generation != d.generation
  }

  function Moved(s: Store, d: Document): set<FindingId> {
    if d.target !in s.baselines then {} else set id | id in s.findings && Moves(s.findings[id], d)
  }

  function Due(findings: map<FindingId, Finding>, now: int64): set<FindingId> {
    set id | id in findings && SuppressionDue(findings[id], now)
  }

  // ----- what the timeline tells of one target's application

  /** What can be seen to have happened to a finding between two states of the ledger. */
  predicate Happens(kind: EventKind, was: Option<Finding>, f: Finding) {
    match kind
    case EventCreated => was.None? && f.state.Open?
    case EventSuppressed => was.None? && f.state.Suppressed?
    case EventReopened => was.Some? && !Live(was.value.state) && Live(f.state)
    case EventUpdated =>
      was.Some? && Live(was.value.state) && (f.severity != was.value.severity || f.freshness != was.value.freshness
                                             || f.observed != was.value.observed)
    case EventSuppressionExpired => was.Some? && was.value.suppression.Some? && f.suppression.None?
    case EventReclassified => was.Some? && Live(was.value.state) && f.state.Superseded?
    case EventResolved => was.Some? && Live(was.value.state) && f.state.Resolved?
    case _ => false
  }

  function Count(entries: seq<TimelineEntry>, id: FindingId, kind: EventKind): nat {
    if entries == [] then 0
    else
      var e := entries[|entries| - 1];
      Count(entries[..|entries| - 1], id, kind) + if e.finding == Some(id) && e.kind == kind then 1 else 0
  }

  /** An entry about the finding, with the state it was in then: an update is noted before a
      suppression can end. */
  predicate TellsOf(e: TimelineEntry, was: Option<Finding>, f: Finding, now: int64) {
    && e.finding == Some(f.id) && e.target == f.id.target && e.objectId == f.id.objectId && e.at == now
    && e.after == if e.kind.EventUpdated? && was.Some? then was.value.state else f.state
  }

  ghost predicate Tells(added: seq<TimelineEntry>, was: Option<Finding>, f: Finding, now: int64) {
    && (forall i :: 0 <= i < |added| ==> TellsOf(added[i], was, f, now))
    && (forall kind :: Count(added, f.id, kind) == if Happens(kind, was, f) then 1 else 0)
  }

  function FindingAt(findings: map<FindingId, Finding>, id: FindingId): Option<Finding> {
    if id in findings then Some(findings[id]) else None
  }

  predicate EntryTold(e: TimelineEntry, was: map<FindingId, Finding>, findings: map<FindingId, Finding>, now: int64) {
    e.finding.Some? && e.finding.value in findings
    && TellsOf(e, FindingAt(was, e.finding.value), findings[e.finding.value], now)
  }

  /** Everything that happened to the findings was noted once, and nothing else. */
  ghost predicate Told(
    was: map<FindingId, Finding>, findings: map<FindingId, Finding>, entries: seq<TimelineEntry>, now: int64)
  {
    && (forall i :: 0 <= i < |entries| ==> EntryTold(entries[i], was, findings, now))
    && (forall id, kind :: id in findings ==>
          Count(entries, id, kind) == if Happens(kind, FindingAt(was, id), findings[id]) then 1 else 0)
  }

  /** The places of all retained records. */
  function Places(windows: map<WindowKey, seq<Retained>>): set<(WindowKey, nat)> {
    set k, j | k in windows && 0 <= j < |windows[k]| :: (k, j)
  }

  class FindingLedger {
    const limits: Limits
    var revision: nat
    var timelineSequence: nat
    var baselines: map<Text, Baseline>
    var windows: map<WindowKey, seq<Retained>>
    var findings: map<FindingId, Finding>
    var streaks: map<FindingId, nat>
    var timeline: seq<TimelineEntry>
    var suppressionsActive: nat
    var suppressionsExpired: nat

    function Contents(): Store
      reads this
    {
      Store(baselines, windows, findings, streaks)
    }

    ghost predicate Valid()
      reads this
    {
      Lifecycle(Contents()) && Rising(timeline, timelineSequence)
    }

    constructor (limits: Limits)
      ensures Valid() && Contents() == Store(map[], map[], map[], map[]) && this.limits == limits
      ensures timeline == [] && timelineSequence == 0 && revision == 0
    {
      this.limits := limits;
      revision, timelineSequence, timeline, suppressionsActive, suppressionsExpired := 0, 0, [], 0, 0;
      baselines, windows, findings, streaks := map[], map[], map[], map[];
    }

    // ----- the global timeline

    method AppendTimeline(kind: EventKind, target: Text, item: Text, finding: Option<FindingId>, at: int64, after: State)
      requires Rising(timeline, timelineSequence)
      modifies this`timeline, this`timelineSequence
      ensures Rising(timeline, timelineSequence) && timelineSequence == old(timelineSequence) + 1
      ensures timeline == old(timeline) + [TimelineEntry(timelineSequence, kind, target, item, finding, at, after)]
    {
      timelineSequence := timelineSequence + 1;
      timeline := timeline + [TimelineEntry(timelineSequence, kind, target, item, finding, at, after)];
    }

    method Note(kind: EventKind, f: Finding, at: int64)
      requires Rising(timeline, timelineSequence)
      modifies this`timeline, this`timelineSequence
      ensures Rising(timeline, timelineSequence) && timelineSequence == old(timelineSequence) + 1
      ensures timeline == old(timeline) + [EventOf(kind, f, at, timelineSequence)]
    {
      AppendTimeline(kind, f.id.target, f.id.objectId, Some(f.id), at, f.state);
    }

    method TrimTimeline()
      requires Rising(timeline, timelineSequence)
      modifies this`timeline
      ensures Rising(timeline, timelineSequence) && |timeline| <= limits.maxTimeline
      ensures |timeline| <= |old(timeline)| && timeline == old(timeline)[|old(timeline)| - |timeline|..]
      ensures |timeline| == if |old(timeline)| > limits.maxTimeline then limits.maxTimeline else |old(timeline)|
    {
      if |timeline| > limits.maxTimeline {
        timeline := timeline[|timeline| - limits.maxTimeline..];
      }
    }

    /** An event of its own, within the bound at once. */
    method RecordEvent(kind: EventKind, target: Text, item: Text, at: int64, after: State)
      requires Rising(timeline, timelineSequence)
      modifies this`timeline, this`timelineSequence, this`revision
      ensures Rising(timeline, timelineSequence) && |timeline| <= limits.maxTimeline
      ensures timelineSequence == old(timelineSequence) + 1 && revision == old(revision) + 1
      ensures
        var all := old(timeline) + [TimelineEntry(timelineSequence, kind, target, item, None, at, after)];
        |timeline| <= |all| && timeline == all[|all| - |timeline|..]
      ensures |old(timeline)| < limits.maxTimeline ==> |timeline| == |old(timeline)| + 1
    {
      hide Rising;
      AppendTimeline(kind, target, item, None, at, after);
      TrimTimeline();
      revision := revision + 1;
    }

    // ----- intent

    method CommitIntent(d: Document, now: int64, validation: Result<()>) returns (r: Result<Commit>)
      requires Valid()
      modifies this`baselines, this`findings, this`timeline, this`timelineSequence, this`revision
      ensures Valid()
      ensures validation.Err? ==> r == Err(validation.reason) && Contents() == old(Contents())
      ensures validation.Ok? ==>
        && r == Ok(ScreenIntent(old(Contents()), d, limits.maxTargets))
        && Contents() == LedgerState.CommitIntent(old(Contents()), d, now, limits.maxTargets)
      ensures revision == old(revision) + if r.Ok? && r.value.Accepted? then 1 else 0
      ensures !(r.Ok? && r.value.Accepted?) ==> timeline == old(timeline)
      ensures r.Ok? && r.value.Accepted? ==>
        && old(timeline) <= timeline && |timeline| == |old(timeline)| + |Moved(old(Contents()), d)| + 1
        && Reports(timeline[|old(timeline)|..|timeline| - 1], Moved(old(Contents()), d), findings, now, RebaseKind)
        && timeline[|timeline| - 1]
           == TimelineEntry(timelineSequence, if d.target in old(baselines) then EventRebased else EventCreated, d.target,
                            TARGET_SCOPE, None, now, Open)
    {
      hide Lifecycle, RebaseAll, Rebased, ReportedIn, Rising, Moves;
      ghost var n := |timeline|;
      if validation.Err? { return Err(validation.reason); }
      CommitLifecycle(Contents(), d, now, limits.maxTargets);
      if d.target !in baselines {
        if |baselines| >= limits.maxTargets { return Ok(CommitRefused(LimitObjectsExceeded)); }
        baselines := baselines[d.target := BaselineOf(d, now)];
        AppendTimeline(EventCreated, d.target, TARGET_SCOPE, None, now, Open);
        revision := revision + 1;
        assert timeline[n..|timeline| - 1] == [];
        return Ok(Accepted);
      }
      var existing := baselines[d.target];
      if d.epoch < existing.epoch { return Ok(CommitRefused(FencedStaleEpoch)); }
      if d.generation < existing.generation { return Ok(CommitRefused(IntentGenerationRegressed)); }
      if d.generation == existing.generation {
        if d == existing.content { return Ok(DuplicateIdentical); }
        return Ok(CommitRefused(IntentGenerationConflicting));
      }
      baselines := baselines[d.target := BaselineOf(d, now)];
      RebaseFindingsForTarget(d, now);
      ghost var moved := timeline[n..];
      AppendTimeline(EventRebased, d.target, TARGET_SCOPE, None, now, Open);
      assert timeline[n..|timeline| - 1] == moved;
      revision := revision + 1;
      return Ok(Accepted);
    }

    method RebaseFindingsForTarget(d: Document, now: int64)
      requires Rising(timeline, timelineSequence) && d.target in baselines
      modifies this`findings, this`timeline, this`timelineSequence
      ensures Rising(timeline, timelineSequence)
      ensures findings == RebaseAll(old(findings), d, now)
      ensures old(timeline) <= timeline
      ensures Reports(timeline[|old(timeline)|..], Moved(old(Contents()), d), findings, now, RebaseKind)
    {
      hide Rising, Walked, Reports, RebaseWalk, RebaseAll, Rebased, Moves, Moved;
      ghost var start, trail, walk := findings, Trail([], {}), RebaseWalk(findings, d, now);
      var pending := findings.Keys;
      RebaseStarts(start, d, now);
      while pending != {}
        invariant Rising(timeline, timelineSequence) && timeline == old(timeline) + trail.entries
        invariant pending <= findings.Keys && Walked(walk, findings, pending, trail)
        decreases |pending|
      {
        var id :| id in pending;
        var f := RebaseFinding(findings[id], d, now);
        trail := RebaseStep(start, d, now, findings, pending, trail, id, timelineSequence, f);
        pending := pending - {id};
        findings := findings[id := f];
      }
      RebaseEnds(old(Contents()), d, now, findings, trail);
      assert timeline[|old(timeline)|..] == trail.entries;
    }

    method RebaseFinding(f: Finding, d: Document, now: int64) returns (g: Finding)
      requires Rising(timeline, timelineSequence)
      modifies this`timeline, this`timelineSequence
      ensures Rising(timeline, timelineSequence) && g == Rebased(f, d.target, d.generation, d.objects, now)
      ensures timeline == old(timeline) + if Moves(f, d) then [EventOf(RebaseKind(g), g, now, timelineSequence)] else []
    {
      hide StillManaged, Rising;
      if f.id.target != d.target || !Live(f.state) || f.generation == d.generation { return f; }
      if StillManaged(f, d.objects) {
        g := f.(state := Superseded, reason := FindingRebased, lastEvaluated := now);
        Note(EventRebased, g, now);
      } else {
        g := f.(state := Retired, reason := FindingRetired, lastEvaluated := now);
        Note(EventRetired, g, now);
      }
    }

    // ----- observations

    method RecordObservation(snapshot: Snapshot, verdict: Freshness, recovered: bool, validation: Result<()>)
      returns (r: Result<Admission>)
      requires Valid()
      modifies this`windows, this`revision
      ensures Valid()
      ensures validation.Err? ==> r == Err(validation.reason) && Contents() == old(Contents())
      ensures validation.Ok? ==>
        var record := Retained(snapshot, verdict, recovered);
        && r == Ok(Screen(WindowOf(old(Contents()), WindowKey(snapshot.target, snapshot.source)), snapshot))
        && Contents() == Ingest(old(Contents()), record, limits.maxRetained)
      ensures revision == old(revision) + if r.Ok? && r.value.Stored? then 1 else 0
    {
      hide Lifecycle, Screen, Admit, Rising;
      if validation.Err? { return Err(validation.reason); }
      var record := Retained(snapshot, verdict, recovered);
      IngestLifecycle(Contents(), record, limits.maxRetained);
      var key := WindowKey(snapshot.target, snapshot.source);
      if key !in windows { windows := windows[key := []]; }
      var window, admission := Window.Record(windows[key], record, limits.maxRetained);
      windows := windows[key := window];
      assert windows == old(windows)[key := window];
      if admission.Stored? { revision := revision + 1; }
      return Ok(admission);
    }

    method InvalidateRetainedEvidence(reason: Reason, now: int64) returns (count: nat)
      requires Valid()
      modifies this`windows, this`revision
      ensures Valid() && Contents() == Invalidate(old(Contents()), reason, now)
      ensures count == |Places(old(windows))|
      ensures revision == old(revision) + if count > 0 then 1 else 0
    {
      hide Lifecycle, Rising, InvalidatedWindow, Places;
      InvalidateLifecycle(Contents(), reason, now);
      count := InvalidateWindows(reason, now);
      if count > 0 { revision := revision + 1; }
    }

    method InvalidateWindows(reason: Reason, now: int64) returns (count: nat)
      modifies this`windows
      ensures windows == map k | k in old(windows) :: InvalidatedWindow(old(windows)[k], reason, now)
      ensures count == |Places(old(windows))|
    {
      hide *;
      ghost var start := windows;
      var pending := windows.Keys;
      count := 0;
      SweepStarts(start, reason, now);
      while pending != {}
        invariant pending <= windows.Keys && InvalidatedBut(start, windows, pending, count, reason, now)
        decreases |pending|
      {
        var key :| key in pending;
        SweepAt(start, windows, pending, count, reason, now, key);
        var window := InvalidateWindow(windows[key], reason, now);
        SweepStep(start, windows, pending, count, reason, now, key, window);
        pending := pending - {key};
        count := count + |window|;
        windows := windows[key := window];
      }
      SweepEnds(start, windows, count, reason, now);
    }

    method InvalidateWindow(window: seq<Retained>, reason: Reason, now: int64) returns (w: seq<Retained>)
      ensures w == InvalidatedWindow(window, reason, now) && |w| == |window|
    {
      hide Invalidated;
      w := window;
      for index := 0 to |window|
        invariant |w| == |window|
        invariant forall i :: 0 <= i < index ==> w[i] == Invalidated(window[i], reason, now)
        invariant forall i :: index <= i < |window| ==> w[i] == window[i]
      {
        w := w[index := Invalidated(w[index], reason, now)];
      }
    }

    // ----- operator actions

    /** The changed finding, one event about it, and the next revision. */
    method Settle(id: FindingId, f: Finding, kind: EventKind, now: int64)
      requires Rising(timeline, timelineSequence)
      modifies this`findings, this`timeline, this`timelineSequence, this`revision
      ensures Rising(timeline, timelineSequence) && findings == old(findings)[id := f] && revision == old(revision) + 1
      ensures timeline == old(timeline) + [EventOf(kind, f, now, timelineSequence)]
    {
      hide Rising;
      findings := findings[id := f];
      Note(kind, f, now);
      revision := revision + 1;
    }

    /** What an operator's action leaves in the timeline and the revision. */
    ghost predicate Noted(before: seq<TimelineEntry>, revised: nat, r: Result<()>, kind: EventKind, id: FindingId,
                          now: int64)
      reads this
    {
      if r.Err? then timeline == before && revision == revised
      else
        && id in findings && timeline == before + [EventOf(kind, findings[id], now, timelineSequence)]
        && revision == revised + 1
    }

    method Suppress(id: FindingId, suppressionId: Text, actor: Text, reason: Text, expiresAt: Option<int64>, now: int64)
      returns (r: Result<()>)
      requires Valid()
      modifies this`findings, this`timeline, this`timelineSequence, this`revision, this`suppressionsActive
      ensures Valid() && (Contents(), r) == LedgerState.Suppress(old(Contents()), id, suppressionId, actor, reason,
                                              expiresAt, old(suppressionsActive) < limits.maxSuppressions)
      ensures Noted(old(timeline), old(revision), r, EventSuppressed, id, now)
      ensures suppressionsActive == old(suppressionsActive)
             + if r.Ok? && id in old(findings) && old(findings)[id].suppression.None? then 1 else 0
    {
      hide Lifecycle, ValidActor, BoundedDetail, Rising, EventOf;
      ActionLifecycle(Contents(), Suppressing(id, suppressionId, actor, reason, expiresAt,
                                              suppressionsActive < limits.maxSuppressions));
      if id !in findings { return Err(FindingNotFound); }
      if !ValidActor(actor) { return Err(EncodingMalformed); }
      var f := findings[id];
      if suppressionsActive >= limits.maxSuppressions && f.suppression.None? { return Err(LimitFieldsExceeded); }
      if f.suppression.None? { suppressionsActive := suppressionsActive + 1; }
      f := f.(suppression := Some(suppressionId), origin := ByOperator, suppressedBy := actor,
              suppressionReason := BoundedDetail(reason), expiresAt := expiresAt);
      if Live(f.state) { f := f.(state := Suppressed); }
      Settle(id, f, EventSuppressed, now);
      return Ok(());
    }

    method ClearSuppression(id: FindingId, now: int64) returns (r: Result<()>)
      requires Valid()
      modifies this`findings, this`timeline, this`timelineSequence, this`revision, this`suppressionsActive
      ensures Valid() && (Contents(), r) == LedgerState.ClearSuppression(old(Contents()), id)
      ensures Noted(old(timeline), old(revision), r, EventSuppressionCleared, id, now)
      ensures suppressionsActive == if r.Ok? && old(suppressionsActive) > 0 then old(suppressionsActive) - 1
                                    else old(suppressionsActive)
    {
      hide Lifecycle, Rising, EventOf;
      ActionLifecycle(Contents(), Unsuppressing(id));
      if id !in findings { return Err(SuppressionNotFound); }
      var f := findings[id];
      if f.suppression.None? { return Err(SuppressionNotFound); }
      f := f.(suppression := None, origin := NoOrigin, suppressedBy := [], suppressionReason := [], expiresAt := None);
      if suppressionsActive > 0 { suppressionsActive := suppressionsActive - 1; }
      if f.state.Suppressed? { f := f.(state := if f.acknowledgedBy == [] then Open else Acknowledged); }
      Settle(id, f, EventSuppressionCleared, now);
      return Ok(());
    }

    method Acknowledge(id: FindingId, actor: Text, reason: Text, now: int64) returns (r: Result<()>)
      requires Valid()
      modifies this`findings, this`timeline, this`timelineSequence, this`revision
      ensures Valid() && (Contents(), r) == LedgerState.Acknowledge(old(Contents()), id, actor, reason, now)
      ensures Noted(old(timeline), old(revision), r, EventAcknowledged, id, now)
    {
      hide Lifecycle, ValidActor, BoundedDetail, Rising, EventOf;
      ActionLifecycle(Contents(), Acknowledging(id, actor, reason, now));
      if id !in findings { return Err(FindingNotFound); }
      if !ValidActor(actor) { return Err(EncodingMalformed); }
      var f := findings[id];
      f := f.(acknowledgedBy := actor, acknowledgedAt := now, acknowledgementReason := BoundedDetail(reason));
      if f.state.Open? { f := f.(state := Acknowledged); }
      Settle(id, f, EventAcknowledged, now);
      return Ok(());
    }

    method ClearAcknowledgement(id: FindingId, now: int64) returns (r: Result<()>)
      requires Valid()
      modifies this`findings, this`timeline, this`timelineSequence, this`revision
      ensures Valid() && (Contents(), r) == LedgerState.ClearAcknowledgement(old(Contents()), id)
      ensures Noted(old(timeline), old(revision), r, EventAcknowledgementCleared, id, now)
    {
      hide Lifecycle, Rising, EventOf;
      ActionLifecycle(Contents(), Unacknowledging(id));
      if id !in findings { return Err(FindingNotFound); }
      var f := findings[id];
      if f.acknowledgedBy == [] { return Err(AcknowledgementRecorded); }
      f := f.(acknowledgedBy := [], acknowledgedAt := 0, acknowledgementReason := []);
      if f.state.Acknowledged? { f := f.(state := Open); }
      Settle(id, f, EventAcknowledgementCleared, now);
      return Ok(());
    }

    method ExpireSuppressions(now: int64) returns (expired: nat)
      requires Rising(timeline, timelineSequence)
      modifies this`findings, this`timeline, this`timelineSequence, this`suppressionsActive, this`suppressionsExpired,
               this`revision
      ensures Rising(timeline, timelineSequence) && Contents() == ExpireAll(old(Contents()), now)
      ensures expired == |Due(old(findings), now)| && revision == old(revision) + if expired > 0 then 1 else 0
      ensures suppressionsExpired == old(suppressionsExpired) + expired
      ensures old(timeline) <= timeline
      ensures Reports(timeline[|old(timeline)|..], Due(old(findings), now), findings, now, LapseKind)
    {
      hide Rising, Walked, Reports, LapseWalk, ExpireAll, Lapsed, Due, SuppressionDue;
      ghost var start, trail, walk := findings, Trail([], {}), LapseWalk(findings, now);
      var pending := findings.Keys;
      expired := 0;
      LapseStarts(start, now);
      while pending != {}
        invariant Rising(timeline, timelineSequence) && timeline == old(timeline) + trail.entries
        invariant pending <= findings.Keys && Walked(walk, findings, pending, trail)
        invariant expired == |trail.entries| && revision == old(revision)
        invariant suppressionsExpired == old(suppressionsExpired) + expired
        decreases |pending|
      {
        var id :| id in pending;
        var f, lapsed := ExpireSuppression(findings[id], now);
        trail := LapseStep(start, now, findings, pending, trail, id, timelineSequence, f);
        pending := pending - {id};
        findings := findings[id := f];
        if lapsed { expired := expired + 1; }
      }
      LapseEnds(old(Contents()), now, Contents(), trail);
      assert timeline[|old(timeline)|..] == trail.entries;
      if expired > 0 { revision := revision + 1; }
    }

    method ExpireSuppression(f: Finding, now: int64) returns (g: Finding, lapsed: bool)
      requires Rising(timeline, timelineSequence)
      modifies this`timeline, this`timelineSequence, this`suppressionsActive, this`suppressionsExpired
      ensures Rising(timeline, timelineSequence) && g == Lapsed(f, now) && (lapsed <==> SuppressionDue(f, now))
      ensures timeline == old(timeline) + if lapsed then [EventOf(LapseKind(g), g, now, timelineSequence)] else []
      ensures suppressionsExpired == old(suppressionsExpired) + if lapsed then 1 else 0
    {
      hide Rising, Unsuppressed;
      if f.suppression.None? { return f, false; }
      if f.expiresAt.None? || now < f.expiresAt.value { return f, false; }
      g := Unsuppressed(f);
      if suppressionsActive > 0 { suppressionsActive := suppressionsActive - 1; }
      suppressionsExpired := suppressionsExpired + 1;
      Note(EventSuppressionExpired, g, now);
      lapsed := true;
    }

    // ----- applying an evaluation

    /** Phase one fences every target and bounds the new findings before anything changes;
        phase two applies the accepted targets one by one. `refusedAt` is the target whose
        regrouping is refused by the group envelope, if there is one. */
    method ApplyEvaluation(o: Outcome, policy: ObservatoryPolicy, now: int64, refusedAt: nat) returns (r: Result<()>)
      requires Valid() && CoherentOutcome(o)
      modifies this
      ensures Valid()
      ensures (Contents(), r)
           == LedgerState.ApplyEvaluation(old(Contents()), o, policy, now, limits.maxFindings, refusedAt)
      ensures r == Err(LimitFindingsExceeded) ==> timeline == old(timeline) && revision == old(revision)
      ensures r.Ok? ==> |timeline| <= limits.maxTimeline && revision > old(revision)
    {
      hide Lifecycle, ApplyOne, NewDrafts, NewFindings, CoherentOutcome, Rising, Reports, Due, ExpireAll, Accepts;
      ghost var before := Contents();
      AppliedLifecycle(before, o, policy, now, limits.maxFindings, refusedAt);
      var accepted, created := CountNewFindings(o);
      if |findings| + created > limits.maxFindings {
        return Err(LimitFindingsExceeded);
      }
      for index := 0 to |o.evaluations|
        invariant Contents() == ApplyFirst(before, o, policy, now, index)
        invariant Lifecycle(Contents()) && Rising(timeline, timelineSequence)
        invariant index <= refusedAt || !Stopped(before, o, refusedAt)
        invariant revision == old(revision)
      {
        if !accepted[index] { continue; }
        ApplyTarget(o.evaluations[index], o, policy, now);
        PrefixLifecycle(before, o, policy, now, index + 1);
        if index == refusedAt {
          return Err(LimitObjectsExceeded);
        }
      }
      var _ := ExpireSuppressions(now);
      revision := revision + 1;
      TrimTimeline();
      return Ok(());
    }

    method CountNewFindings(o: Outcome) returns (accepted: seq<bool>, created: nat)
      ensures |accepted| == |o.evaluations|
      ensures forall i :: 0 <= i < |accepted| ==> (accepted[i] <==> Accepts(baselines, o.evaluations[i]))
      ensures created == NewFindings(Contents(), o.evaluations)
    {
      hide Draft.Id;
      accepted, created := [], 0;
      for index := 0 to |o.evaluations|
        invariant |accepted| == index
        invariant forall i :: 0 <= i < index ==> (accepted[i] <==> Accepts(baselines, o.evaluations[i]))
        invariant created == NewFindings(Contents(), o.evaluations[..index])
      {
        assert o.evaluations[..index + 1][..index] == o.evaluations[..index];
        var e := o.evaluations[index];
        if e.hasBaseline {
          if e.target !in baselines || baselines[e.target].generation != e.generation {
            accepted := accepted + [false];
            continue;
          }
        } else if e.target in baselines {
          accepted := accepted + [false];
          continue;
        }
        accepted := accepted + [true];
        ghost var start := created;
        for k := 0 to |e.drafts|
          invariant created == start + NewDrafts(findings, e.drafts[..k])
        {
          assert e.drafts[..k + 1][..k] == e.drafts[..k];
          if e.drafts[k].Id() !in findings { created := created + 1; }
        }
        assert e.drafts[..|e.drafts|] == e.drafts;
      }
      assert o.evaluations[..|o.evaluations|] == o.evaluations;
    }

    method ApplyTarget(e: Evaluation, o: Outcome, policy: ObservatoryPolicy, now: int64)
      requires Lifecycle(Contents()) && Rising(timeline, timelineSequence)
      modifies this`findings, this`streaks, this`timeline, this`timelineSequence
      ensures Rising(timeline, timelineSequence)
      ensures Contents() == ApplyOne(old(Contents()), e, o, policy, now)
      ensures old(timeline) <= timeline && Told(old(findings), findings, timeline[|old(timeline)|..], now)
    {
      hide Rising, DraftMap, Lifecycle, ApplyOne, DraftsApplied, UnseenApplied, Told;
      ghost var before := Contents();
      var drafts := CollectDrafts(e.drafts);
      ghost var entries := ApplyDrafts(e, drafts, o, policy, now);
      var unseen := set id | id in findings && findings[id].id.target == e.target && Live(findings[id].state)
                             && id !in drafts;
      UnseenRemain(before, Contents(), e, drafts, o, policy, now, unseen);
      ghost var more := ResolveUnseen(before, e, drafts, unseen, entries, o, policy, now);
      assert timeline == old(timeline) + more;
      AppliedPointwise(before, Contents(), e, o, policy, now);
    }

    method CollectDrafts(drafts: seq<Draft>) returns (m: map<FindingId, Draft>)
      ensures m == DraftMap(drafts)
    {
      hide Draft.Id;
      m := map[];
      for index := 0 to |drafts|
        invariant m == DraftMap(drafts[..index])
      {
        assert drafts[..index + 1][..index] == drafts[..index];
        if drafts[index].Id() !in m { m := m[drafts[index].Id() := drafts[index]]; }
      }
      assert drafts[..|drafts|] == drafts;
    }

    method ApplyDrafts(e: Evaluation, m: map<FindingId, Draft>, o: Outcome, policy: ObservatoryPolicy, now: int64)
      returns (ghost entries: seq<TimelineEntry>)
      requires Lifecycle(Contents()) && Rising(timeline, timelineSequence)
      requires forall id :: id in m ==> m[id].Id() == id
      modifies this`findings, this`streaks, this`timeline, this`timelineSequence
      ensures Rising(timeline, timelineSequence)
      ensures DraftsApplied(old(Contents()), Contents(), e, m, {}, o, policy, now)
      ensures timeline == old(timeline) + entries && Told(old(findings), findings, entries, now)
    {
      hide Rising, Lifecycle, DraftsApplied, Told, Tells;
      ghost var before := Contents();
      var pending := m.Keys;
      NothingApplied(before, e, m, o, policy, now);
      entries := [];
      NothingTold(findings, now);
      while pending != {}
        invariant pending <= m.Keys && Rising(timeline, timelineSequence)
        invariant DraftsApplied(before, Contents(), e, m, pending, o, policy, now)
        invariant timeline == old(timeline) + entries && Told(before.findings, findings, entries, now)
        decreases |pending|
      {
        var id :| id in pending;
        ghost var between := Contents();
        ghost var added := ApplyDraft(before, id, e, m, pending, o, policy, now);
        DraftStep(before, between, Contents(), e, m, pending, id, o, policy, now);
        ToldStep(before.findings, between.findings, entries, now, id, findings[id], added);
        entries := entries + added;
        pending := pending - {id};
      }
    }

    method ApplyDraft(ghost before: Store, id: FindingId, e: Evaluation, m: map<FindingId, Draft>,
                      ghost pending: set<FindingId>, o: Outcome, policy: ObservatoryPolicy, now: int64)
      returns (ghost added: seq<TimelineEntry>)
      requires Rising(timeline, timelineSequence) && id in m && m[id].Id() == id && id in pending
      requires DraftsApplied(before, Contents(), e, m, pending, o, policy, now)
      requires Lifecycle(before)
      modifies this`findings, this`streaks, this`timeline, this`timelineSequence
      ensures Rising(timeline, timelineSequence)
      ensures findings == old(findings)[id := NextFinding(before, e, m, o, policy, now, id)]
      ensures streaks == if id in before.findings then old(streaks)[id := 0] else old(streaks)
      ensures findings[id].id == id && FindingAt(old(findings), id) == FindingAt(before.findings, id)
      ensures timeline == old(timeline) + added && Tells(added, FindingAt(before.findings, id), findings[id], now)
    {
      hide Rising, Lifecycle, Refreshed, Created, DraftsApplied, Tells;
      Untouched(before, Contents(), e, m, pending, id, o, policy, now);
      if id !in findings {
        added := CreateFinding(id, m[id], e, o, policy, now);
      } else {
        OwnId(before, id);
        added := RefreshFinding(id, m[id], e, o, policy, now);
      }
    }

    method CreateFinding(id: FindingId, d: Draft, e: Evaluation, o: Outcome, policy: ObservatoryPolicy, now: int64)
      returns (ghost added: seq<TimelineEntry>)
      requires Rising(timeline, timelineSequence) && d.Id() == id
      modifies this`findings, this`timeline, this`timelineSequence
      ensures Rising(timeline, timelineSequence) && findings == old(findings)[id := Created(d, e, o, policy, now)]
      ensures findings[id].id == id
      ensures timeline == old(timeline) + added && Tells(added, None, findings[id], now)
    {
      hide Rising, FirstApplying, Tells, TellsOf, Happens;
      var f := Finding(id, d.klass, d.rawClass, d.severity, Open, d.reason, d.generation, d.epoch, d.authority,
                       o.policy, d.intended, d.observed, d.evidence, e.bestFreshness, 1, 0, 0, now, now, now, 0,
                       None, NoOrigin, [], [], None, [], 0, [], d.complianceRelevant);
      var suppression := FindSuppression(policy, d.target, d.objectId, d.path, d.klass, d.severity, now);
      if suppression.Some? {
        var rule := suppression.value;
        f := f.(state := Suppressed, origin := ByPolicy, suppression := Some(rule.id), suppressedBy := rule.author,
                suppressionReason := rule.reason, expiresAt := rule.expiresAt);
        Note(EventSuppressed, f, now);
      } else {
        Note(EventCreated, f, now);
      }
      findings := findings[id := f];
      added := [EventOf(if f.state.Open? then EventCreated else EventSuppressed, f, now, timelineSequence)];
      CreationTells(f, now, timelineSequence);
    }

    method RefreshFinding(id: FindingId, d: Draft, e: Evaluation, o: Outcome, policy: ObservatoryPolicy, now: int64)
      returns (ghost added: seq<TimelineEntry>)
      requires Rising(timeline, timelineSequence) && id in findings && findings[id].id == id
      modifies this`findings, this`streaks, this`timeline, this`timelineSequence
      ensures Rising(timeline, timelineSequence)
      ensures findings == old(findings)[id := Refreshed(old(findings)[id], d, e, o, policy, now)]
      ensures streaks == old(streaks)[id := 0]
      ensures findings[id].id == id
      ensures timeline == old(timeline) + added && Tells(added, Some(old(findings)[id]), findings[id], now)
    {
      hide Rising, FirstApplying, Tells, TellsOf, Happens, EventOf;
      var was := findings[id];
      var f := Observed(was, d, e, o, now);
      var closed := was.state.Resolved? || was.state.Superseded? || was.state.Retired?;
      if closed {
        f := f.(state := Open, resolvedAt := 0, confirmations := 0, reopenCount := f.reopenCount + 1);
      }
      ghost var first := NoteSighting(was, f, now);
      streaks := streaks[id := 0];
      ghost var seen, second := f, [];
      if f.suppression.Some? && f.origin.ByPolicy? {
        var still := FindSuppression(policy, f.id.target, f.id.objectId, f.id.path, f.klass, f.severity, now);
        if still.None? {
          f := Unsuppressed(f);
          Note(EventSuppressionExpired, f, now);
          second := [EventOf(EventSuppressionExpired, f, now, timelineSequence)];
          OwnEvent(EventSuppressionExpired, f, now, timelineSequence);
        }
      }
      findings := findings[id := f];
      added := first + second;
      RefreshTells(was, seen, f, now, first, second);
    }

    /** Drift that returns is reopened; drift that only changed is updated. */
    method NoteSighting(was: Finding, f: Finding, now: int64) returns (ghost first: seq<TimelineEntry>)
      requires Rising(timeline, timelineSequence)
      modifies this`timeline, this`timelineSequence
      ensures Rising(timeline, timelineSequence) && timeline == old(timeline) + first
      ensures if !Live(was.state) then |first| == 1 && Reported(first[0], f, now, EventReopened)
              else if Differs(was, f) then |first| == 1 && Reported(first[0], f, now, EventUpdated)
              else first == []
    {
      hide Rising;
      if was.state.Resolved? || was.state.Superseded? || was.state.Retired? {
        Note(EventReopened, f, now);
      } else if f.severity != was.severity || f.freshness != was.freshness || f.observed != was.observed {
        Note(EventUpdated, f, now);
      }
      first := timeline[|old(timeline)|..];
    }

    method ResolveUnseen(ghost before: Store, e: Evaluation, m: map<FindingId, Draft>, unseen: set<FindingId>,
                         ghost told: seq<TimelineEntry>, o: Outcome, policy: ObservatoryPolicy, now: int64)
      returns (ghost entries: seq<TimelineEntry>)
      requires Told(before.findings, findings, told, now)
      requires Rising(timeline, timelineSequence) && Lifecycle(before)
      requires forall id :: id in m ==> m[id].Id() == id
      requires forall id :: id in unseen <==> Unseen(before, e, m, id)
      requires UnseenApplied(before, Contents(), e, m, unseen, o, policy, now)
      modifies this`findings, this`streaks, this`timeline, this`timelineSequence
      ensures Rising(timeline, timelineSequence)
      ensures UnseenApplied(before, Contents(), e, m, {}, o, policy, now)
      ensures told <= entries && timeline == old(timeline) + entries[|told|..]
      ensures Told(before.findings, findings, entries, now)
    {
      hide Rising, Lifecycle, UnseenApplied, Unseen, Told, Tells;
      var pending := unseen;
      entries := told;
      while pending != {}
        invariant pending <= unseen && Rising(timeline, timelineSequence)
        invariant UnseenApplied(before, Contents(), e, m, pending, o, policy, now)
        invariant told <= entries && timeline == old(timeline) + entries[|told|..]
        invariant Told(before.findings, findings, entries, now)
        decreases |pending|
      {
        var id :| id in pending;
        ghost var between := Contents();
        StillThere(before, between, e, m, pending, id, o, policy, now);
        assert forall i :: i in pending ==> Unseen(before, e, m, i) && i !in m by { NoneDrafted(before, e, m, pending); }
        assert Live(before.findings[id].state) by { WasLive(before, e, m, id); }
        ghost var added := ResolveOne(before, id, e, m, pending, o, policy, now);
        ResolveStep(before, between, Contents(), e, m, pending, id, o, policy, now);
        ToldStep(before.findings, between.findings, entries, now, id, findings[id], added);
        entries := entries + added;
        pending := pending - {id};
      }
    }

    method ResolveOne(ghost before: Store, id: FindingId, e: Evaluation, m: map<FindingId, Draft>,
                      ghost pending: set<FindingId>, o: Outcome, policy: ObservatoryPolicy, now: int64)
      returns (ghost added: seq<TimelineEntry>)
      requires Rising(timeline, timelineSequence) && Lifecycle(before)
      requires UnseenApplied(before, Contents(), e, m, pending, o, policy, now)
      requires id in pending && Unseen(before, e, m, id) && id in findings && forall i :: i in pending ==> i !in m
      requires findings[id] == before.findings[id] && Streak(Contents(), id) == Streak(before, id)
      requires forall i :: i in m ==> m[i].Id() == i
      modifies this`findings, this`streaks, this`timeline, this`timelineSequence
      ensures Rising(timeline, timelineSequence)
      ensures findings == old(findings)[id := NextFinding(before, e, m, o, policy, now, id)]
      ensures streaks == if Counts(before, e, m, id) then old(streaks)[id := NextStreak(before, e, m, id)] else old(streaks)
      ensures findings[id].id == id
      ensures timeline == old(timeline) + added && Tells(added, Some(before.findings[id]), findings[id], now)
    {
      hide Rising, Lifecycle, UnseenApplied, Reexplained, Agreed, Live, Tells, TellsOf, Happens, EventOf;
      var f := findings[id];
      OwnId(before, id);
      WasLive(before, e, m, id);
      added := [];
      if !e.decidable {
        assert findings == findings[id := f];
        ClosingTells(before.findings[id], f, now, added, EventResolved);
        return;
      }
      DraftedInPlace(before, Contents(), e, m, pending, o, policy, now);
      var reclassified := exists other :: (
        && other in m && other in findings && findings[other].id.objectId == f.id.objectId
        && findings[other].id.path == f.id.path && findings[other].generation == f.generation);
      SameExplanation(findings, f, m);
      if reclassified {
        f := f.(state := Superseded, reason := FindingReclassified, lastEvaluated := now);
        Note(EventReclassified, f, now);
        findings := findings[id := f];
        added := [EventOf(EventReclassified, f, now, timelineSequence)];
        OwnEvent(EventReclassified, f, now, timelineSequence);
        ClosingTells(before.findings[id], f, now, added, EventReclassified);
        return;
      }
      added := CountAgreement(id, o, now);
    }

    method CountAgreement(id: FindingId, o: Outcome, now: int64)
      returns (ghost added: seq<TimelineEntry>)
      requires Rising(timeline, timelineSequence) && id in findings && findings[id].id == id && Live(findings[id].state)
      modifies this`findings, this`streaks, this`timeline, this`timelineSequence
      ensures Rising(timeline, timelineSequence)
      ensures
        var streak := (Streak(old(Contents()), id) + 1) % UINT32;
        streaks == old(streaks)[id := streak] && findings == old(findings)[id := Agreed(old(findings)[id], streak, o, now)]
      ensures findings[id].id == id
      ensures timeline == old(timeline) + added && Tells(added, Some(old(findings)[id]), findings[id], now)
    {
      hide Rising, Tells;
      var f := findings[id];
      var streak := ((if id in streaks then streaks[id] else 0) + 1) % UINT32;
      streaks := streaks[id := streak];
      f := f.(confirmations := streak);
      var required := if o.confirmations == 0 then 1 else o.confirmations;
      if streak >= required {
        f := f.(state := Resolved, reason := FindingResolved, resolvedAt := now, lastEvaluated := now);
        Note(EventResolved, f, now);
      }
      findings := findings[id := f];
      added := timeline[|old(timeline)|..];
      ClosingTells(old(findings)[id], f, now, added, EventResolved);
    }
  }

  // ----- events of one target's application

  lemma {:induction false} CountConcat(a: seq<TimelineEntry>, b: seq<TimelineEntry>, id: FindingId, kind: EventKind)
    ensures Count(a + b, id, kind) == Count(a, id, kind) + Count(b, id, kind)
    decreases |b|
  {
    if b == [] {
      assert a + b == a;
    } else {
      var k := |b| - 1;
      assert (a + b)[..|a + b| - 1] == a + b[..k];
      CountConcat(a, b[..k], id, kind);
    }
  }

  lemma {:induction false} CountNone(entries: seq<TimelineEntry>, id: FindingId, kind: EventKind)
    requires forall i :: 0 <= i < |entries| ==> entries[i].finding != Some(id)
    ensures Count(entries, id, kind) == 0
    decreases |entries|
  {
    if entries != [] {
      CountNone(entries[..|entries| - 1], id, kind);
    }
  }

  lemma {:induction false} CountSome(entries: seq<TimelineEntry>, i: nat, id: FindingId)
    requires i < |entries| && entries[i].finding == Some(id)
    ensures Count(entries, id, entries[i].kind) > 0
    decreases |entries|
  {
    if i < |entries| - 1 {
      CountSome(entries[..|entries| - 1], i, id);
    }
  }

  lemma NothingTold(findings: map<FindingId, Finding>, now: int64)
    ensures Told(findings, findings, [], now)
  {}

  /** A finding that nothing has happened to yet is not in the entries. */
  lemma NotTold(was: map<FindingId, Finding>, mid: map<FindingId, Finding>, entries: seq<TimelineEntry>, now: int64,
                id: FindingId, i: nat)
    requires Told(was, mid, entries, now) && FindingAt(mid, id) == FindingAt(was, id) && i < |entries|
    ensures entries[i].finding != Some(id)
  {
    hide TellsOf;
    assert EntryTold(entries[i], was, mid, now);
    if entries[i].finding == Some(id) {
      CountSome(entries, i, id);
      WasCounted(was, mid, entries, now, id, entries[i].kind);
    }
  }

  lemma ToldStep(was: map<FindingId, Finding>, mid: map<FindingId, Finding>, entries: seq<TimelineEntry>, now: int64,
                 id: FindingId, f: Finding, added: seq<TimelineEntry>)
    requires Told(was, mid, entries, now) && FindingAt(mid, id) == FindingAt(was, id) && f.id == id
    requires Tells(added, FindingAt(was, id), f, now)
    ensures Told(was, mid[id := f], entries + added, now)
  {
    hide Happens, TellsOf, Told;
    var next, more := mid[id := f], entries + added;
    forall i | 0 <= i < |more|
      ensures EntryTold(more[i], was, next, now)
    {
      if i < |entries| {
        NotTold(was, mid, entries, now, id, i);
        WasTold(was, mid, entries, now, i);
      } else {
        assert TellsOf(added[i - |entries|], FindingAt(was, id), f, now);
        OfFinding(added[i - |entries|], FindingAt(was, id), f, now);
      }
    }
    forall other, kind | other in next
      ensures Count(more, other, kind) == if Happens(kind, FindingAt(was, other), next[other]) then 1 else 0
    {
      CountConcat(entries, added, other, kind);
      if other == id {
        forall i | 0 <= i < |entries|
          ensures entries[i].finding != Some(id)
        {
          NotTold(was, mid, entries, now, id, i);
        }
        CountNone(entries, id, kind);
      } else {
        forall i | 0 <= i < |added|
          ensures added[i].finding != Some(other)
        {
          OfFinding(added[i], FindingAt(was, id), f, now);
        }
        CountNone(added, other, kind);
        WasCounted(was, mid, entries, now, other, kind);
      }
    }
    AllTold(was, next, more, now);
  }

  lemma OfFinding(e: TimelineEntry, was: Option<Finding>, f: Finding, now: int64)
    requires TellsOf(e, was, f, now)
    ensures e.finding == Some(f.id)
  {}

  lemma WasTold(was: map<FindingId, Finding>, mid: map<FindingId, Finding>, entries: seq<TimelineEntry>, now: int64, i: nat)
    requires Told(was, mid, entries, now) && i < |entries|
    ensures EntryTold(entries[i], was, mid, now)
  {}

  lemma WasCounted(was: map<FindingId, Finding>, mid: map<FindingId, Finding>, entries: seq<TimelineEntry>, now: int64,
                   id: FindingId, kind: EventKind)
    requires Told(was, mid, entries, now) && id in mid
    ensures Count(entries, id, kind) == if Happens(kind, FindingAt(was, id), mid[id]) then 1 else 0
  {}

  lemma AllTold(was: map<FindingId, Finding>, next: map<FindingId, Finding>, more: seq<TimelineEntry>, now: int64)
    requires forall i :: 0 <= i < |more| ==> EntryTold(more[i], was, next, now)
    requires forall id, kind :: id in next ==>
               Count(more, id, kind) == if Happens(kind, FindingAt(was, id), next[id]) then 1 else 0
    ensures Told(was, next, more, now)
  {}

  /** No entry, one entry, or a change followed by the end of a suppression. */
  lemma TellsNothing(was: Option<Finding>, f: Finding, now: int64)
    requires forall kind :: !Happens(kind, was, f)
    ensures Tells([], was, f, now)
  {}

  lemma TellsOne(e: TimelineEntry, was: Option<Finding>, f: Finding, now: int64)
    requires TellsOf(e, was, f, now) && forall kind :: Happens(kind, was, f) <==> kind == e.kind
    ensures Tells([e], was, f, now)
  {
    hide Happens;
    forall kind
      ensures Count([e], f.id, kind) == if kind == e.kind then 1 else 0
    {
      assert [e][..0] == [];
    }
  }

  lemma TellsTwo(d: TimelineEntry, e: TimelineEntry, was: Option<Finding>, f: Finding, now: int64)
    requires TellsOf(d, was, f, now) && TellsOf(e, was, f, now) && d.kind != e.kind
    requires forall kind :: Happens(kind, was, f) <==> kind == d.kind || kind == e.kind
    ensures Tells([d] + [e], was, f, now)
  {
    hide Happens;
    forall kind
      ensures Count([d] + [e], f.id, kind) == if kind == d.kind || kind == e.kind then 1 else 0
    {
      CountConcat([d], [e], f.id, kind);
      assert [d][..0] == [] && [e][..0] == [];
    }
  }

  lemma CreationTells(f: Finding, now: int64, sequence: nat)
    requires f.state.Open? || f.state.Suppressed?
    ensures Tells([EventOf(if f.state.Open? then EventCreated else EventSuppressed, f, now, sequence)], None, f, now)
  {
    TellsOne(EventOf(if f.state.Open? then EventCreated else EventSuppressed, f, now, sequence), None, f, now);
  }

  /** What a refreshed finding shows of its observation, before a suppression can end. */
  predicate Seen(was: Finding, seen: Finding) {
    && seen.id == was.id && seen.suppression == was.suppression
    && if Live(was.state) then seen.state == was.state else seen.state.Open?
  }

  predicate Differs(was: Finding, f: Finding) {
    f.severity != was.severity || f.freshness != was.freshness || f.observed != was.observed
  }

  lemma RefreshTells(was: Finding, seen: Finding, f: Finding, now: int64, first: seq<TimelineEntry>,
                     second: seq<TimelineEntry>)
    requires Seen(was, seen)
    requires if !Live(was.state) then |first| == 1 && Reported(first[0], seen, now, EventReopened)
             else if Differs(was, seen) then |first| == 1 && Reported(first[0], seen, now, EventUpdated)
             else first == []
    requires if second == [] then f == seen
             else && |second| == 1 && Reported(second[0], f, now, EventSuppressionExpired)
                  && seen.suppression.Some? && f == Unsuppressed(seen)
    ensures Tells(first + second, Some(was), f, now)
  {
    hide Tells;
    if first == [] && second == [] {
      TellsNothing(Some(was), f, now);
    } else if first == [] {
      assert first + second == [second[0]];
      TellsOne(second[0], Some(was), f, now);
    } else if second == [] {
      assert first + second == [first[0]];
      TellsOne(first[0], Some(was), f, now);
    } else {
      assert first == [first[0]] && second == [second[0]];
      TellsTwo(first[0], second[0], Some(was), f, now);
    }
  }

  /** A live finding that was not drafted: nothing is seen of it unless it closes. */
  lemma ClosingTells(was: Finding, f: Finding, now: int64, added: seq<TimelineEntry>, kind: EventKind)
    requires Live(was.state) && f.id == was.id && f.suppression == was.suppression && !Differs(was, f)
    requires if f.state == was.state then added == []
             else && |added| == 1 && Reported(added[0], f, now, kind)
                  && (if f.state.Superseded? then kind.EventReclassified? else f.state.Resolved? && kind.EventResolved?)
    ensures Tells(added, Some(was), f, now)
  {
    hide Tells;
    if added == [] {
      TellsNothing(Some(was), f, now);
    } else {
      assert added == [added[0]];
      TellsOne(added[0], Some(was), f, now);
    }
  }

  lemma WasLive(s: Store, e: Evaluation, m: map<FindingId, Draft>, id: FindingId)
    requires Unseen(s, e, m, id)
    ensures id in s.findings && Live(s.findings[id].state)
  {}

  lemma OwnId(s: Store, id: FindingId)
    requires Lifecycle(s) && id in s.findings
    ensures s.findings[id].id == id && Sound(s.findings[id], id)
  {
    assert Kept(s, id);
  }

  // ----- events for many findings

  lemma NothingReported(findings: map<FindingId, Finding>, at: int64, kindOf: Finding -> EventKind)
    ensures Reports([], {}, findings, at, kindOf)
  {}

  lemma ReportsMore(entries: seq<TimelineEntry>, ids: set<FindingId>, findings: map<FindingId, Finding>, at: int64,
                    kindOf: Finding -> EventKind, id: FindingId, f: Finding, sequence: nat)
    requires Reports(entries, ids, findings, at, kindOf) && id !in ids
    ensures Reports(entries + [EventOf(kindOf(f), f, at, sequence)], ids + {id}, findings[id := f], at, kindOf)
  {
    hide EventOf;
    var e := EventOf(kindOf(f), f, at, sequence);
    var more, grown := entries + [e], findings[id := f];
    assert Reported(e, f, at, kindOf(f)) by { OwnEvent(kindOf(f), f, at, sequence); }
    forall i | i in ids + {id} ensures ReportedIn(more, grown[i], at, kindOf(grown[i])) {
      if i == id {
        assert more[|entries|] == e;
      } else {
        var j :| 0 <= j < |entries| && Reported(entries[j], findings[i], at, kindOf(findings[i]));
        assert more[j] == entries[j];
      }
    }
  }

  lemma OwnEvent(kind: EventKind, f: Finding, at: int64, sequence: nat)
    ensures Reported(EventOf(kind, f, at, sequence), f, at, kind)
  {}

  lemma ReportsElse(entries: seq<TimelineEntry>, ids: set<FindingId>, findings: map<FindingId, Finding>, at: int64,
                    kindOf: Finding -> EventKind, id: FindingId, f: Finding)
    requires Reports(entries, ids, findings, at, kindOf) && id !in ids
    ensures Reports(entries, ids, findings[id := f], at, kindOf)
  {
    hide ReportedIn;
  }

  /** The entries written so far and the findings they are about. */
  datatype Trail = Trail(entries: seq<TimelineEntry>, ids: set<FindingId>)

  /** A pass over all findings: what it makes of each, and which of them it reports. */
  datatype Walk = Walk(start: map<FindingId, Finding>, at: int64, kindOf: Finding -> EventKind,
                       change: Finding -> Finding, moves: Finding -> bool)

  /** Every finding outside `pending` is changed, and reported if it moved. */
  ghost predicate Walked(w: Walk, findings: map<FindingId, Finding>, pending: set<FindingId>, trail: Trail) {
    && findings.Keys == w.start.Keys && trail.ids <= w.start.Keys - pending
    && (forall id :: id in findings ==> findings[id] == if id in pending then w.start[id] else w.change(w.start[id]))
    && (forall id :: id in w.start && id !in pending ==> (id in trail.ids <==> w.moves(w.start[id])))
    && Reports(trail.entries, trail.ids, findings, w.at, w.kindOf)
  }

  lemma WalkStarts(w: Walk)
    ensures Walked(w, w.start, w.start.Keys, Trail([], {}))
  {
    NothingReported(w.start, w.at, w.kindOf);
  }

  lemma WalkStep(w: Walk, findings: map<FindingId, Finding>, pending: set<FindingId>, trail: Trail, id: FindingId,
                 sequence: nat, f: Finding) returns (next: Trail)
    requires Walked(w, findings, pending, trail) && id in pending && pending <= findings.Keys
    requires f == w.change(findings[id])
    ensures Walked(w, findings[id := f], pending - {id}, next)
    ensures next.entries == trail.entries + if w.moves(findings[id]) then [EventOf(w.kindOf(f), f, w.at, sequence)] else []
  {
    hide Reports, EventOf;
    if w.moves(findings[id]) {
      next := Trail(trail.entries + [EventOf(w.kindOf(f), f, w.at, sequence)], trail.ids + {id});
      ReportsMore(trail.entries, trail.ids, findings, w.at, w.kindOf, id, f, sequence);
    } else {
      next := trail;
      ReportsElse(trail.entries, trail.ids, findings, w.at, w.kindOf, id, f);
    }
  }

  lemma WalkEnds(w: Walk, findings: map<FindingId, Finding>, trail: Trail)
    requires Walked(w, findings, {}, trail)
    ensures findings.Keys == w.start.Keys && forall id :: id in w.start ==> findings[id] == w.change(w.start[id])
    ensures forall id :: id in trail.ids <==> id in w.start && w.moves(w.start[id])
    ensures Reports(trail.entries, trail.ids, findings, w.at, w.kindOf) && |trail.entries| == |trail.ids|
  {
    hide ReportedIn;
  }

  function RebaseWalk(start: map<FindingId, Finding>, d: Document, now: int64): Walk {
    Walk(start, now, RebaseKind, f => Rebased(f, d.target, d.generation, d.objects, now), f => Moves(f, d))
  }

  lemma RebaseStarts(start: map<FindingId, Finding>, d: Document, now: int64)
    ensures Walked(RebaseWalk(start, d, now), start, start.Keys, Trail([], {}))
  {
    hide Walked;
    WalkStarts(RebaseWalk(start, d, now));
  }

  lemma RebaseStep(start: map<FindingId, Finding>, d: Document, now: int64, findings: map<FindingId, Finding>,
                   pending: set<FindingId>, trail: Trail, id: FindingId, sequence: nat, f: Finding)
    returns (next: Trail)
    requires Walked(RebaseWalk(start, d, now), findings, pending, trail) && id in pending && pending <= findings.Keys
    requires f == Rebased(findings[id], d.target, d.generation, d.objects, now)
    ensures Walked(RebaseWalk(start, d, now), findings[id := f], pending - {id}, next)
    ensures next.entries
         == trail.entries + if Moves(findings[id], d) then [EventOf(RebaseKind(f), f, now, sequence)] else []
  {
    hide Walked, Rebased, Moves, EventOf, RebaseKind;
    next := WalkStep(RebaseWalk(start, d, now), findings, pending, trail, id, sequence, f);
  }

  lemma RebaseEnds(s: Store, d: Document, now: int64, findings: map<FindingId, Finding>, trail: Trail)
    requires Walked(RebaseWalk(s.findings, d, now), findings, {}, trail) && d.target in s.baselines
    ensures findings == RebaseAll(s.findings, d, now)
    ensures Reports(trail.entries, Moved(s, d), findings, now, RebaseKind)
  {
    hide Walked, Rebased, Moves, Reports;
    WalkEnds(RebaseWalk(s.findings, d, now), findings, trail);
    assert trail.ids == Moved(s, d);
  }

  function LapseWalk(start: map<FindingId, Finding>, now: int64): Walk {
    Walk(start, now, LapseKind, f => Lapsed(f, now), f => SuppressionDue(f, now))
  }

  lemma LapseStarts(start: map<FindingId, Finding>, now: int64)
    ensures Walked(LapseWalk(start, now), start, start.Keys, Trail([], {}))
  {
    hide Walked;
    WalkStarts(LapseWalk(start, now));
  }

  lemma LapseStep(start: map<FindingId, Finding>, now: int64, findings: map<FindingId, Finding>, pending: set<FindingId>,
                  trail: Trail, id: FindingId, sequence: nat, f: Finding)
    returns (next: Trail)
    requires Walked(LapseWalk(start, now), findings, pending, trail) && id in pending && pending <= findings.Keys
    requires f == Lapsed(findings[id], now)
    ensures Walked(LapseWalk(start, now), findings[id := f], pending - {id}, next)
    ensures next.entries
         == trail.entries + if SuppressionDue(findings[id], now) then [EventOf(LapseKind(f), f, now, sequence)] else []
  {
    hide Walked, Lapsed, SuppressionDue, EventOf, LapseKind;
    next := WalkStep(LapseWalk(start, now), findings, pending, trail, id, sequence, f);
  }

  lemma LapseEnds(s: Store, now: int64, t: Store, trail: Trail)
    requires Walked(LapseWalk(s.findings, now), t.findings, {}, trail) && t == s.(findings := t.findings)
    ensures t == ExpireAll(s, now) && |trail.entries| == |Due(s.findings, now)|
    ensures Reports(trail.entries, Due(s.findings, now), t.findings, now, LapseKind)
  {
    hide Walked, Lapsed, SuppressionDue, Reports;
    WalkEnds(LapseWalk(s.findings, now), t.findings, trail);
    assert trail.ids == Due(s.findings, now);
  }

  // ----- counting records

  function PlacesOf(windows: map<WindowKey, seq<Retained>>, keys: set<WindowKey>): set<(WindowKey, nat)> {
    set k, j | k in windows && k in keys && 0 <= j < |windows[k]| :: (k, j)
  }

  lemma NoPlaces(windows: map<WindowKey, seq<Retained>>)
    ensures PlacesOf(windows, {}) == {}
  {}

  lemma AllPlaces(windows: map<WindowKey, seq<Retained>>)
    ensures PlacesOf(windows, windows.Keys) == Places(windows)
  {}

  lemma {:induction false} FirstPlaces(key: WindowKey, n: nat)
    ensures |set j | 0 <= j < n :: (key, j)| == n
  {
    var s := set j | 0 <= j < n :: (key, j);
    if n > 0 {
      FirstPlaces(key, n - 1);
      assert s == (set j | 0 <= j < n - 1 :: (key, j)) + {(key, n - 1)};
    }
  }

  lemma MorePlaces(windows: map<WindowKey, seq<Retained>>, keys: set<WindowKey>, key: WindowKey)
    requires key in windows && key !in keys
    ensures |PlacesOf(windows, keys + {key})| == |PlacesOf(windows, keys)| + |windows[key]|
  {
    var here := set j | 0 <= j < |windows[key]| :: (key, j);
    FirstPlaces(key, |windows[key]|);
    assert PlacesOf(windows, keys + {key}) == PlacesOf(windows, keys) + here;
  }

  /** Exactly the windows outside `pending` are invalidated, and their records counted. */
  predicate InvalidatedBut(start: map<WindowKey, seq<Retained>>, windows: map<WindowKey, seq<Retained>>,
                           pending: set<WindowKey>, count: nat, reason: Reason, now: int64)
  {
    && windows.Keys == start.Keys && count == |PlacesOf(start, start.Keys - pending)|
    && forall k :: k in windows ==>
         windows[k] == if k in pending then start[k] else InvalidatedWindow(start[k], reason, now)
  }

  lemma SweepStarts(start: map<WindowKey, seq<Retained>>, reason: Reason, now: int64)
    ensures InvalidatedBut(start, start, start.Keys, 0, reason, now)
  {
    hide InvalidatedWindow;
    NoPlaces(start);
    assert start.Keys - start.Keys == {};
  }

  lemma SweepAt(start: map<WindowKey, seq<Retained>>, windows: map<WindowKey, seq<Retained>>, pending: set<WindowKey>,
                count: nat, reason: Reason, now: int64, key: WindowKey)
    requires InvalidatedBut(start, windows, pending, count, reason, now) && key in pending && key in windows
    ensures key in start && windows[key] == start[key]
  {
    hide InvalidatedWindow, PlacesOf;
  }

  lemma SweepStep(start: map<WindowKey, seq<Retained>>, windows: map<WindowKey, seq<Retained>>, pending: set<WindowKey>,
                  count: nat, reason: Reason, now: int64, key: WindowKey, window: seq<Retained>)
    requires InvalidatedBut(start, windows, pending, count, reason, now) && key in pending && key in start
    requires window == InvalidatedWindow(start[key], reason, now) && |window| == |start[key]|
    ensures InvalidatedBut(start, windows[key := window], pending - {key}, count + |window|, reason, now)
  {
    hide InvalidatedWindow, PlacesOf;
    MorePlaces(start, start.Keys - pending, key);
    assert start.Keys - (pending - {key}) == start.Keys - pending + {key};
  }

  lemma SweepEnds(start: map<WindowKey, seq<Retained>>, windows: map<WindowKey, seq<Retained>>, count: nat, reason: Reason,
                  now: int64)
    requires InvalidatedBut(start, windows, {}, count, reason, now)
    ensures windows == map k | k in start :: InvalidatedWindow(start[k], reason, now)
    ensures count == |Places(start)|
  {
    hide InvalidatedWindow, PlacesOf, Places;
    AllPlaces(start);
    assert start.Keys - {} == start.Keys;
  }

  // ----- the state half way through a target

  ghost predicate AsBefore(before: Store, s: Store, id: FindingId) {
    && (id in s.findings <==> id in before.findings) && (id in s.findings ==> s.findings[id] == before.findings[id])
    && (id in s.streaks <==> id in before.streaks) && (id in s.streaks ==> s.streaks[id] == before.streaks[id])
  }

  ghost predicate AsApplied(before: Store, s: Store, e: Evaluation, m: map<FindingId, Draft>, o: Outcome,
                            policy: ObservatoryPolicy, now: int64, id: FindingId)
  {
    && (id in s.findings <==> id in before.findings || id in m)
    && (id in s.findings ==> s.findings[id] == NextFinding(before, e, m, o, policy, now, id))
    && (id in s.streaks <==> id in before.streaks || StreakTouched(before, e, m, id))
    && (id in s.streaks ==> s.streaks[id] == NextStreak(before, e, m, id))
  }

  ghost predicate At(before: Store, s: Store, e: Evaluation, m: map<FindingId, Draft>, applied: set<FindingId>,
                     o: Outcome, policy: ObservatoryPolicy, now: int64, id: FindingId)
  {
    if id in applied then AsApplied(before, s, e, m, o, policy, now, id) else AsBefore(before, s, id)
  }

  /** Exactly the drafts outside `pending` have been applied. */
  ghost predicate DraftsApplied(before: Store, s: Store, e: Evaluation, m: map<FindingId, Draft>, pending: set<FindingId>,
                                o: Outcome, policy: ObservatoryPolicy, now: int64)
  {
    && s.baselines == before.baselines && s.windows == before.windows
    && forall id :: At(before, s, e, m, m.Keys - pending, o, policy, now, id)
  }

  ghost predicate Done(before: Store, s: Store, e: Evaluation, m: map<FindingId, Draft>, pending: set<FindingId>,
                       o: Outcome, policy: ObservatoryPolicy, now: int64, id: FindingId)
  {
    if id in pending then AsBefore(before, s, id) else AsApplied(before, s, e, m, o, policy, now, id)
  }

  /** Everything but the unseen findings in `pending` is as the evaluation leaves it. */
  ghost predicate UnseenApplied(before: Store, s: Store, e: Evaluation, m: map<FindingId, Draft>, pending: set<FindingId>,
                                o: Outcome, policy: ObservatoryPolicy, now: int64)
  {
    && s.baselines == before.baselines && s.windows == before.windows
    && forall id :: Done(before, s, e, m, pending, o, policy, now, id)
  }

  lemma NothingApplied(before: Store, e: Evaluation, m: map<FindingId, Draft>, o: Outcome, policy: ObservatoryPolicy,
                       now: int64)
    ensures DraftsApplied(before, before, e, m, m.Keys, o, policy, now)
  {
    hide AsApplied;
  }

  lemma Untouched(before: Store, s: Store, e: Evaluation, m: map<FindingId, Draft>, pending: set<FindingId>, id: FindingId,
                  o: Outcome, policy: ObservatoryPolicy, now: int64)
    requires DraftsApplied(before, s, e, m, pending, o, policy, now) && id in pending
    ensures id in s.findings <==> id in before.findings
    ensures id in before.findings ==> s.findings[id] == before.findings[id]
    ensures AsBefore(before, s, id)
  {
    hide AsApplied;
    assert At(before, s, e, m, m.Keys - pending, o, policy, now, id);
  }

  /** The step changes the finding and the streak of one identity only. */
  ghost predicate OnlyAt(s: Store, t: Store, id: FindingId, f: Finding, streak: Option<nat>) {
    && t.baselines == s.baselines && t.windows == s.windows && t.findings == s.findings[id := f]
    && t.streaks == if streak.Some? then s.streaks[id := streak.value] else s.streaks
  }

  lemma ElsewhereSame(before: Store, s: Store, t: Store, e: Evaluation, m: map<FindingId, Draft>, o: Outcome,
                      policy: ObservatoryPolicy, now: int64, id: FindingId, f: Finding, streak: Option<nat>, i: FindingId)
    requires OnlyAt(s, t, id, f, streak) && i != id
    ensures AsBefore(before, s, i) ==> AsBefore(before, t, i)
    ensures AsApplied(before, s, e, m, o, policy, now, i) ==> AsApplied(before, t, e, m, o, policy, now, i)
  {
    hide NextFinding, NextStreak, StreakTouched;
  }

  lemma HereApplied(before: Store, s: Store, t: Store, e: Evaluation, m: map<FindingId, Draft>, o: Outcome,
                    policy: ObservatoryPolicy, now: int64, id: FindingId, streak: Option<nat>)
    requires AsBefore(before, s, id) && (id in before.findings || id in m)
    requires OnlyAt(s, t, id, NextFinding(before, e, m, o, policy, now, id), streak)
    requires streak.Some? <==> StreakTouched(before, e, m, id)
    requires streak.Some? ==> streak.value == NextStreak(before, e, m, id)
    requires before.streaks.Keys <= before.findings.Keys
    ensures AsApplied(before, t, e, m, o, policy, now, id)
  {
    hide NextFinding, Counts;
  }

  lemma DraftStep(before: Store, s: Store, t: Store, e: Evaluation, m: map<FindingId, Draft>, pending: set<FindingId>,
                  id: FindingId, o: Outcome, policy: ObservatoryPolicy, now: int64)
    requires DraftsApplied(before, s, e, m, pending, o, policy, now) && id in pending && id in m && Lifecycle(before)
    requires t.baselines == s.baselines && t.windows == s.windows
    requires t.findings == s.findings[id := NextFinding(before, e, m, o, policy, now, id)]
    requires t.streaks == if id in before.findings then s.streaks[id := 0] else s.streaks
    ensures DraftsApplied(before, t, e, m, pending - {id}, o, policy, now)
  {
    hide NextFinding, AsBefore, AsApplied, Kept, WindowKept, BaselineKept;
    var streak := if id in before.findings then Some(0) else None;
    var f := NextFinding(before, e, m, o, policy, now, id);
    Untouched(before, s, e, m, pending, id, o, policy, now);
    HereApplied(before, s, t, e, m, o, policy, now, id, streak);
    forall i ensures At(before, t, e, m, m.Keys - (pending - {id}), o, policy, now, i) {
      assert At(before, s, e, m, m.Keys - pending, o, policy, now, i);
      if i != id { ElsewhereSame(before, s, t, e, m, o, policy, now, id, f, streak, i); }
    }
  }

  lemma NoneDrafted(before: Store, e: Evaluation, m: map<FindingId, Draft>, pending: set<FindingId>)
    requires forall i :: i in pending ==> Unseen(before, e, m, i)
    ensures forall i :: i in pending ==> i !in m
  {}

  lemma SeenUnchanged(before: Store, s: Store, e: Evaluation, m: map<FindingId, Draft>, o: Outcome,
                      policy: ObservatoryPolicy, now: int64, id: FindingId)
    requires AsBefore(before, s, id) && id !in m && !Unseen(before, e, m, id)
    ensures AsApplied(before, s, e, m, o, policy, now, id)
  {
    hide Live, Reexplained;
  }

  lemma UnseenRemain(before: Store, s: Store, e: Evaluation, m: map<FindingId, Draft>, o: Outcome, policy: ObservatoryPolicy,
                     now: int64, unseen: set<FindingId>)
    requires DraftsApplied(before, s, e, m, {}, o, policy, now)
    requires unseen == set id | id in s.findings && s.findings[id].id.target == e.target && Live(s.findings[id].state)
                                && id !in m
    ensures forall id :: id in unseen <==> Unseen(before, e, m, id)
    ensures UnseenApplied(before, s, e, m, unseen, o, policy, now)
  {
    hide AsBefore, AsApplied, Unseen;
    forall id ensures (id in unseen <==> Unseen(before, e, m, id)) && Done(before, s, e, m, unseen, o, policy, now, id) {
      assert At(before, s, e, m, m.Keys - {}, o, policy, now, id);
      UnseenIs(before, s, e, m, id);
      if id !in m && id !in unseen { SeenUnchanged(before, s, e, m, o, policy, now, id); }
    }
  }

  lemma UnseenIs(before: Store, s: Store, e: Evaluation, m: map<FindingId, Draft>, id: FindingId)
    ensures id in m || AsBefore(before, s, id) ==>
      (Unseen(before, e, m, id) <==>
       id in s.findings && s.findings[id].id.target == e.target && Live(s.findings[id].state) && id !in m)
  {
    hide Live;
  }

  lemma StillThere(before: Store, s: Store, e: Evaluation, m: map<FindingId, Draft>, pending: set<FindingId>, id: FindingId,
                   o: Outcome, policy: ObservatoryPolicy, now: int64)
    requires UnseenApplied(before, s, e, m, pending, o, policy, now) && id in pending && Unseen(before, e, m, id)
    ensures AsBefore(before, s, id)
    ensures id in s.findings && s.findings[id] == before.findings[id] && Streak(s, id) == Streak(before, id)
  {
    hide AsApplied;
    assert Done(before, s, e, m, pending, o, policy, now, id);
  }

  lemma DraftedInPlace(before: Store, s: Store, e: Evaluation, m: map<FindingId, Draft>, pending: set<FindingId>,
                       o: Outcome, policy: ObservatoryPolicy, now: int64)
    requires UnseenApplied(before, s, e, m, pending, o, policy, now) && Lifecycle(before)
    requires forall i :: i in m ==> m[i].Id() == i
    requires forall i :: i in pending ==> i !in m
    ensures forall i :: i in m ==> i in s.findings && s.findings[i].id == i && s.findings[i].generation == m[i].generation
  {
    hide NextFinding, NextStreak, StreakTouched, WindowKept, BaselineKept, Kept, AsBefore;
    forall i | i in m
      ensures i in s.findings && s.findings[i].id == i && s.findings[i].generation == m[i].generation
    {
      assert Done(before, s, e, m, pending, o, policy, now, i);
      DraftedIdentity(before, e, m, o, policy, now, i);
    }
  }

  lemma DraftedIdentity(before: Store, e: Evaluation, m: map<FindingId, Draft>, o: Outcome, policy: ObservatoryPolicy,
                        now: int64, id: FindingId)
    requires Lifecycle(before) && id in m && m[id].Id() == id
    ensures
      var f := NextFinding(before, e, m, o, policy, now, id);
      f.id == id && f.generation == m[id].generation
  {
    hide Refreshed, Created, WindowKept, BaselineKept;
    if id in before.findings {
      assert Kept(before, id);
      RefreshedSound(before.findings[id], m[id], e, o, policy, now);
    } else {
      CreatedSound(m[id], e, o, policy, now);
    }
  }

  lemma SameExplanation(findings: map<FindingId, Finding>, f: Finding, m: map<FindingId, Draft>)
    requires forall i :: i in m ==> i in findings && findings[i].id == i && findings[i].generation == m[i].generation
    ensures Reexplained(f, m) <==>
      exists other :: (
        && other in m && other in findings && findings[other].id.objectId == f.id.objectId
        && findings[other].id.path == f.id.path && findings[other].generation == f.generation)
  {}

  lemma ResolveStep(before: Store, s: Store, t: Store, e: Evaluation, m: map<FindingId, Draft>, pending: set<FindingId>,
                    id: FindingId, o: Outcome, policy: ObservatoryPolicy, now: int64)
    requires UnseenApplied(before, s, e, m, pending, o, policy, now) && id in pending && Unseen(before, e, m, id)
    requires Lifecycle(before)
    requires t.baselines == s.baselines && t.windows == s.windows
    requires t.findings == s.findings[id := NextFinding(before, e, m, o, policy, now, id)]
    requires t.streaks == if Counts(before, e, m, id) then s.streaks[id := NextStreak(before, e, m, id)] else s.streaks
    ensures UnseenApplied(before, t, e, m, pending - {id}, o, policy, now)
  {
    hide NextFinding, AsBefore, AsApplied, Kept, WindowKept, BaselineKept, NextStreak, Counts;
    var streak := if Counts(before, e, m, id) then Some(NextStreak(before, e, m, id)) else None;
    var f := NextFinding(before, e, m, o, policy, now, id);
    StillThere(before, s, e, m, pending, id, o, policy, now);
    HereApplied(before, s, t, e, m, o, policy, now, id, streak);
    forall i ensures Done(before, t, e, m, pending - {id}, o, policy, now, i) {
      assert Done(before, s, e, m, pending, o, policy, now, i);
      if i != id { ElsewhereSame(before, s, t, e, m, o, policy, now, id, f, streak, i); }
    }
  }

  lemma AppliedPointwise(before: Store, s: Store, e: Evaluation, o: Outcome, policy: ObservatoryPolicy, now: int64)
    requires UnseenApplied(before, s, e, DraftMap(e.drafts), {}, o, policy, now)
    ensures s == ApplyOne(before, e, o, policy, now)
  {
    hide NextFinding, NextStreak, StreakTouched, DraftMap;
    var m := DraftMap(e.drafts);
    var t := ApplyOne(before, e, o, policy, now);
    forall id
      ensures (id in s.findings <==> id in t.findings) && (id in s.findings ==> s.findings[id] == t.findings[id])
      ensures (id in s.streaks <==> id in t.streaks) && (id in s.streaks ==> s.streaks[id] == t.streaks[id])
    {
      assert Done(before, s, e, m, {}, o, policy, now, id);
      TouchedKnown(before, e, m, id);
    }
    assert s.findings == t.findings;
    assert s.streaks == t.streaks;
  }

  lemma TouchedKnown(s: Store, e: Evaluation, m: map<FindingId, Draft>, id: FindingId)
    ensures StreakTouched(s, e, m, id) ==> id in s.findings
  {}

  // ----- lifecycle along an application

  lemma PrefixLifecycle(s: Store, o: Outcome, policy: ObservatoryPolicy, now: int64, n: nat)
    requires Lifecycle(s) && CoherentOutcome(o) && n <= |o.evaluations|
    ensures Lifecycle(ApplyFirst(s, o, policy, now, n))
  {
    hide Lifecycle, ApplyFirst, CoherentOutcome, ChangesOf;
    ApplyFirstIsRun(s, o, policy, now, n);
    RunKeepsLifecycle(s, ChangesOf(s, o, policy, now, n));
  }

  lemma AppliedLifecycle(s: Store, o: Outcome, policy: ObservatoryPolicy, now: int64, maxFindings: nat, refusedAt: nat)
    requires Lifecycle(s) && CoherentOutcome(o)
    ensures Lifecycle(LedgerState.ApplyEvaluation(s, o, policy, now, maxFindings, refusedAt).0)
  {
    hide Lifecycle, LedgerState.ApplyEvaluation, CoherentOutcome, ApplyChanges;
    ApplyIsRun(s, o, policy, now, maxFindings, refusedAt);
    RunKeepsLifecycle(s, ApplyChanges(s, o, policy, now, maxFindings, refusedAt));
  }
}
