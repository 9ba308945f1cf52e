/** Saving a ledger as records with textual stamps and paths, and restoring it
    conservatively: nothing restored is current evidence. */
module Recovery {
  import opened Core
  import opened Values
  import opened Domain
  import opened Identity
  import opened Window
  import opened Findings
  import opened LedgerState
  import opened Stamps
  import Ledger
  import Paths

  type Event = Ledger.TimelineEntry

  datatype Capacity = Capacity(
    maxTargets: nat, maxFindings: nat, maxRetained: nat, maxRefs: nat, maxHistory: nat, maxTimeline: nat,
    paths: Paths.Limits)

  /** A ledger with what only persistence needs: the findings' histories and the counters. */
  datatype Book = Book(
    store: Store, histories: map<FindingId, seq<Event>>, timeline: seq<Event>, sequence: nat, revision: nat)

  // ----- records: stamps and paths are texts, `rest` holds the members written as they are

  datatype SavedEvent = SavedEvent(at: Text, rest: Event)
  datatype SavedRef = SavedRef(collectedAt: Text, receivedAt: Text, rest: EvidenceRef)
  datatype SavedSnapshot = SavedSnapshot(collectedAt: Text, rest: Snapshot)
  datatype SavedBaseline = SavedBaseline(committedAt: Text, rest: Baseline)
  datatype SavedFinding = SavedFinding(
    target: Text, objectId: Text, path: Text, qualifier: Qualifier,
    firstSeen: Text, lastSeen: Text, lastEvaluated: Text, resolvedAt: Text, expiresAt: Text, acknowledgedAt: Text,
    evidence: seq<SavedRef>, history: seq<SavedEvent>, rest: Finding)

  datatype Payload = Payload(
    revision: nat, sequence: nat, baselines: seq<SavedBaseline>, observations: seq<SavedSnapshot>,
    findings: seq<SavedFinding>, timeline: seq<SavedEvent>)

  // ----- encoding

  function Each<S, T>(f: S -> T, s: seq<S>): (r: seq<T>)
    ensures |r| == |s| && forall i :: 0 <= i < |s| ==> r[i] == f(s[i])
  {
    seq(|s|, i requires 0 <= i < |s| => f(s[i]))
  }

  function SaveEvent(e: Event): SavedEvent { SavedEvent(FormatTime(e.at), e.(at := 0)) }

  function SaveRef(r: EvidenceRef): SavedRef {
    SavedRef(FormatTime(r.snapshot.collectedAt), FormatTime(r.snapshot.receivedAt),
             r.(snapshot := r.snapshot.(collectedAt := 0, receivedAt := 0)))
  }

  /** The receive time is not part of an observation document. */
  function SaveSnapshot(s: Snapshot): SavedSnapshot {
    SavedSnapshot(FormatTime(s.collectedAt), s.(collectedAt := 0, receivedAt := 0))
  }

  function SaveBaseline(b: Baseline): SavedBaseline { SavedBaseline(FormatTime(b.committedAt), b.(committedAt := 0)) }

  /** The members written as they are. */
  function Plain(f: Finding): Finding {
    f.(firstSeen := 0, lastSeen := 0, lastEvaluated := 0, resolvedAt := 0, expiresAt := None, acknowledgedAt := 0,
       evidence := [])
  }

  function SaveFinding(f: Finding, history: seq<Event>): SavedFinding {
    SavedFinding(f.id.target, f.id.objectId, Paths.ToText(f.id.path), f.id.qualifier,
                 FormatTime(f.firstSeen), FormatTime(f.lastSeen), FormatTime(f.lastEvaluated), FormatTime(f.resolvedAt),
                 if f.expiresAt.Some? then FormatTime(f.expiresAt.value) else [], FormatTime(f.acknowledgedAt),
                 Each(SaveRef, f.evidence), Each(SaveEvent, history), Plain(f))
  }

  /** The orders in which the maps are walked; they depend on the keys only. */
  datatype Walk = Walk(targets: seq<Text>, keys: seq<WindowKey>, ids: seq<FindingId>)

  ghost predicate Lists<K(!new)>(s: seq<K>, keys: set<K>) {
    && (forall i, j :: 0 <= i < j < |s| ==> s[i] != s[j])
    && (forall k :: k in keys <==> k in s)
  }

  ghost predicate Walks(b: Book, w: Walk) {
    && Lists(w.targets, b.store.baselines.Keys) && Lists(w.keys, b.store.windows.Keys)
    && Lists(w.ids, b.store.findings.Keys) && b.histories.Keys == b.store.findings.Keys
  }

  /** A finding with its history, in the order of the walk. */
  datatype Entry = Entry(finding: Finding, history: seq<Event>)

  function SaveEntry(e: Entry): SavedFinding { SaveFinding(e.finding, e.history) }

  function SaveRetained(r: Retained): SavedSnapshot { SaveSnapshot(r.snapshot) }

  function SaveWindows(windows: seq<Pair<WindowKey, seq<Retained>>>): seq<SavedSnapshot> {
    if windows == [] then []
    else SaveWindows(windows[..|windows| - 1]) + Each(SaveRetained, windows[|windows| - 1].value)
  }

  ghost function Baselines(b: Book, w: Walk): (r: seq<Baseline>)
    requires Walks(b, w)
    ensures |r| == |w.targets|
    ensures forall i :: 0 <= i < |r| ==> w.targets[i] in b.store.baselines && r[i] == b.store.baselines[w.targets[i]]
  {
    seq(|w.targets|, i requires 0 <= i < |w.targets| => b.store.baselines[w.targets[i]])
  }

  ghost function Windows(b: Book, w: Walk): (r: seq<Pair<WindowKey, seq<Retained>>>)
    requires Walks(b, w)
    ensures |r| == |w.keys|
    ensures forall i :: 0 <= i < |r| ==> w.keys[i] in b.store.windows && r[i] == Pair(w.keys[i], b.store.windows[w.keys[i]])
  {
    seq(|w.keys|, i requires 0 <= i < |w.keys| => Pair(w.keys[i], b.store.windows[w.keys[i]]))
  }

  ghost function Entries(b: Book, w: Walk): (r: seq<Entry>)
    requires Walks(b, w)
    ensures |r| == |w.ids|
    ensures forall i :: 0 <= i < |r| ==> EntryIs(b, w.ids[i], r[i])
  {
    seq(|w.ids|, i requires 0 <= i < |w.ids| => Entry(b.store.findings[w.ids[i]], b.histories[w.ids[i]]))
  }

  predicate EntryIs(b: Book, id: FindingId, e: Entry) {
    id in b.store.findings && id in b.histories && e == Entry(b.store.findings[id], b.histories[id])
  }

  ghost function Saved(b: Book, w: Walk): Payload
    requires Walks(b, w)
  {
    Payload(b.revision, b.sequence, Each(SaveBaseline, Baselines(b, w)), SaveWindows(Windows(b, w)),
            Each(SaveEntry, Entries(b, w)), Each(SaveEvent, b.timeline))
  }

  // ----- decoding records

  function LoadAll<S, T>(f: S -> Option<T>, s: seq<S>): (r: Option<seq<T>>)
    ensures r.Some? ==> |r.value| == |s| && forall i :: 0 <= i < |s| ==> f(s[i]) == Some(r.value[i])
    ensures r.None? ==> exists i :: 0 <= i < |s| && f(s[i]).None?
  {
    if s == [] then Some([])
    else
      var before, last := LoadAll(f, s[..|s| - 1]), f(s[|s| - 1]);
      if before.None? || last.None? then None else Some(before.value + [last.value])
  }

  function LoadEvent(e: SavedEvent): Option<Event> {
    if Parsed(e.at).None? then None else Some(e.rest.(at := Parsed(e.at).value))
  }

  function LoadRef(r: SavedRef): Option<EvidenceRef> {
    if Parsed(r.collectedAt).None? || Parsed(r.receivedAt).None? then None
    else Some(r.rest.(snapshot := r.rest.snapshot.(collectedAt := Parsed(r.collectedAt).value,
                                                   receivedAt := Parsed(r.receivedAt).value)))
  }

  function LoadSnapshot(s: SavedSnapshot): Option<Snapshot> {
    if Parsed(s.collectedAt).None? || s.rest.ttl < 0 || !ValidIdentity(s.rest.source) || !ValidIdentity(s.rest.target)
    then None
    else Some(s.rest.(collectedAt := Parsed(s.collectedAt).value, receivedAt := 0))
  }

  function LoadBaseline(b: SavedBaseline): Option<Baseline> {
    if Parsed(b.committedAt).None? || !ValidIdentity(b.rest.target) then None
    else Some(b.rest.(committedAt := Parsed(b.committedAt).value))
  }

  /** An absent stamp is the default instant. */
  function LoadStamp(text: Text): Option<int64> { if text == [] then Some(0) else Parsed(text) }

  predicate StampsLoad(s: SavedFinding) {
    && LoadStamp(s.firstSeen).Some? && LoadStamp(s.lastSeen).Some? && LoadStamp(s.lastEvaluated).Some?
    && LoadStamp(s.resolvedAt).Some? && LoadStamp(s.expiresAt).Some? && LoadStamp(s.acknowledgedAt).Some?
  }

  /** The identity is recomputed from the identity members and must be the stored one. */
  predicate IdentityAgrees(s: SavedFinding, paths: Paths.Limits) {
    && ValidIdentity(s.target) && ValidIdentity(s.objectId) && Paths.Parsed(s.path, paths).Some?
    && s.rest.id == FindingId(s.target, s.objectId, Paths.Parsed(s.path, paths).value, s.rest.klass, s.rest.generation,
                              s.qualifier)
  }

  function LoadFinding(s: SavedFinding, capacity: Capacity): Option<(Finding, seq<Event>)> {
    if !IdentityAgrees(s, capacity.paths) || s.rest.confirmations >= UINT32 || !StampsLoad(s)
       || |s.evidence| > capacity.maxRefs || |s.history| > capacity.maxHistory
       || LoadAll(LoadRef, s.evidence).None? || LoadAll(LoadEvent, s.history).None?
    then None
    else
      Some((s.rest.(firstSeen := LoadStamp(s.firstSeen).value, lastSeen := LoadStamp(s.lastSeen).value,
                    lastEvaluated := LoadStamp(s.lastEvaluated).value, resolvedAt := LoadStamp(s.resolvedAt).value,
                    expiresAt := if s.expiresAt == [] then None else Some(LoadStamp(s.expiresAt).value),
                    acknowledgedAt := LoadStamp(s.acknowledgedAt).value,
                    evidence := LoadAll(LoadRef, s.evidence).value),
            LoadAll(LoadEvent, s.history).value))
  }

  // ----- restoring into a ledger

  const NEVER_FRESH: Freshness := Freshness(RecoveredNotFresh, EvidenceRecoveredNotFresh, 0, 0, false, false)

  function RestoredRecord(s: Snapshot): Retained { Retained(s, NEVER_FRESH, true) }

  function RestoreObservation(windows: map<WindowKey, seq<Retained>>, s: Snapshot, limit: nat)
    : map<WindowKey, seq<Retained>>
  {
    var key := WindowKey(s.target, s.source);
    var window := if key in windows then windows[key] else [];
    windows[key := (if window != [] && |window| >= limit then window[1..] else window) + [RestoredRecord(s)]]
  }

  function RestoreObservations(list: seq<SavedSnapshot>, limit: nat): Option<map<WindowKey, seq<Retained>>> {
    if list == [] then Some(map[])
    else
      var before, last := RestoreObservations(list[..|list| - 1], limit), LoadSnapshot(list[|list| - 1]);
      if before.None? || last.None? then None else Some(RestoreObservation(before.value, last.value, limit))
  }

  function RestoreBaselines(list: seq<SavedBaseline>, maxTargets: nat): Option<map<Text, Baseline>> {
    if list == [] then Some(map[])
    else
      var before, last := RestoreBaselines(list[..|list| - 1], maxTargets), LoadBaseline(list[|list| - 1]);
      if before.None? || last.None? then None
      else if |before.value| >= maxTargets && last.value.target !in before.value then None
      else Some(before.value[last.value.target := last.value])
  }

  /** Restored findings, their histories, and the timeline counter. */
  datatype Part = Part(findings: map<FindingId, Finding>, histories: map<FindingId, seq<Event>>, sequence: nat)

  /** A live finding whose evidence was current when it was saved. */
  predicate Pending(f: Finding) { Live(f.state) && !f.freshness.RecoveredNotFresh? }

  function RecoveryEvent(f: Finding, sequence: nat): Event {
    Ledger.TimelineEntry(sequence, Ledger.EventEvidenceRecovered, f.id.target, f.id.objectId, Some(f.id),
                         f.lastEvaluated, f.state)
  }

  function Recent<T>(s: seq<T>, limit: nat): seq<T> { if |s| > limit then s[|s| - limit..] else s }

  function Remembered(f: Finding, history: seq<Event>, sequence: nat, maxHistory: nat): seq<Event> {
    Recent(if Pending(f) then history + [RecoveryEvent(f, sequence)] else history, maxHistory)
  }

  function RestoreFinding(p: Part, f: Finding, history: seq<Event>, capacity: Capacity): Option<Part> {
    if |p.findings| >= capacity.maxFindings && f.id !in p.findings then None
    else
      var sequence := if Pending(f) then p.sequence + 1 else p.sequence;
      Some(Part(p.findings[f.id := f.(freshness := RecoveredNotFresh)],
                p.histories[f.id := Remembered(f, history, sequence, capacity.maxHistory)], sequence))
  }

  function RestoreFindings(list: seq<SavedFinding>, sequence: nat, capacity: Capacity): Option<Part> {
    if list == [] then Some(Part(map[], map[], sequence))
    else
      var before := RestoreFindings(list[..|list| - 1], sequence, capacity);
      var last := LoadFinding(list[|list| - 1], capacity);
      if before.None? || last.None? then None
      else RestoreFinding(before.value, last.value.0, last.value.1, capacity)
  }

  function Decoded(p: Payload, capacity: Capacity): Option<Book> {
    var baselines := RestoreBaselines(p.baselines, capacity.maxTargets);
    var windows := RestoreObservations(p.observations, capacity.maxRetained);
    var part := RestoreFindings(p.findings, p.sequence, capacity);
    var timeline := LoadAll(LoadEvent, p.timeline);
    if baselines.None? || windows.None? || |p.findings| > capacity.maxFindings || part.None?
       || |p.timeline| > capacity.maxTimeline || timeline.None?
    then None
    else Some(Book(Store(baselines.value, windows.value, part.value.findings, map[]), part.value.histories,
                   timeline.value, part.value.sequence, p.revision))
  }
}
