/** What restoring a saved ledger gives, and when saving and restoring is a fixed point. */
module RecoveryResults {
  import opened Core
  import opened Domain
  import opened Identity
  import opened Window
  import opened Findings
  import opened LedgerState
  import opened Stamps
  import opened Recovery
  import Paths

  // ----- one record written and read

  function RereadEvent(e: Event): Event { e.(at := ReadBack(e.at)) }

  function RereadRef(r: EvidenceRef): EvidenceRef {
    r.(snapshot := r.snapshot.(collectedAt := ReadBack(r.snapshot.collectedAt),
                               receivedAt := ReadBack(r.snapshot.receivedAt)))
  }

  function RereadSnapshot(s: Snapshot): Snapshot { s.(collectedAt := ReadBack(s.collectedAt), receivedAt := 0) }

  function RereadBaseline(b: Baseline): Baseline { b.(committedAt := ReadBack(b.committedAt)) }

  function RereadFinding(f: Finding): Finding {
    f.(firstSeen := ReadBack(f.firstSeen), lastSeen := ReadBack(f.lastSeen), lastEvaluated := ReadBack(f.lastEvaluated),
       resolvedAt := ReadBack(f.resolvedAt),
       expiresAt := if f.expiresAt.Some? then Some(ReadBack(f.expiresAt.value)) else None,
       acknowledgedAt := ReadBack(f.acknowledgedAt), evidence := Each(RereadRef, f.evidence))
  }

  /** What the decoder asks of a finding; a live ledger's history may be over its bound. */
  predicate SavableFinding(f: Finding, history: seq<Event>, capacity: Capacity) {
    && ValidIdentity(f.id.target) && ValidIdentity(f.id.objectId)
    && Paths.Parsed(Paths.ToText(f.id.path), capacity.paths) == Some(f.id.path)
    && f.klass == f.id.klass && f.generation == f.id.generation && f.confirmations < UINT32
    && |f.evidence| <= capacity.maxRefs && |history| <= capacity.maxHistory
  }

  predicate SavableSnapshot(s: Snapshot) { s.ttl >= 0 && ValidIdentity(s.source) && ValidIdentity(s.target) }

  lemma EventBack(e: Event)
    ensures LoadEvent(SaveEvent(e)) == Some(RereadEvent(e))
  {
    hide FormatTime, Parsed;
    StampBack(e.at);
  }

  lemma RefBack(r: EvidenceRef)
    ensures LoadRef(SaveRef(r)) == Some(RereadRef(r))
  {
    hide FormatTime, Parsed;
    StampBack(r.snapshot.collectedAt);
    StampBack(r.snapshot.receivedAt);
  }

  lemma SnapshotBack(s: Snapshot)
    ensures LoadSnapshot(SaveSnapshot(s)) == if SavableSnapshot(s) then Some(RereadSnapshot(s)) else None
  {
    hide FormatTime, Parsed, ValidIdentity;
    StampBack(s.collectedAt);
  }

  lemma BaselineBack(b: Baseline)
    ensures LoadBaseline(SaveBaseline(b)) == if ValidIdentity(b.target) then Some(RereadBaseline(b)) else None
  {
    hide FormatTime, Parsed, ValidIdentity;
    StampBack(b.committedAt);
  }

  lemma {:induction false} LoadsAll<S, T>(f: S -> Option<T>, s: seq<S>, t: seq<T>)
    requires |s| == |t| && forall i :: 0 <= i < |s| ==> f(s[i]) == Some(t[i])
    ensures LoadAll(f, s) == Some(t)
  {
    if LoadAll(f, s).Some? {
      var r := LoadAll(f, s).value;
      assert forall i :: 0 <= i < |s| ==> f(s[i]) == Some(r[i]);
      assert r == t;
    }
  }

  lemma EventsBack(es: seq<Event>)
    ensures LoadAll(LoadEvent, Each(SaveEvent, es)) == Some(Each(RereadEvent, es))
  {
    hide LoadAll, LoadEvent, SaveEvent, RereadEvent;
    forall i | 0 <= i < |es| ensures LoadEvent(Each(SaveEvent, es)[i]) == Some(Each(RereadEvent, es)[i]) {
      EventBack(es[i]);
    }
    LoadsAll(LoadEvent, Each(SaveEvent, es), Each(RereadEvent, es));
  }

  lemma RefsBack(rs: seq<EvidenceRef>)
    ensures LoadAll(LoadRef, Each(SaveRef, rs)) == Some(Each(RereadRef, rs))
  {
    hide LoadAll, LoadRef, SaveRef, RereadRef;
    forall i | 0 <= i < |rs| ensures LoadRef(Each(SaveRef, rs)[i]) == Some(Each(RereadRef, rs)[i]) {
      RefBack(rs[i]);
    }
    LoadsAll(LoadRef, Each(SaveRef, rs), Each(RereadRef, rs));
  }

  /** A finding comes back exactly when its identity members, counts and sizes
      pass, and then with only its stamps reread. */
  lemma FindingBack(f: Finding, history: seq<Event>, capacity: Capacity)
    ensures LoadFinding(SaveFinding(f, history), capacity)
         == if SavableFinding(f, history, capacity) then Some((RereadFinding(f), Each(RereadEvent, history))) else None
  {
    hide FormatTime, Parsed, ValidIdentity, Paths.Parsed, Paths.ToText, Each, LoadAll, LoadEvent, LoadRef, SaveRef,
         SaveEvent, RereadEvent, RereadRef, ReadBack;
    EventsBack(history);
    RefsBack(f.evidence);
    StampBack(f.firstSeen);
    StampBack(f.lastSeen);
    StampBack(f.lastEvaluated);
    StampBack(f.resolvedAt);
    StampBack(f.acknowledgedAt);
    if f.expiresAt.Some? {
      StampBack(f.expiresAt.value);
    }
  }

  // ----- a whole ledger written and read

  /** Every record sits under its own key. */
  predicate Keyed(b: Book) {
    && (forall t :: t in b.store.baselines ==> b.store.baselines[t].target == t)
    && (forall k :: k in b.store.windows ==> KeyedWindow(k, b.store.windows[k]))
    && (forall id :: id in b.store.findings ==> b.store.findings[id].id == id)
  }

  predicate KeyedWindow(k: WindowKey, w: seq<Retained>) {
    forall i :: 0 <= i < |w| ==> WindowKey(w[i].snapshot.target, w[i].snapshot.source) == k
  }

  predicate SavableWindow(w: seq<Retained>) { forall i :: 0 <= i < |w| ==> SavableSnapshot(w[i].snapshot) }

  predicate Bounded(b: Book, capacity: Capacity) {
    forall k :: k in b.store.windows ==> |b.store.windows[k]| <= capacity.maxRetained
  }

  function RestoredWindow(w: seq<Retained>): (r: seq<Retained>)
    ensures |r| == |w|
  {
    seq(|w|, i requires 0 <= i < |w| => RestoredRecord(RereadSnapshot(w[i].snapshot)))
  }

  function RestoredFinding(f: Finding): Finding { RereadFinding(f).(freshness := RecoveredNotFresh) }

  // ----- findings, in the order of the walk

  predicate SavableEntry(e: Entry, capacity: Capacity) { SavableFinding(e.finding, e.history, capacity) }

  function PendingCount(entries: seq<Entry>): nat {
    if entries == [] then 0
    else PendingCount(entries[..|entries| - 1]) + if Pending(entries[|entries| - 1].finding) then 1 else 0
  }

  /** The history of the i-th finding: one more event, with a sequence number
      of its own, if the finding was live on current evidence. */
  function RestoredHistory(entries: seq<Entry>, i: nat, sequence: nat, maxHistory: nat): seq<Event>
    requires i < |entries|
  {
    Remembered(RereadFinding(entries[i].finding), Each(RereadEvent, entries[i].history),
               sequence + PendingCount(entries[..i + 1]), maxHistory)
  }

  predicate Distinct(entries: seq<Entry>) {
    forall i, j :: 0 <= i < j < |entries| ==> entries[i].finding.id != entries[j].finding.id
  }

  predicate PartIs(entries: seq<Entry>, k: nat, sequence: nat, p: Part, maxHistory: nat)
    requires k <= |entries|
  {
    && |p.findings| == k && p.histories.Keys == p.findings.Keys
    && p.sequence == sequence + PendingCount(entries[..k])
    && (forall id :: id in p.findings ==> Listed(entries, k, id))
    && (forall i :: 0 <= i < k ==> PartAt(entries, i, sequence, p, maxHistory))
  }

  predicate Listed(entries: seq<Entry>, k: nat, id: FindingId)
    requires k <= |entries|
  {
    exists i :: 0 <= i < k && entries[i].finding.id == id
  }

  predicate PartAt(entries: seq<Entry>, i: nat, sequence: nat, p: Part, maxHistory: nat)
    requires i < |entries|
  {
    var id := entries[i].finding.id;
    && id in p.findings && id in p.histories && p.findings[id] == RestoredFinding(entries[i].finding)
    && p.histories[id] == RestoredHistory(entries, i, sequence, maxHistory)
  }

  lemma {:induction false} FindingsBack(entries: seq<Entry>, k: nat, sequence: nat, capacity: Capacity)
    requires k <= |entries| <= capacity.maxFindings && Distinct(entries)
    requires forall i :: 0 <= i < |entries| ==> SavableEntry(entries[i], capacity)
    ensures
      var r := RestoreFindings(Each(SaveEntry, entries)[..k], sequence, capacity);
      r.Some? && PartIs(entries, k, sequence, r.value, capacity.maxHistory)
  {
    hide SaveFinding, LoadFinding, SavableFinding, PartAt, RestoreFinding, Distinct, RestoreFindings;
    var list := Each(SaveEntry, entries);
    if k == 0 {
      NoFindings(list[..0], sequence, capacity);
      assert entries[..0] == [];
    } else {
      FindingsBack(entries, k - 1, sequence, capacity);
      FindingBack(entries[k - 1].finding, entries[k - 1].history, capacity);
      var p := RestoreFindings(list[..k - 1], sequence, capacity).value;
      PartGrows(entries, k - 1, sequence, p, capacity);
      OneMore(list, k - 1, sequence, capacity);
    }
  }

  lemma NoFindings(list: seq<SavedFinding>, sequence: nat, capacity: Capacity)
    requires list == []
    ensures RestoreFindings(list, sequence, capacity) == Some(Part(map[], map[], sequence))
  {}

  lemma OneMore(list: seq<SavedFinding>, k: nat, sequence: nat, capacity: Capacity)
    requires k < |list|
    ensures
      var before, last := RestoreFindings(list[..k], sequence, capacity), LoadFinding(list[k], capacity);
      RestoreFindings(list[..k + 1], sequence, capacity)
      == if before.None? || last.None? then None
         else RestoreFinding(before.value, last.value.0, last.value.1, capacity)
  {
    hide LoadFinding, RestoreFinding;
    assert list[..k + 1][..k] == list[..k];
  }

  lemma PartGrows(entries: seq<Entry>, k: nat, sequence: nat, p: Part, capacity: Capacity)
    requires k < |entries| <= capacity.maxFindings && Distinct(entries)
    requires PartIs(entries, k, sequence, p, capacity.maxHistory)
    ensures
      var r := RestoreFinding(p, RereadFinding(entries[k].finding), Each(RereadEvent, entries[k].history), capacity);
      r.Some? && PartIs(entries, k + 1, sequence, r.value, capacity.maxHistory)
  {
    hide RereadFinding, RereadEvent, Each, PartAt, PendingCount, RestoreFinding, RestoredFinding, Listed, Distinct;
    var f := entries[k].finding;
    var r := RestoreFinding(p, RereadFinding(f), Each(RereadEvent, entries[k].history), capacity);
    StepShape(p, f, Each(RereadEvent, entries[k].history), capacity);
    PendingNext(entries, k);
    NewId(entries, k, sequence, p, capacity.maxHistory);
    var q := r.value;
    AllPartsKept(entries, k, sequence, p, q, capacity);
    forall id | id in q.findings ensures Listed(entries, k + 1, id) {
      StillListed(entries, k, id, p);
    }
  }

  lemma StillListed(entries: seq<Entry>, k: nat, id: FindingId, p: Part)
    requires k < |entries| && (id == entries[k].finding.id || Listed(entries, k, id))
    ensures Listed(entries, k + 1, id)
  {}

  lemma AllPartsKept(entries: seq<Entry>, k: nat, sequence: nat, p: Part, q: Part, capacity: Capacity)
    requires k < |entries| && Distinct(entries) && p.sequence == sequence + PendingCount(entries[..k])
    requires forall i :: 0 <= i < k ==> PartAt(entries, i, sequence, p, capacity.maxHistory)
    requires RestoreFinding(p, RereadFinding(entries[k].finding), Each(RereadEvent, entries[k].history), capacity)
          == Some(q)
    requires q.findings == p.findings[entries[k].finding.id := RestoredFinding(entries[k].finding)]
    requires forall id :: id in p.histories && id != entries[k].finding.id ==>
      id in q.histories && q.histories[id] == p.histories[id]
    ensures forall i :: 0 <= i < k + 1 ==> PartAt(entries, i, sequence, q, capacity.maxHistory)
  {
    hide RereadFinding, RereadEvent, Each, PartAt, PendingCount, RestoreFinding, RestoredFinding, Distinct;
    forall i | 0 <= i < k + 1 ensures PartAt(entries, i, sequence, q, capacity.maxHistory) {
      if i < k {
        PartKept(entries, i, k, sequence, p, q, capacity.maxHistory);
      } else {
        PartNew(entries, k, sequence, p, q, capacity);
      }
    }
  }

  lemma NewId(entries: seq<Entry>, k: nat, sequence: nat, p: Part, maxHistory: nat)
    requires k < |entries| && Distinct(entries) && PartIs(entries, k, sequence, p, maxHistory)
    ensures entries[k].finding.id !in p.findings
  {
    hide PartAt, PendingCount;
  }

  lemma StepShape(p: Part, f: Finding, history: seq<Event>, capacity: Capacity)
    requires |p.findings| < capacity.maxFindings && p.histories.Keys == p.findings.Keys
    ensures
      var r := RestoreFinding(p, RereadFinding(f), history, capacity);
      && r.Some? && r.value.findings == p.findings[f.id := RestoredFinding(f)]
      && r.value.histories.Keys == r.value.findings.Keys
      && (forall id :: id in p.histories && id != f.id ==>
            id in r.value.histories && r.value.histories[id] == p.histories[id])
      && r.value.sequence == p.sequence + (if Pending(f) then 1 else 0)
      && (f.id !in p.findings ==> |r.value.findings| == |p.findings| + 1)
  {
    hide RereadFinding, Remembered;
    SameStanding(f);
  }

  lemma SameStanding(f: Finding)
    ensures RereadFinding(f).id == f.id && (Pending(RereadFinding(f)) <==> Pending(f))
  {}

  lemma PendingNext(entries: seq<Entry>, k: nat)
    requires k < |entries|
    ensures PendingCount(entries[..k + 1])
         == PendingCount(entries[..k]) + if Pending(entries[k].finding) then 1 else 0
  {
    assert entries[..k + 1][..k] == entries[..k];
  }

  lemma PartKept(entries: seq<Entry>, i: nat, k: nat, sequence: nat, p: Part, q: Part, maxHistory: nat)
    requires i < k < |entries| && Distinct(entries) && PartAt(entries, i, sequence, p, maxHistory)
    requires forall id :: id in p.findings && id != entries[k].finding.id ==>
      id in q.findings && q.findings[id] == p.findings[id]
    requires forall id :: id in p.histories && id != entries[k].finding.id ==>
      id in q.histories && q.histories[id] == p.histories[id]
    ensures PartAt(entries, i, sequence, q, maxHistory)
  {
    hide RestoredFinding, RestoredHistory;
  }

  lemma PartNew(entries: seq<Entry>, k: nat, sequence: nat, p: Part, q: Part, capacity: Capacity)
    requires k < |entries| && p.sequence == sequence + PendingCount(entries[..k])
    requires RestoreFinding(p, RereadFinding(entries[k].finding), Each(RereadEvent, entries[k].history), capacity)
          == Some(q)
    ensures PartAt(entries, k, sequence, q, capacity.maxHistory)
  {
    hide RereadFinding, RereadEvent, Each, Remembered, PendingCount;
    SameStanding(entries[k].finding);
    PendingNext(entries, k);
  }

  /** A list that restores has only records that load. */
  lemma {:induction false} AllFindingsLoad(list: seq<SavedFinding>, sequence: nat, capacity: Capacity)
    requires RestoreFindings(list, sequence, capacity).Some?
    ensures forall i :: 0 <= i < |list| ==> LoadFinding(list[i], capacity).Some?
  {
    hide LoadFinding, RestoreFinding;
    if list != [] {
      AllFindingsLoad(list[..|list| - 1], sequence, capacity);
      forall i | 0 <= i < |list| ensures LoadFinding(list[i], capacity).Some? {
        assert i < |list| - 1 ==> list[..|list| - 1][i] == list[i];
      }
    }
  }

  // ----- windows

  predicate KeyedItem(x: Pair<WindowKey, seq<Retained>>, limit: nat) {
    KeyedWindow(x.key, x.value) && |x.value| <= limit
  }

  lemma {:induction false} WindowAdds(list: seq<SavedSnapshot>, m: map<WindowKey, seq<Retained>>, key: WindowKey,
                                      w: seq<Retained>, j: nat, limit: nat)
    requires RestoreObservations(list, limit) == Some(m) && key !in m && j <= |w| <= limit
    requires KeyedWindow(key, w) && SavableWindow(w)
    ensures RestoreObservations(list + Each(SaveRetained, w)[..j], limit)
         == Some(if j == 0 then m else m[key := RestoredWindow(w[..j])])
  {
    hide SaveSnapshot, LoadSnapshot, SavableSnapshot, RereadSnapshot, RestoreObservation;
    var saved := Each(SaveRetained, w);
    if j == 0 {
      assert list + saved[..0] == list;
    } else {
      WindowAdds(list, m, key, w, j - 1, limit);
      SnapshotBack(w[j - 1].snapshot);
      var whole := list + saved[..j];
      assert whole[..|whole| - 1] == list + saved[..j - 1] && whole[|whole| - 1] == saved[j - 1];
      RecordAdds(m, key, w, j, limit);
    }
  }

  lemma RecordAdds(m: map<WindowKey, seq<Retained>>, key: WindowKey, w: seq<Retained>, j: nat, limit: nat)
    requires key !in m && 0 < j <= |w| <= limit && KeyedWindow(key, w)
    ensures
      var before := if j == 1 then m else m[key := RestoredWindow(w[..j - 1])];
      RestoreObservation(before, RereadSnapshot(w[j - 1].snapshot), limit) == m[key := RestoredWindow(w[..j])]
  {
    assert RestoredWindow(w[..j])
        == RestoredWindow(w[..j - 1]) + [RestoredRecord(RereadSnapshot(w[j - 1].snapshot))];
    if j == 1 {
      assert RestoredWindow(w[..0]) == [];
    }
  }

  predicate WindowsAre(items: seq<Pair<WindowKey, seq<Retained>>>, k: nat, m: map<WindowKey, seq<Retained>>)
    requires k <= |items|
  {
    && (forall key :: key in m ==> FoundIn(items, k, key))
    && (forall i :: 0 <= i < k ==> RestoredAs(items[i], m))
  }

  predicate FoundIn(items: seq<Pair<WindowKey, seq<Retained>>>, k: nat, key: WindowKey)
    requires k <= |items|
  {
    exists i :: 0 <= i < k && items[i].key == key && items[i].value != []
  }

  /** An empty window is not saved. */
  predicate RestoredAs(x: Pair<WindowKey, seq<Retained>>, m: map<WindowKey, seq<Retained>>) {
    if x.value == [] then x.key !in m else x.key in m && m[x.key] == RestoredWindow(x.value)
  }

  lemma {:induction false} WindowsBack(items: seq<Pair<WindowKey, seq<Retained>>>, k: nat, limit: nat)
    requires k <= |items| && UniqueKeys(items)
    requires forall i :: 0 <= i < |items| ==> KeyedItem(items[i], limit) && SavableWindow(items[i].value)
    ensures
      var r := RestoreObservations(SaveWindows(items[..k]), limit);
      r.Some? && WindowsAre(items, k, r.value)
  {
    hide RestoreObservations, KeyedWindow, SavableWindow, RestoredWindow, SaveRetained, RestoredAs;
    if k == 0 {
      NoObservations(SaveWindows(items[..0]), limit);
    } else {
      WindowsBack(items, k - 1, limit);
      var x := items[k - 1];
      var m := RestoreObservations(SaveWindows(items[..k - 1]), limit).value;
      assert items[..k][..k - 1] == items[..k - 1];
      NewKey(items, k - 1, m);
      WindowAdds(SaveWindows(items[..k - 1]), m, x.key, x.value, |x.value|, limit);
      assert Each(SaveRetained, x.value)[..|x.value|] == Each(SaveRetained, x.value);
      assert x.value[..|x.value|] == x.value;
      WindowsGrow(items, k - 1, m);
    }
  }

  lemma NoObservations(list: seq<SavedSnapshot>, limit: nat)
    requires list == []
    ensures RestoreObservations(list, limit) == Some(map[])
  {}

  lemma NewKey(items: seq<Pair<WindowKey, seq<Retained>>>, k: nat, m: map<WindowKey, seq<Retained>>)
    requires k < |items| && UniqueKeys(items) && WindowsAre(items, k, m)
    ensures items[k].key !in m
  {
    hide RestoredAs;
  }

  lemma WindowsGrow(items: seq<Pair<WindowKey, seq<Retained>>>, k: nat, m: map<WindowKey, seq<Retained>>)
    requires k < |items| && UniqueKeys(items) && WindowsAre(items, k, m) && items[k].key !in m
    ensures
      var x := items[k];
      WindowsAre(items, k + 1, if x.value == [] then m else m[x.key := RestoredWindow(x.value)])
  {
    hide RestoredWindow;
    var x := items[k];
    var n := if x.value == [] then m else m[x.key := RestoredWindow(x.value)];
    forall key | key in n ensures FoundIn(items, k + 1, key) {
      if key == x.key {
        assert items[k].key == key;
      } else {
        assert FoundIn(items, k, key);
      }
    }
    forall i | 0 <= i < k + 1 ensures RestoredAs(items[i], n) {
      assert i < k ==> RestoredAs(items[i], m) && items[i].key != x.key;
    }
  }

  lemma {:induction false} AllObservationsLoad(list: seq<SavedSnapshot>, limit: nat)
    requires RestoreObservations(list, limit).Some?
    ensures forall i :: 0 <= i < |list| ==> LoadSnapshot(list[i]).Some?
  {
    hide LoadSnapshot, RestoreObservation;
    if list != [] {
      AllObservationsLoad(list[..|list| - 1], limit);
      forall i | 0 <= i < |list| ensures LoadSnapshot(list[i]).Some? {
        assert i < |list| - 1 ==> list[..|list| - 1][i] == list[i];
      }
    }
  }

  // ----- baselines

  predicate BaselinesAre(bs: seq<Baseline>, k: nat, m: map<Text, Baseline>)
    requires k <= |bs|
  {
    && |m| == k && (forall t :: t in m ==> TargetIn(bs, k, t))
    && (forall i :: 0 <= i < k ==> bs[i].target in m && m[bs[i].target] == RereadBaseline(bs[i]))
  }

  predicate TargetIn(bs: seq<Baseline>, k: nat, t: Text)
    requires k <= |bs|
  {
    exists i :: 0 <= i < k && bs[i].target == t
  }

  lemma {:induction false} BaselinesBack(bs: seq<Baseline>, k: nat, maxTargets: nat)
    requires k <= |bs| && forall i, j :: 0 <= i < j < |bs| ==> bs[i].target != bs[j].target
    ensures
      var r := RestoreBaselines(Each(SaveBaseline, bs)[..k], maxTargets);
      && (r.Some? <==> k <= maxTargets && forall i :: 0 <= i < k ==> ValidIdentity(bs[i].target))
      && (r.Some? ==> BaselinesAre(bs, k, r.value))
  {
    hide SaveBaseline, LoadBaseline, ValidIdentity, RereadBaseline;
    var list := Each(SaveBaseline, bs);
    if k == 0 {
      assert list[..0] == [];
    } else {
      BaselinesBack(bs, k - 1, maxTargets);
      BaselineBack(bs[k - 1]);
      SameTarget(bs[k - 1]);
      assert list[..k][..k - 1] == list[..k - 1];
      var before := RestoreBaselines(list[..k - 1], maxTargets);
      if before.Some? {
        BaselinesGrow(bs, k - 1, before.value);
      }
    }
  }

  lemma SameTarget(b: Baseline)
    ensures RereadBaseline(b).target == b.target
  {}

  lemma BaselinesGrow(bs: seq<Baseline>, k: nat, m: map<Text, Baseline>)
    requires k < |bs| && BaselinesAre(bs, k, m) && forall i, j :: 0 <= i < j < |bs| ==> bs[i].target != bs[j].target
    ensures bs[k].target !in m && BaselinesAre(bs, k + 1, m[bs[k].target := RereadBaseline(bs[k])])
  {
    hide RereadBaseline;
    var n := m[bs[k].target := RereadBaseline(bs[k])];
    forall t | t in n ensures TargetIn(bs, k + 1, t) {
      if t == bs[k].target {
        assert bs[k].target == t;
      } else {
        assert TargetIn(bs, k, t);
      }
    }
  }

  // ----- the whole ledger

  lemma {:induction false} ListsCount<K(!new)>(s: seq<K>, keys: set<K>)
    requires Lists(s, keys)
    ensures |s| == |keys|
    decreases |s|
  {
    if s == [] {
      NoneListed(s, keys);
    } else {
      var k := |s| - 1;
      forall x ensures x in keys - {s[k]} <==> x in s[..k] {
        if x in s && x != s[k] {
          var i :| 0 <= i < |s| && s[i] == x;
          assert s[..k][i] == x;
        }
        if x in s[..k] {
          var i :| 0 <= i < k && s[..k][i] == x;
          assert s[i] == x;
        }
      }
      ListsCount(s[..k], keys - {s[k]});
      assert s[k] in s;
    }
  }

  lemma NoneListed<K(!new)>(s: seq<K>, keys: set<K>)
    requires s == [] && Lists(s, keys)
    ensures keys == {}
  {}

  lemma Counts(b: Book, w: Walk)
    requires Walks(b, w)
    ensures |w.targets| == |b.store.baselines| && |w.ids| == |b.store.findings|
  {
    hide Lists;
    ListsCount(w.targets, b.store.baselines.Keys);
    ListsCount(w.ids, b.store.findings.Keys);
  }

  lemma TargetAt(b: Book, w: Walk, t: Text) returns (i: nat)
    requires Walks(b, w) && t in b.store.baselines
    ensures i < |w.targets| && w.targets[i] == t
  {
    assert t in w.targets;
    i :| 0 <= i < |w.targets| && w.targets[i] == t;
  }

  lemma KeyAt(b: Book, w: Walk, k: WindowKey) returns (i: nat)
    requires Walks(b, w) && k in b.store.windows
    ensures i < |w.keys| && w.keys[i] == k
  {
    assert k in w.keys;
    i :| 0 <= i < |w.keys| && w.keys[i] == k;
  }

  lemma IdAt(b: Book, w: Walk, id: FindingId) returns (i: nat)
    requires Walks(b, w) && id in b.store.findings
    ensures i < |w.ids| && w.ids[i] == id
  {
    assert id in w.ids;
    i :| 0 <= i < |w.ids| && w.ids[i] == id;
  }

  lemma TargetsDistinct(b: Book, w: Walk)
    requires Walks(b, w) && Keyed(b)
    ensures
      var bs := Baselines(b, w);
      forall i, j :: 0 <= i < j < |bs| ==> bs[i].target != bs[j].target
  {
    hide KeyedWindow;
  }

  lemma KeysUnique(b: Book, w: Walk)
    requires Walks(b, w)
    ensures UniqueKeys(Windows(b, w))
  {}

  lemma EntriesDistinct(b: Book, w: Walk)
    requires Walks(b, w) && Keyed(b)
    ensures Distinct(Entries(b, w))
  {
    hide KeyedWindow;
    var entries := Entries(b, w);
    forall i | 0 <= i < |entries| ensures entries[i].finding.id == w.ids[i] {
      assert EntryIs(b, w.ids[i], entries[i]);
    }
  }

  predicate SameBaselines(b: Book, r: Book) {
    && r.store.baselines.Keys == b.store.baselines.Keys
    && forall t :: t in b.store.baselines ==>
         t in r.store.baselines && r.store.baselines[t] == RereadBaseline(b.store.baselines[t])
  }

  predicate SameWindows(b: Book, r: Book) {
    && (forall k :: k in r.store.windows ==> k in b.store.windows && b.store.windows[k] != [])
    && (forall k :: k in b.store.windows && b.store.windows[k] != [] ==>
          k in r.store.windows && r.store.windows[k] == RestoredWindow(b.store.windows[k]))
  }

  /** The entries of the walk as they come back. */
  predicate SameEntries(entries: seq<Entry>, sequence: nat, maxHistory: nat, r: Book) {
    && r.histories.Keys == r.store.findings.Keys && |r.store.findings| == |entries|
    && (forall id :: id in r.store.findings ==> Listed(entries, |entries|, id))
    && (forall i :: 0 <= i < |entries| ==> EntryBack(entries, i, sequence, maxHistory, r))
    && r.sequence == sequence + PendingCount(entries)
  }

  predicate EntryBack(entries: seq<Entry>, i: nat, sequence: nat, maxHistory: nat, r: Book)
    requires i < |entries|
  {
    PartAt(entries, i, sequence, Part(r.store.findings, r.histories, r.sequence), maxHistory)
  }

  /** Nothing is lost but streaks, empty windows, receive times and old
      history; nothing comes back as current evidence. */
  ghost predicate IsRestored(b: Book, w: Walk, capacity: Capacity, r: Book)
    requires Walks(b, w)
  {
    && SameBaselines(b, r) && SameWindows(b, r) && SameEntries(Entries(b, w), b.sequence, capacity.maxHistory, r)
    && r.store.streaks == map[] && r.timeline == Each(RereadEvent, b.timeline) && r.revision == b.revision
  }

  predicate BaselinesSavable(b: Book, capacity: Capacity) {
    && |b.store.baselines| <= capacity.maxTargets
    && forall t :: t in b.store.baselines ==> ValidIdentity(b.store.baselines[t].target)
  }

  predicate WindowsSavable(b: Book) { forall k :: k in b.store.windows ==> SavableWindow(b.store.windows[k]) }

  predicate FindingSavable(b: Book, id: FindingId, capacity: Capacity) {
    id in b.store.findings && id in b.histories && SavableFinding(b.store.findings[id], b.histories[id], capacity)
  }

  predicate FindingsSavable(b: Book, capacity: Capacity) {
    |b.store.findings| <= capacity.maxFindings && forall id :: id in b.store.findings ==> FindingSavable(b, id, capacity)
  }

  /** What the decoder demands of a ledger that was saved. */
  predicate Savable(b: Book, capacity: Capacity) {
    && BaselinesSavable(b, capacity) && WindowsSavable(b) && FindingsSavable(b, capacity)
    && |b.timeline| <= capacity.maxTimeline
  }

  lemma BaselinePart(b: Book, w: Walk, capacity: Capacity, r: Book)
    requires Walks(b, w) && Keyed(b)
    ensures
      var m := RestoreBaselines(Each(SaveBaseline, Baselines(b, w)), capacity.maxTargets);
      && (m.Some? <==> BaselinesSavable(b, capacity))
      && (m.Some? && r.store.baselines == m.value ==> SameBaselines(b, r))
  {
    hide ValidIdentity, RereadBaseline, RestoreBaselines, SaveBaseline, Walks, Keyed;
    var bs := Baselines(b, w);
    Counts(b, w);
    TargetsDistinct(b, w);
    BaselinesBack(bs, |bs|, capacity.maxTargets);
    assert Each(SaveBaseline, bs)[..|bs|] == Each(SaveBaseline, bs);
    BaselineValid(b, w);
    var m := RestoreBaselines(Each(SaveBaseline, bs), capacity.maxTargets);
    if m.Some? && r.store.baselines == m.value {
      BaselineMaps(b, w, r);
    }
  }

  lemma BaselineValid(b: Book, w: Walk)
    requires Walks(b, w)
    ensures
      var bs := Baselines(b, w);
      (forall i :: 0 <= i < |bs| ==> ValidIdentity(bs[i].target))
      <==> (forall t :: t in b.store.baselines ==> ValidIdentity(b.store.baselines[t].target))
  {
    hide ValidIdentity, Walks;
    var bs := Baselines(b, w);
    if forall i :: 0 <= i < |bs| ==> ValidIdentity(bs[i].target) {
      forall t | t in b.store.baselines ensures ValidIdentity(b.store.baselines[t].target) {
        var i := TargetAt(b, w, t);
        assert bs[i] == b.store.baselines[t];
      }
    }
  }

  lemma BaselineMaps(b: Book, w: Walk, r: Book)
    requires Walks(b, w) && Keyed(b) && BaselinesAre(Baselines(b, w), |w.targets|, r.store.baselines)
    ensures SameBaselines(b, r)
  {
    hide RereadBaseline, Walks, KeyedWindow;
    var bs := Baselines(b, w);
    forall t | t in b.store.baselines
      ensures t in r.store.baselines && r.store.baselines[t] == RereadBaseline(b.store.baselines[t])
    {
      var i := TargetAt(b, w, t);
      assert bs[i].target == t;
    }
    forall t | t in r.store.baselines ensures t in b.store.baselines {
      assert TargetIn(bs, |bs|, t);
    }
  }

  lemma WindowPart(b: Book, w: Walk, capacity: Capacity, r: Book)
    requires Walks(b, w) && Keyed(b) && Bounded(b, capacity)
    ensures
      var m := RestoreObservations(SaveWindows(Windows(b, w)), capacity.maxRetained);
      && (m.Some? <==> WindowsSavable(b))
      && (m.Some? && r.store.windows == m.value ==> SameWindows(b, r))
  {
    hide RestoreObservations, SaveWindows, Walks, KeyedWindow, SavableWindow, RestoredWindow;
    var items := Windows(b, w);
    var m := RestoreObservations(SaveWindows(items), capacity.maxRetained);
    if m.Some? {
      AllWindowsSavable(b, w, capacity);
    }
    if WindowsSavable(b) {
      KeysUnique(b, w);
      WindowsBack(items, |items|, capacity.maxRetained);
      assert items[..|items|] == items;
      if r.store.windows == m.value {
        WindowMaps(b, w, r);
      }
    }
  }

  lemma WindowMaps(b: Book, w: Walk, r: Book)
    requires Walks(b, w) && WindowsAre(Windows(b, w), |w.keys|, r.store.windows)
    ensures SameWindows(b, r)
  {
    hide Walks, RestoredWindow;
    var items := Windows(b, w);
    forall k | k in r.store.windows ensures k in b.store.windows && b.store.windows[k] != [] {
      assert FoundIn(items, |items|, k);
    }
    forall k | k in b.store.windows && b.store.windows[k] != []
      ensures k in r.store.windows && r.store.windows[k] == RestoredWindow(b.store.windows[k])
    {
      var i := KeyAt(b, w, k);
      assert RestoredAs(items[i], r.store.windows);
    }
  }

  lemma {:induction false} SavedIn(items: seq<Pair<WindowKey, seq<Retained>>>, i: nat, j: nat)
    requires i < |items| && j < |items[i].value|
    ensures SaveRetained(items[i].value[j]) in SaveWindows(items)
    decreases |items|
  {
    hide SaveRetained;
    var k := |items| - 1;
    if i < k {
      SavedIn(items[..k], i, j);
    } else {
      assert Each(SaveRetained, items[k].value)[j] == SaveRetained(items[i].value[j]);
    }
  }

  lemma AllWindowsSavable(b: Book, w: Walk, capacity: Capacity)
    requires Walks(b, w) && RestoreObservations(SaveWindows(Windows(b, w)), capacity.maxRetained).Some?
    ensures WindowsSavable(b)
  {
    hide RestoreObservations, SaveWindows, LoadSnapshot, SaveSnapshot, SavableSnapshot, Walks;
    var list := SaveWindows(Windows(b, w));
    AllObservationsLoad(list, capacity.maxRetained);
    forall k | k in b.store.windows ensures SavableWindow(b.store.windows[k]) {
      forall j | 0 <= j < |b.store.windows[k]| ensures SavableSnapshot(b.store.windows[k][j].snapshot) {
        var i := KeyAt(b, w, k);
        SavedIn(Windows(b, w), i, j);
        SnapshotBack(b.store.windows[k][j].snapshot);
      }
    }
  }

  lemma FindingPart(b: Book, w: Walk, capacity: Capacity, r: Book)
    requires Walks(b, w) && Keyed(b) && |b.store.findings| <= capacity.maxFindings
    ensures
      var p := RestoreFindings(Each(SaveEntry, Entries(b, w)), b.sequence, capacity);
      && (p.Some? <==> FindingsSavable(b, capacity))
      && (p.Some? && p.value == Part(r.store.findings, r.histories, r.sequence) ==>
            SameEntries(Entries(b, w), b.sequence, capacity.maxHistory, r))
  {
    hide RestoreFindings, SavableFinding, LoadFinding, SaveFinding, Walks, Keyed, Distinct, PartAt, PendingCount;
    var entries := Entries(b, w);
    var list := Each(SaveEntry, entries);
    assert list[..|entries|] == list && entries[..|entries|] == entries;
    Counts(b, w);
    EntriesDistinct(b, w);
    if RestoreFindings(list, b.sequence, capacity).Some? {
      AllFindingsLoad(list, b.sequence, capacity);
      forall id | id in b.store.findings ensures FindingSavable(b, id, capacity) {
        var i := IdAt(b, w, id);
        assert EntryIs(b, id, entries[i]) && LoadFinding(list[i], capacity).Some?;
        FindingBack(b.store.findings[id], b.histories[id], capacity);
      }
    }
    if FindingsSavable(b, capacity) {
      forall i | 0 <= i < |entries| ensures SavableEntry(entries[i], capacity) {
        assert EntryIs(b, w.ids[i], entries[i]) && FindingSavable(b, w.ids[i], capacity);
      }
      FindingsBack(entries, |entries|, b.sequence, capacity);
    }
  }

  /** A saved ledger restores exactly when every record passes the decoder and
      the counts fit, and then conservatively. */
  lemma Restores(b: Book, w: Walk, capacity: Capacity)
    requires Walks(b, w) && Keyed(b) && Bounded(b, capacity)
    ensures Decoded(Saved(b, w), capacity).Some? <==> Savable(b, capacity)
    ensures Savable(b, capacity) ==> IsRestored(b, w, capacity, Decoded(Saved(b, w), capacity).value)
  {
    hide RestoreBaselines, RestoreObservations, RestoreFindings, SaveWindows, LoadAll, BaselinesSavable, WindowsSavable,
         Walks, Keyed, Bounded, SameBaselines, SameWindows, SameEntries;
    Counts(b, w);
    EventsBack(b.timeline);
    var d := Decoded(Saved(b, w), capacity);
    var r := if d.Some? then d.value else b;
    BaselinePart(b, w, capacity, r);
    WindowPart(b, w, capacity, r);
    if |b.store.findings| <= capacity.maxFindings {
      FindingPart(b, w, capacity, r);
    }
  }
}
