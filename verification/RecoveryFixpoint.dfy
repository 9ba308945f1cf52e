/** Restored evidence is never current, the recovery event is recorded once,
    and saving and restoring again changes nothing that lasts. */
module RecoveryFixpoint {
  import opened Core
  import opened Domain
  import opened Identity
  import opened Window
  import opened Findings
  import opened LedgerState
  import opened LedgerRuns
  import opened Stamps
  import opened Recovery
  import opened RecoveryResults
  import Engine
  import EngineSafety
  import Ledger
  import Paths

  // ----- safety

  lemma RestoredKept(f: Finding, id: FindingId, current: bool)
    requires Sound(f, id) && (Live(f.state) ==> current)
    ensures KeptAs(RestoredFinding(f), id, current, 0)
  {
    hide RereadRef, Each, ReadBack;
  }

  lemma RestoredTidy(key: WindowKey, w: seq<Retained>)
    requires WindowKept(key, w)
    ensures WindowKept(key, RestoredWindow(w)) && Engine.AllRecovered(RestoredWindow(w))
  {
    hide ReadBack;
    var v := RestoredWindow(w);
    assert forall i :: 0 <= i < |w| ==> v[i] == RestoredRecord(RereadSnapshot(w[i].snapshot));
  }

  lemma RereadKept(t: Text, b: Baseline)
    requires BaselineKept(t, b)
    ensures BaselineKept(t, RereadBaseline(b)) && RereadBaseline(b).generation == b.generation
  {
    hide ReadBack;
  }

  lemma FindingKeptBack(b: Book, w: Walk, capacity: Capacity, r: Book, id: FindingId)
    requires Walks(b, w) && Lifecycle(b.store) && IsRestored(b, w, capacity, r) && id in r.store.findings
    ensures Kept(r.store, id)
  {
    hide Walks, SameWindows, KeptAs, RestoredFinding, RestoredHistory, WindowKept, Sound;
    var entries := Entries(b, w);
    assert Listed(entries, |entries|, id);
    var i :| 0 <= i < |entries| && entries[i].finding.id == id;
    assert EntryIs(b, w.ids[i], entries[i]) && EntryBack(entries, i, b.sequence, capacity.maxHistory, r);
    assert Kept(b.store, w.ids[i]);
    KeptMeans(b.store, w.ids[i]);
    assert w.ids[i] == id;
    RestoredKept(b.store.findings[id], id, OfCommitted(b.store, id));
    CommittedBack(b, r, id);
  }

  lemma KeptMeans(s: Store, id: FindingId)
    requires id in s.findings && Kept(s, id)
    ensures Sound(s.findings[id], id) && s.findings[id].id == id && (Live(s.findings[id].state) ==> OfCommitted(s, id))
  {}

  lemma CommittedBack(b: Book, r: Book, id: FindingId)
    requires SameBaselines(b, r) && Lifecycle(b.store) && r.store.streaks == map[]
    ensures OfCommitted(r.store, id) == OfCommitted(b.store, id) && Streak(r.store, id) == 0
  {
    hide Kept, WindowKept, ReadBack;
  }

  /** What restoring gives is a ledger the engine may load: sound, with no
      streaks and no evidence that is not recovered, its timeline rising. */
  lemma RestoredIsLoadable(b: Book, w: Walk, capacity: Capacity, r: Book)
    requires Walks(b, w) && Lifecycle(b.store) && IsRestored(b, w, capacity, r)
    ensures Engine.Recovered(r.store)
    ensures Ledger.Rising(b.timeline, b.sequence) ==> Ledger.Rising(r.timeline, r.sequence)
  {
    hide Walks, Kept, RestoredWindow, WindowKept, BaselineKept, RereadBaseline, PartAt, PendingCount, Engine.AllRecovered;
    forall id | id in r.store.findings ensures Kept(r.store, id) {
      FindingKeptBack(b, w, capacity, r, id);
    }
    forall k | k in r.store.windows ensures WindowKept(k, r.store.windows[k]) && Engine.AllRecovered(r.store.windows[k]) {
      RestoredTidy(k, b.store.windows[k]);
    }
    forall t | t in r.store.baselines ensures BaselineKept(t, r.store.baselines[t]) {
      RereadKept(t, b.store.baselines[t]);
    }
  }

  /** A restart from a saved ledger: the engine may load what was restored, and from
      then on no target has evidence that supports a conclusion. */
  lemma RestartIsQuiet(v: Engine.World, b: Book, w: Walk, capacity: Capacity, r: Book, target: Text)
    requires Walks(b, w) && Lifecycle(b.store) && IsRestored(b, w, capacity, r)
    requires v.flights == map[] && |b.store.findings| <= v.limits.maxFindings
    ensures Engine.Enabled(v, Engine.Load(r.store))
    ensures EngineSafety.Quiet(Engine.Next(v, Engine.Load(r.store)), target)
  {
    hide Walks, SameBaselines, SameWindows, EntryBack, Engine.Recovered, EngineSafety.Quiet, PendingCount, Lifecycle;
    RestoredIsLoadable(b, w, capacity, r);
    RecoveryResults.Counts(b, w);
    EngineSafety.LoadQuiets(v, r.store, target);
  }

  // ----- the recovery event

  lemma {:induction false} CountsRise(entries: seq<Entry>, i: nat, j: nat)
    requires i <= j <= |entries|
    ensures PendingCount(entries[..i]) <= PendingCount(entries[..j])
  {
    if i < j {
      CountsRise(entries, i, j - 1);
      PendingNext(entries, j - 1);
    }
  }

  /** A finding that was live on current evidence gets one event; no other
      history grows, and nothing restored would get an event again. */
  lemma RecordedOnce(b: Book, w: Walk, capacity: Capacity, r: Book, i: nat)
    requires Walks(b, w) && IsRestored(b, w, capacity, r) && i < |w.ids|
    ensures
      var e := Entries(b, w)[i];
      && e.finding.id in r.store.findings && e.finding.id in r.histories
      && r.store.findings[e.finding.id].freshness.RecoveredNotFresh?
      && r.histories[e.finding.id]
         == Recent(Each(RereadEvent, e.history)
                   + (if !Pending(e.finding) then []
                      else [RecoveryEvent(RereadFinding(e.finding), b.sequence + PendingCount(Entries(b, w)[..i + 1]))]),
                   capacity.maxHistory)
  {
    hide Walks, SameBaselines, SameWindows, PendingCount, RereadEvent, Each, RereadFinding, RecoveryEvent, Recent;
    var entries := Entries(b, w);
    assert EntryBack(entries, i, b.sequence, capacity.maxHistory, r);
    SameStanding(entries[i].finding);
    var h := Each(RereadEvent, entries[i].history);
    assert h + [] == h;
  }

  /** The events' numbers lie past every number given before and rise along the walk. */
  lemma NumbersApart(b: Book, w: Walk, capacity: Capacity, r: Book, i: nat, j: nat)
    requires Walks(b, w) && IsRestored(b, w, capacity, r) && i < j < |w.ids|
    requires Pending(Entries(b, w)[i].finding) && Pending(Entries(b, w)[j].finding)
    ensures
      var entries := Entries(b, w);
      b.sequence < b.sequence + PendingCount(entries[..i + 1]) < b.sequence + PendingCount(entries[..j + 1]) <= r.sequence
  {
    hide Walks, SameBaselines, SameWindows, PendingCount, EntryBack;
    var entries := Entries(b, w);
    assert entries[..|entries|] == entries;
    PendingNext(entries, i);
    CountsRise(entries, i + 1, j);
    PendingNext(entries, j);
    CountsRise(entries, j + 1, |entries|);
  }

  // ----- what a decoded ledger looks like

  predicate DecodedWindow(k: WindowKey, w: seq<Retained>, limit: nat) {
    && 0 < |w| <= limit
    && forall i :: 0 <= i < |w| ==>
         && w[i] == RestoredRecord(w[i].snapshot) && SavableSnapshot(w[i].snapshot) && w[i].snapshot.receivedAt == 0
         && WindowKey(w[i].snapshot.target, w[i].snapshot.source) == k
  }

  predicate DecodedFinding(id: FindingId, f: Finding, history: seq<Event>, capacity: Capacity) {
    f.id == id && f.freshness.RecoveredNotFresh? && SavableFinding(f, history, capacity)
  }

  predicate DecodedPart(p: Part, capacity: Capacity) {
    && p.findings.Keys == p.histories.Keys && |p.findings| <= capacity.maxFindings
    && forall id :: id in p.findings ==>
         id in p.histories && DecodedFinding(id, p.findings[id], p.histories[id], capacity)
  }

  predicate Conservative(b: Book, capacity: Capacity) {
    && |b.store.baselines| <= capacity.maxTargets && |b.timeline| <= capacity.maxTimeline && b.store.streaks == map[]
    && (forall t :: t in b.store.baselines ==> ValidIdentity(t) && b.store.baselines[t].target == t)
    && (forall k :: k in b.store.windows ==> DecodedWindow(k, b.store.windows[k], capacity.maxRetained))
    && DecodedPart(Part(b.store.findings, b.histories, b.sequence), capacity)
  }

  lemma {:induction false} BaselinesDecoded(list: seq<SavedBaseline>, maxTargets: nat)
    requires RestoreBaselines(list, maxTargets).Some?
    ensures
      var m := RestoreBaselines(list, maxTargets).value;
      |m| <= maxTargets && forall t :: t in m ==> ValidIdentity(t) && m[t].target == t
  {
    hide ValidIdentity, Parsed;
    if list != [] {
      BaselinesDecoded(list[..|list| - 1], maxTargets);
    }
  }

  lemma {:induction false} WindowsDecoded(list: seq<SavedSnapshot>, limit: nat)
    requires limit >= 1 && RestoreObservations(list, limit).Some?
    ensures
      var m := RestoreObservations(list, limit).value;
      forall k :: k in m ==> DecodedWindow(k, m[k], limit)
  {
    hide DecodedWindow, RestoreObservation, LoadSnapshot;
    if list != [] {
      WindowsDecoded(list[..|list| - 1], limit);
      var m, s := RestoreObservations(list[..|list| - 1], limit).value, LoadSnapshot(list[|list| - 1]).value;
      LoadedSnapshot(list[|list| - 1]);
      RecordDecoded(m, s, limit);
    }
  }

  lemma LoadedSnapshot(s: SavedSnapshot)
    requires LoadSnapshot(s).Some?
    ensures SavableSnapshot(LoadSnapshot(s).value) && LoadSnapshot(s).value.receivedAt == 0
  {
    hide ValidIdentity, Parsed;
  }

  lemma RecordDecoded(m: map<WindowKey, seq<Retained>>, s: Snapshot, limit: nat)
    requires limit >= 1 && SavableSnapshot(s) && s.receivedAt == 0
    requires forall k :: k in m ==> DecodedWindow(k, m[k], limit)
    ensures
      var n := RestoreObservation(m, s, limit);
      forall k :: k in n ==> DecodedWindow(k, n[k], limit)
  {
    hide SavableSnapshot;
    var key := WindowKey(s.target, s.source);
    assert key in m ==> DecodedWindow(key, m[key], limit);
  }

  lemma {:induction false} FindingsDecoded(list: seq<SavedFinding>, sequence: nat, capacity: Capacity)
    requires RestoreFindings(list, sequence, capacity).Some?
    ensures DecodedPart(RestoreFindings(list, sequence, capacity).value, capacity)
  {
    hide DecodedPart, RestoreFinding, LoadFinding;
    if list == [] {
      EmptyPart(sequence, capacity);
    } else {
      FindingsDecoded(list[..|list| - 1], sequence, capacity);
      var p := RestoreFindings(list[..|list| - 1], sequence, capacity).value;
      LoadedFinding(list[|list| - 1], capacity);
      var (f, history) := LoadFinding(list[|list| - 1], capacity).value;
      OneDecoded(p, f, history, capacity);
    }
  }

  lemma EmptyPart(sequence: nat, capacity: Capacity)
    ensures DecodedPart(Part(map[], map[], sequence), capacity)
  {}

  lemma LoadedFinding(s: SavedFinding, capacity: Capacity)
    requires LoadFinding(s, capacity).Some?
    ensures
      var (f, history) := LoadFinding(s, capacity).value;
      SavableFinding(f, history, capacity)
  {
    hide ValidIdentity, Parsed, Paths.Parsed, Paths.ToText, LoadEvent, LoadRef;
    Paths.OneSpelling(s.path, capacity.paths);
  }

  lemma OneDecoded(p: Part, f: Finding, history: seq<Event>, capacity: Capacity)
    requires DecodedPart(p, capacity) && SavableFinding(f, history, capacity)
    requires RestoreFinding(p, f, history, capacity).Some?
    ensures DecodedPart(RestoreFinding(p, f, history, capacity).value, capacity)
  {
    hide ValidIdentity, Paths.Parsed, Paths.ToText, RecoveryEvent;
    var q := RestoreFinding(p, f, history, capacity).value;
    assert DecodedFinding(f.id, q.findings[f.id], q.histories[f.id], capacity);
    forall id | id in q.findings
      ensures id in q.histories && DecodedFinding(id, q.findings[id], q.histories[id], capacity)
    {
      assert id != f.id ==> id in p.findings;
    }
  }

  lemma DecodedIsConservative(p: Payload, capacity: Capacity)
    requires capacity.maxRetained >= 1 && Decoded(p, capacity).Some?
    ensures Conservative(Decoded(p, capacity).value, capacity)
  {
    hide RestoreBaselines, RestoreObservations, RestoreFindings, DecodedWindow, DecodedPart, ValidIdentity, LoadEvent;
    BaselinesDecoded(p.baselines, capacity.maxTargets);
    WindowsDecoded(p.observations, capacity.maxRetained);
    FindingsDecoded(p.findings, p.sequence, capacity);
    PartSequence(Decoded(p, capacity).value, RestoreFindings(p.findings, p.sequence, capacity).value, capacity);
  }

  lemma PartSequence(b: Book, p: Part, capacity: Capacity)
    requires DecodedPart(p, capacity) && p.findings == b.store.findings && p.histories == b.histories
    ensures DecodedPart(Part(b.store.findings, b.histories, b.sequence), capacity)
  {
    hide DecodedFinding;
  }
}
