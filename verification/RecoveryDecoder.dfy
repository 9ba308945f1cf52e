/** The decoder and the encoder as the program runs them: record by record
    into and out of a ledger. */
module RecoveryDecoder {
  import opened Core
  import opened Domain
  import opened Window
  import opened Findings
  import opened LedgerState
  import opened Recovery

  class RestoredLedger {
    const capacity: Capacity
    var baselines: map<Text, Baseline>
    var windows: map<WindowKey, seq<Retained>>
    var findings: map<FindingId, Finding>
    var histories: map<FindingId, seq<Event>>
    var timeline: seq<Event>
    var sequence: nat
    var revision: nat

    constructor (capacity: Capacity, revision: nat, sequence: nat)
      ensures this.capacity == capacity && this.revision == revision && this.sequence == sequence
      ensures baselines == map[] && windows == map[] && findings == map[] && histories == map[] && timeline == []
    {
      this.capacity, this.revision, this.sequence := capacity, revision, sequence;
      baselines, windows, findings, histories, timeline := map[], map[], map[], map[], [];
    }

    function Restored(): Part
      reads this
    {
      Part(findings, histories, sequence)
    }

    method RestoreBaseline(b: Baseline) returns (ok: bool)
      modifies this`baselines
      ensures ok <==> |old(baselines)| < capacity.maxTargets || b.target in old(baselines)
      ensures baselines == if ok then old(baselines)[b.target := b] else old(baselines)
    {
      if |baselines| >= capacity.maxTargets && b.target !in baselines {
        return false;
      }
      baselines := baselines[b.target := b];
      return true;
    }

    /** A full window loses its oldest record; what is restored is never fresh. */
    method RestoreObservation(s: Snapshot)
      modifies this`windows
      ensures windows == Recovery.RestoreObservation(old(windows), s, capacity.maxRetained)
    {
      var key := WindowKey(s.target, s.source);
      var window := if key in windows then windows[key] else [];
      if window != [] && |window| >= capacity.maxRetained {
        window := window[1..];
      }
      window := window + [Retained(s, NEVER_FRESH, true)];
      windows := windows[key := window];
    }

    method RestoreFinding(f: Finding, history: seq<Event>) returns (ok: bool)
      modifies this`findings, this`histories, this`sequence
      ensures
        var r := Recovery.RestoreFinding(old(Restored()), f, history, capacity);
        ok == r.Some? && Restored() == if ok then r.value else old(Restored())
    {
      if |findings| >= capacity.maxFindings && f.id !in findings {
        return false;
      }
      var alreadyRecovered := f.freshness.RecoveredNotFresh?;
      var finding, events := f.(freshness := RecoveredNotFresh), history;
      if Live(finding.state) && !alreadyRecovered {
        sequence := sequence + 1;
        events := events + [RecoveryEvent(finding, sequence)];
      }
      if |events| > capacity.maxHistory {
        events := events[|events| - capacity.maxHistory..];
      }
      findings, histories := findings[f.id := finding], histories[f.id := events];
      return true;
    }

    method RestoreTimeline(e: Event)
      modifies this`timeline
      ensures timeline == Recent(old(timeline) + [e], capacity.maxTimeline)
    {
      timeline := timeline + [e];
      if |timeline| > capacity.maxTimeline {
        timeline := timeline[|timeline| - capacity.maxTimeline..];
      }
    }

    // ----- the sections of a payload

    method RestoreBaselines(list: seq<SavedBaseline>) returns (ok: bool)
      requires baselines == map[]
      modifies this`baselines
      ensures ok == Recovery.RestoreBaselines(list, capacity.maxTargets).Some?
      ensures ok ==> Recovery.RestoreBaselines(list, capacity.maxTargets) == Some(baselines)
    {
      hide LoadBaseline;
      for index := 0 to |list|
        invariant Recovery.RestoreBaselines(list[..index], capacity.maxTargets) == Some(baselines)
      {
        assert list[..index + 1][..index] == list[..index];
        var loaded := LoadBaseline(list[index]);
        if loaded.None? {
          BaselinesFail(list, index + 1, capacity.maxTargets);
          return false;
        }
        var stored := RestoreBaseline(loaded.value);
        if !stored {
          BaselinesFail(list, index + 1, capacity.maxTargets);
          return false;
        }
      }
      assert list[..|list|] == list;
      return true;
    }

    method RestoreObservations(list: seq<SavedSnapshot>) returns (ok: bool)
      requires windows == map[]
      modifies this`windows
      ensures ok == Recovery.RestoreObservations(list, capacity.maxRetained).Some?
      ensures ok ==> Recovery.RestoreObservations(list, capacity.maxRetained) == Some(windows)
    {
      hide LoadSnapshot, Recovery.RestoreObservation;
      for index := 0 to |list|
        invariant Recovery.RestoreObservations(list[..index], capacity.maxRetained) == Some(windows)
      {
        assert list[..index + 1][..index] == list[..index];
        var loaded := LoadSnapshot(list[index]);
        if loaded.None? {
          ObservationsFail(list, index + 1, capacity.maxRetained);
          return false;
        }
        RestoreObservation(loaded.value);
      }
      assert list[..|list|] == list;
      return true;
    }

    method RestoreFindings(list: seq<SavedFinding>) returns (ok: bool)
      requires findings == map[] && histories == map[]
      modifies this`findings, this`histories, this`sequence
      ensures
        var r := Recovery.RestoreFindings(list, old(sequence), capacity);
        ok == r.Some? && (ok ==> r == Some(Restored()))
    {
      hide LoadFinding, Recovery.RestoreFinding;
      ghost var start := sequence;
      for index := 0 to |list|
        invariant Recovery.RestoreFindings(list[..index], start, capacity) == Some(Restored())
      {
        assert list[..index + 1][..index] == list[..index];
        var loaded := LoadFinding(list[index], capacity);
        if loaded.None? {
          FindingsFail(list, index + 1, start, capacity);
          return false;
        }
        var stored := RestoreFinding(loaded.value.0, loaded.value.1);
        if !stored {
          FindingsFail(list, index + 1, start, capacity);
          return false;
        }
      }
      assert list[..|list|] == list;
      return true;
    }

    method RestoreTimelines(list: seq<SavedEvent>) returns (ok: bool)
      requires timeline == [] && |list| <= capacity.maxTimeline
      modifies this`timeline
      ensures ok == LoadAll(LoadEvent, list).Some? && (ok ==> LoadAll(LoadEvent, list) == Some(timeline))
    {
      hide LoadEvent;
      for index := 0 to |list|
        invariant |timeline| == index && LoadAll(LoadEvent, list[..index]) == Some(timeline)
      {
        assert list[..index + 1][..index] == list[..index];
        var loaded := LoadEvent(list[index]);
        if loaded.None? {
          return false;
        }
        RestoreTimeline(loaded.value);
      }
      assert list[..|list|] == list;
      return true;
    }
  }

  // ----- a refused record refuses the whole

  lemma {:induction false} BaselinesFail(list: seq<SavedBaseline>, k: nat, maxTargets: nat)
    requires k <= |list| && Recovery.RestoreBaselines(list[..k], maxTargets).None?
    ensures Recovery.RestoreBaselines(list, maxTargets).None?
    decreases |list|
  {
    hide LoadBaseline;
    if k == |list| {
      assert list[..k] == list;
    } else {
      assert list[..|list| - 1][..k] == list[..k];
      BaselinesFail(list[..|list| - 1], k, maxTargets);
    }
  }

  lemma {:induction false} ObservationsFail(list: seq<SavedSnapshot>, k: nat, limit: nat)
    requires k <= |list| && Recovery.RestoreObservations(list[..k], limit).None?
    ensures Recovery.RestoreObservations(list, limit).None?
    decreases |list|
  {
    hide LoadSnapshot, Recovery.RestoreObservation;
    if k == |list| {
      assert list[..k] == list;
    } else {
      assert list[..|list| - 1][..k] == list[..k];
      ObservationsFail(list[..|list| - 1], k, limit);
    }
  }

  lemma {:induction false} FindingsFail(list: seq<SavedFinding>, k: nat, sequence: nat, capacity: Capacity)
    requires k <= |list| && Recovery.RestoreFindings(list[..k], sequence, capacity).None?
    ensures Recovery.RestoreFindings(list, sequence, capacity).None?
    decreases |list|
  {
    hide LoadFinding, Recovery.RestoreFinding;
    if k == |list| {
      assert list[..k] == list;
    } else {
      assert list[..|list| - 1][..k] == list[..k];
      FindingsFail(list[..|list| - 1], k, sequence, capacity);
    }
  }

  // ----- the whole payload

  method DecodeLedger(p: Payload, capacity: Capacity) returns (r: Option<Book>)
    ensures r == Decoded(p, capacity)
  {
    hide Recovery.RestoreBaselines, Recovery.RestoreObservations, Recovery.RestoreFindings, LoadAll, LoadEvent;
    var ledger := new RestoredLedger(capacity, p.revision, p.sequence);
    var ok := ledger.RestoreBaselines(p.baselines);
    if !ok {
      return None;
    }
    ok := ledger.RestoreObservations(p.observations);
    if !ok || |p.findings| > capacity.maxFindings {
      return None;
    }
    ok := ledger.RestoreFindings(p.findings);
    if !ok || |p.timeline| > capacity.maxTimeline {
      return None;
    }
    ok := ledger.RestoreTimelines(p.timeline);
    if !ok {
      return None;
    }
    return Some(Book(Store(ledger.baselines, ledger.windows, ledger.findings, map[]), ledger.histories, ledger.timeline,
                     ledger.sequence, ledger.revision));
  }

  /** The encoder walks each map in key order. */
  method EncodeLedger(b: Book, w: Walk) returns (p: Payload)
    requires Walks(b, w)
    ensures p == Saved(b, w)
  {
    hide SaveBaseline, SaveSnapshot, SaveFinding, SaveEvent, Walks;
    var baselines: seq<SavedBaseline> := [];
    for i := 0 to |w.targets|
      invariant baselines == Each(SaveBaseline, Baselines(b, w))[..i]
    {
      assert w.targets[i] in b.store.baselines && Baselines(b, w)[i] == b.store.baselines[w.targets[i]];
      baselines := baselines + [SaveBaseline(b.store.baselines[w.targets[i]])];
    }
    var observations: seq<SavedSnapshot> := [];
    for i := 0 to |w.keys|
      invariant observations == SaveWindows(Windows(b, w)[..i])
    {
      assert Windows(b, w)[..i + 1][..i] == Windows(b, w)[..i];
      assert w.keys[i] in b.store.windows && Windows(b, w)[i].value == b.store.windows[w.keys[i]];
      observations := EncodeWindow(observations, b.store.windows[w.keys[i]]);
    }
    assert Windows(b, w)[..|w.keys|] == Windows(b, w);
    var findings: seq<SavedFinding> := [];
    for i := 0 to |w.ids|
      invariant findings == Each(SaveEntry, Entries(b, w))[..i]
    {
      assert EntryIs(b, w.ids[i], Entries(b, w)[i]);
      findings := findings + [SaveFinding(b.store.findings[w.ids[i]], b.histories[w.ids[i]])];
    }
    var timeline: seq<SavedEvent> := [];
    for i := 0 to |b.timeline|
      invariant timeline == Each(SaveEvent, b.timeline)[..i]
    {
      timeline := timeline + [SaveEvent(b.timeline[i])];
    }
    p := Payload(b.revision, b.sequence, baselines, observations, findings, timeline);
  }

  method EncodeWindow(before: seq<SavedSnapshot>, window: seq<Retained>) returns (r: seq<SavedSnapshot>)
    ensures r == before + Each(SaveRetained, window)
  {
    hide SaveSnapshot;
    r := before;
    for i := 0 to |window|
      invariant r == before + Each(SaveRetained, window)[..i]
    {
      r := r + [SaveSnapshot(window[i].snapshot)];
    }
    assert Each(SaveRetained, window)[..|window|] == Each(SaveRetained, window);
  }
}
