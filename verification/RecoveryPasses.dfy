/** Saving and restoring a restored ledger: only stamps can still move, and
    exactly the unsettled ones do. */
module RecoveryPasses {
  import opened Core
  import opened Values
  import opened Domain
  import opened Identity
  import opened Window
  import opened Findings
  import opened LedgerState
  import opened Stamps
  import opened Recovery
  import opened RecoveryResults
  import opened RecoveryFixpoint
  import Paths

  // ----- the second pass

  function RereadBook(b: Book): Book {
    Book(Store(map t | t in b.store.baselines :: RereadBaseline(b.store.baselines[t]),
               map k | k in b.store.windows :: RestoredWindow(b.store.windows[k]),
               map id | id in b.store.findings :: RereadFinding(b.store.findings[id]),
               map[]),
         map id | id in b.histories :: Each(RereadEvent, b.histories[id]),
         Each(RereadEvent, b.timeline), b.sequence, b.revision)
  }

  lemma ConservativeIsSavable(b: Book, capacity: Capacity)
    requires Conservative(b, capacity)
    ensures Keyed(b) && Bounded(b, capacity) && Savable(b, capacity)
    ensures forall k :: k in b.store.windows ==> b.store.windows[k] != []
  {
    hide ValidIdentity, SavableSnapshot, SavableFinding;
    forall k | k in b.store.windows
      ensures KeyedWindow(k, b.store.windows[k]) && SavableWindow(b.store.windows[k])
              && 0 < |b.store.windows[k]| <= capacity.maxRetained
    {
      assert DecodedWindow(k, b.store.windows[k], capacity.maxRetained);
    }
  }

  lemma {:induction false} NonePending(entries: seq<Entry>)
    requires forall i :: 0 <= i < |entries| ==> !Pending(entries[i].finding)
    ensures PendingCount(entries) == 0
  {
    if entries != [] {
      NonePending(entries[..|entries| - 1]);
    }
  }

  lemma EntriesQuiet(b: Book, w: Walk, capacity: Capacity)
    requires Walks(b, w) && Conservative(b, capacity)
    ensures
      var entries := Entries(b, w);
      forall i :: 0 <= i < |entries| ==>
        && EntryIs(b, w.ids[i], entries[i]) && entries[i].finding.id == w.ids[i]
        && entries[i].finding.freshness.RecoveredNotFresh? && |entries[i].history| <= capacity.maxHistory
  {
    hide Walks, ValidIdentity, DecodedWindow, Paths.Parsed, Paths.ToText;
    var entries := Entries(b, w);
    forall i | 0 <= i < |entries|
      ensures && EntryIs(b, w.ids[i], entries[i]) && entries[i].finding.id == w.ids[i]
              && entries[i].finding.freshness.RecoveredNotFresh? && |entries[i].history| <= capacity.maxHistory
    {
      assert EntryIs(b, w.ids[i], entries[i]);
      assert DecodedFinding(w.ids[i], b.store.findings[w.ids[i]], b.histories[w.ids[i]], capacity);
    }
  }

  lemma EntryReread(b: Book, w: Walk, capacity: Capacity, r: Book, i: nat)
    requires Walks(b, w) && Conservative(b, capacity) && IsRestored(b, w, capacity, r) && i < |w.ids|
    ensures
      var id := w.ids[i];
      && id in r.store.findings && id in r.histories && id in b.store.findings && id in b.histories
      && r.store.findings[id] == RereadFinding(b.store.findings[id])
      && r.histories[id] == Each(RereadEvent, b.histories[id])
  {
    hide Walks, SameBaselines, SameWindows, Conservative, RereadEvent, Each, PendingCount;
    var entries := Entries(b, w);
    EntriesQuiet(b, w, capacity);
    assert EntryBack(entries, i, b.sequence, capacity.maxHistory, r);
    SameStanding(entries[i].finding);
    FreshnessStays(entries[i].finding);
  }

  lemma FreshnessStays(f: Finding)
    requires f.freshness.RecoveredNotFresh?
    ensures RestoredFinding(f) == RereadFinding(f) && !Pending(RereadFinding(f)) && !Pending(f)
  {}

  /** No event, no loss: a restored ledger comes back with only its stamps reread. */
  lemma SecondPass(b: Book, w: Walk, capacity: Capacity)
    requires Walks(b, w) && Conservative(b, capacity)
    ensures Decoded(Saved(b, w), capacity) == Some(RereadBook(b))
  {
    hide Walks, Conservative, Saved, Decoded, RereadEvent, Each, RereadFinding, RereadBaseline, RestoredWindow,
         PendingCount, IsRestored;
    ConservativeIsSavable(b, capacity);
    Restores(b, w, capacity);
    var r := Decoded(Saved(b, w), capacity).value;
    FindingsAgree(b, w, capacity, r);
    RestAgrees(b, w, capacity, r);
    assert r == RereadBook(b);
  }

  lemma FindingsAgree(b: Book, w: Walk, capacity: Capacity, r: Book)
    requires Walks(b, w) && Conservative(b, capacity) && IsRestored(b, w, capacity, r)
    ensures r.store.findings == RereadBook(b).store.findings && r.histories == RereadBook(b).histories
    ensures r.sequence == b.sequence
  {
    hide Walks, Conservative, RereadEvent, Each, RereadFinding, PendingCount, IsRestored, Keyed, RereadBook;
    ConservativeIsSavable(b, capacity);
    EntriesQuiet(b, w, capacity);
    NonePending(Entries(b, w));
    SequenceAfter(b, w, capacity, r);
    forall id | id in b.store.findings ensures IdReread(b, r, id) {
      var i := IdAt(b, w, id);
      EntryReread(b, w, capacity, r, i);
    }
    SameKeys(b, w);
    NoneElse(b, w, capacity, r);
    MapsAgree(b, r);
  }

  predicate IdReread(b: Book, r: Book, id: FindingId) {
    && id in r.store.findings && id in r.histories && id in b.store.findings && id in b.histories
    && r.store.findings[id] == RereadFinding(b.store.findings[id])
    && r.histories[id] == Each(RereadEvent, b.histories[id])
  }

  lemma MapsAgree(b: Book, r: Book)
    requires b.histories.Keys == b.store.findings.Keys && r.histories.Keys == r.store.findings.Keys
    requires forall id :: id in r.store.findings ==> id in b.store.findings
    requires forall id :: id in b.store.findings ==> IdReread(b, r, id)
    ensures r.store.findings == RereadBook(b).store.findings && r.histories == RereadBook(b).histories
  {
    hide RereadFinding, RereadEvent, Each, RereadBaseline, RestoredWindow;
    assert forall id :: id in b.histories ==> IdReread(b, r, id);
  }

  lemma SequenceAfter(b: Book, w: Walk, capacity: Capacity, r: Book)
    requires Walks(b, w) && IsRestored(b, w, capacity, r)
    ensures r.sequence == b.sequence + PendingCount(Entries(b, w))
  {
    hide Walks, PendingCount, EntryBack, SameBaselines, SameWindows;
  }

  lemma NoneElse(b: Book, w: Walk, capacity: Capacity, r: Book)
    requires Walks(b, w) && IsRestored(b, w, capacity, r) && Keyed(b)
    ensures forall id :: id in r.store.findings ==> id in b.store.findings
    ensures r.histories.Keys == r.store.findings.Keys
  {
    hide Walks, PendingCount, EntryBack, SameBaselines, SameWindows, KeyedWindow;
    var entries := Entries(b, w);
    forall id | id in r.store.findings ensures id in b.store.findings {
      assert Listed(entries, |entries|, id);
      var i :| 0 <= i < |entries| && entries[i].finding.id == id;
      assert EntryIs(b, w.ids[i], entries[i]);
    }
  }

  lemma SameKeys(b: Book, w: Walk)
    requires Walks(b, w)
    ensures b.histories.Keys == b.store.findings.Keys
  {
    hide Lists;
  }

  lemma RestAgrees(b: Book, w: Walk, capacity: Capacity, r: Book)
    requires Walks(b, w) && Conservative(b, capacity) && IsRestored(b, w, capacity, r)
    ensures r.store.baselines == RereadBook(b).store.baselines && r.store.windows == RereadBook(b).store.windows
    ensures r.store.streaks == map[] && r.timeline == Each(RereadEvent, b.timeline) && r.revision == b.revision
  {
    hide Walks, Conservative, RereadEvent, Each, RereadBaseline, RestoredWindow, SameEntries;
    ConservativeIsSavable(b, capacity);
  }

  // ----- stamps

  predicate RefStamps(r: EvidenceRef, ok: int64 -> bool) { ok(r.snapshot.collectedAt) && ok(r.snapshot.receivedAt) }

  predicate FindingStamps(f: Finding, ok: int64 -> bool) {
    && ok(f.firstSeen) && ok(f.lastSeen) && ok(f.lastEvaluated) && ok(f.resolvedAt) && ok(f.acknowledgedAt)
    && (f.expiresAt.Some? ==> ok(f.expiresAt.value))
    && forall i :: 0 <= i < |f.evidence| ==> RefStamps(f.evidence[i], ok)
  }

  predicate EventStamps(es: seq<Event>, ok: int64 -> bool) { forall i :: 0 <= i < |es| ==> ok(es[i].at) }

  predicate WindowStamps(w: seq<Retained>, ok: int64 -> bool) {
    forall i :: 0 <= i < |w| ==> ok(w[i].snapshot.collectedAt)
  }

  /** Every stamp that a payload holds. */
  predicate Stamped(b: Book, ok: int64 -> bool) {
    && (forall t :: t in b.store.baselines ==> ok(b.store.baselines[t].committedAt))
    && (forall k :: k in b.store.windows ==> WindowStamps(b.store.windows[k], ok))
    && (forall id :: id in b.store.findings ==> FindingStamps(b.store.findings[id], ok))
    && (forall id :: id in b.histories ==> EventStamps(b.histories[id], ok))
    && EventStamps(b.timeline, ok)
  }

  lemma EventsSettled(es: seq<Event>)
    ensures Each(RereadEvent, es) == es <==> EventStamps(es, Settled)
  {
    hide Settled;
    var r := Each(RereadEvent, es);
    forall i | 0 <= i < |es| ensures r[i] == es[i] <==> Settled(es[i].at) {
      StampBack(es[i].at);
    }
    if r == es {
      assert forall i :: 0 <= i < |es| ==> r[i] == es[i];
    }
  }

  lemma RefsSettled(rs: seq<EvidenceRef>)
    ensures Each(RereadRef, rs) == rs <==> forall i :: 0 <= i < |rs| ==> RefStamps(rs[i], Settled)
  {
    hide Settled;
    var back := Each(RereadRef, rs);
    forall i | 0 <= i < |rs| ensures back[i] == rs[i] <==> RefStamps(rs[i], Settled) {
      StampBack(rs[i].snapshot.collectedAt);
      StampBack(rs[i].snapshot.receivedAt);
    }
    if back == rs {
      assert forall i :: 0 <= i < |rs| ==> back[i] == rs[i];
    }
  }

  lemma FindingSettled(f: Finding)
    ensures RereadFinding(f) == f <==> FindingStamps(f, Settled)
  {
    hide Settled, ReadBack, Each, RefStamps;
    RefsSettled(f.evidence);
    StampBack(f.firstSeen);
    StampBack(f.lastSeen);
    StampBack(f.lastEvaluated);
    StampBack(f.resolvedAt);
    StampBack(f.acknowledgedAt);
    if f.expiresAt.Some? {
      StampBack(f.expiresAt.value);
    }
  }

  lemma WindowSettled(k: WindowKey, w: seq<Retained>, limit: nat)
    requires DecodedWindow(k, w, limit)
    ensures RestoredWindow(w) == w <==> WindowStamps(w, Settled)
  {
    hide Settled, ReadBack, SavableSnapshot;
    var r := RestoredWindow(w);
    forall i | 0 <= i < |w| ensures r[i] == w[i] <==> Settled(w[i].snapshot.collectedAt) {
      StampBack(w[i].snapshot.collectedAt);
    }
    if r == w {
      assert forall i :: 0 <= i < |w| ==> r[i] == w[i];
    }
  }

  /** The second pass gives the ledger back itself exactly if no stamp lies
      before 1970 off midnight. */
  lemma BookSettled(b: Book, capacity: Capacity)
    requires Conservative(b, capacity)
    ensures RereadBook(b) == b <==> Stamped(b, Settled)
  {
    hide Settled, FindingStamps, EventStamps, WindowStamps, RereadFinding, RestoredWindow, Each, DecodedWindow,
         DecodedPart, ValidIdentity;
    var r := RereadBook(b);
    forall t | t in b.store.baselines
      ensures RereadBaseline(b.store.baselines[t]) == b.store.baselines[t] <==> Settled(b.store.baselines[t].committedAt)
    {
      StampBack(b.store.baselines[t].committedAt);
    }
    forall k | k in b.store.windows
      ensures RestoredWindow(b.store.windows[k]) == b.store.windows[k] <==> WindowStamps(b.store.windows[k], Settled)
    {
      WindowSettled(k, b.store.windows[k], capacity.maxRetained);
    }
    forall id | id in b.store.findings
      ensures RereadFinding(b.store.findings[id]) == b.store.findings[id] <==> FindingStamps(b.store.findings[id], Settled)
    {
      FindingSettled(b.store.findings[id]);
    }
    forall id | id in b.histories
      ensures Each(RereadEvent, b.histories[id]) == b.histories[id] <==> EventStamps(b.histories[id], Settled)
    {
      EventsSettled(b.histories[id]);
    }
    EventsSettled(b.timeline);
    BooksEqual(b, r);
  }

  /** Equality of books, map by map and entry by entry. */
  lemma BooksEqual(b: Book, r: Book)
    requires r.store.baselines.Keys == b.store.baselines.Keys && r.store.windows.Keys == b.store.windows.Keys
    requires r.store.findings.Keys == b.store.findings.Keys && r.histories.Keys == b.histories.Keys
    requires r.store.streaks == b.store.streaks && r.sequence == b.sequence && r.revision == b.revision
    ensures r == b <==>
            && (forall t :: t in b.store.baselines ==> r.store.baselines[t] == b.store.baselines[t])
            && (forall k :: k in b.store.windows ==> r.store.windows[k] == b.store.windows[k])
            && (forall id :: id in b.store.findings ==> r.store.findings[id] == b.store.findings[id])
            && (forall id :: id in b.histories ==> r.histories[id] == b.histories[id])
            && r.timeline == b.timeline
  {
    if (forall t :: t in b.store.baselines ==> r.store.baselines[t] == b.store.baselines[t])
       && (forall k :: k in b.store.windows ==> r.store.windows[k] == b.store.windows[k])
       && (forall id :: id in b.store.findings ==> r.store.findings[id] == b.store.findings[id])
       && (forall id :: id in b.histories ==> r.histories[id] == b.histories[id]) && r.timeline == b.timeline
    {
      assert r.store.baselines == b.store.baselines && r.store.windows == b.store.windows;
      assert r.store.findings == b.store.findings && r.histories == b.histories;
    }
  }

  // ----- the payload

  lemma EventLasts(e: Event)
    ensures SaveEvent(RereadEvent(e)) == SaveEvent(e) <==> Lasting(e.at)
  {
    hide FormatTime, Lasting, ReadBack;
    SpellingLasts(e.at);
  }

  lemma EventsLast(es: seq<Event>)
    ensures Each(SaveEvent, Each(RereadEvent, es)) == Each(SaveEvent, es) <==> EventStamps(es, Lasting)
  {
    hide SaveEvent, RereadEvent, Lasting;
    var a, b := Each(SaveEvent, Each(RereadEvent, es)), Each(SaveEvent, es);
    forall i | 0 <= i < |es| ensures a[i] == b[i] <==> Lasting(es[i].at) {
      EventLasts(es[i]);
    }
    if a == b {
      assert forall i :: 0 <= i < |es| ==> a[i] == b[i];
    }
  }

  lemma RefLasts(r: EvidenceRef)
    ensures SaveRef(RereadRef(r)) == SaveRef(r) <==> RefStamps(r, Lasting)
  {
    hide FormatTime, Lasting, ReadBack;
    SpellingLasts(r.snapshot.collectedAt);
    SpellingLasts(r.snapshot.receivedAt);
  }

  lemma RefsLast(rs: seq<EvidenceRef>)
    ensures Each(SaveRef, Each(RereadRef, rs)) == Each(SaveRef, rs)
       <==> forall i :: 0 <= i < |rs| ==> RefStamps(rs[i], Lasting)
  {
    hide SaveRef, RereadRef, RefStamps;
    var a, b := Each(SaveRef, Each(RereadRef, rs)), Each(SaveRef, rs);
    forall i | 0 <= i < |rs| ensures a[i] == b[i] <==> RefStamps(rs[i], Lasting) {
      RefLasts(rs[i]);
    }
    if a == b {
      assert forall i :: 0 <= i < |rs| ==> a[i] == b[i];
    }
  }

  lemma FindingLasts(f: Finding, history: seq<Event>)
    ensures SaveFinding(RereadFinding(f), Each(RereadEvent, history)) == SaveFinding(f, history)
       <==> FindingStamps(f, Lasting) && EventStamps(history, Lasting)
  {
    hide FormatTime, Lasting, ReadBack, Each, RefStamps, EventStamps, Paths.ToText, SaveEvent, SaveRef, RereadEvent,
         RereadRef;
    RefsLast(f.evidence);
    EventsLast(history);
    SpellingLasts(f.firstSeen);
    SpellingLasts(f.lastSeen);
    SpellingLasts(f.lastEvaluated);
    SpellingLasts(f.resolvedAt);
    SpellingLasts(f.acknowledgedAt);
    if f.expiresAt.Some? {
      SpellingLasts(f.expiresAt.value);
    }
    assert Plain(RereadFinding(f)) == Plain(f);
  }

  lemma WindowLasts(w: seq<Retained>)
    ensures Each(SaveRetained, RestoredWindow(w)) == Each(SaveRetained, w) <==> WindowStamps(w, Lasting)
  {
    hide FormatTime, Lasting, ReadBack;
    var a, b := Each(SaveRetained, RestoredWindow(w)), Each(SaveRetained, w);
    forall i | 0 <= i < |w| ensures a[i] == b[i] <==> Lasting(w[i].snapshot.collectedAt) {
      SpellingLasts(w[i].snapshot.collectedAt);
      assert RestoredWindow(w)[i] == RestoredRecord(RereadSnapshot(w[i].snapshot));
    }
    if a == b {
      assert forall i :: 0 <= i < |w| ==> a[i] == b[i];
    }
  }

  lemma {:induction false} WindowsLast(items: seq<Pair<WindowKey, seq<Retained>>>,
                                       back: seq<Pair<WindowKey, seq<Retained>>>)
    requires |items| == |back| && forall i :: 0 <= i < |items| ==> back[i].value == RestoredWindow(items[i].value)
    ensures SaveWindows(back) == SaveWindows(items)
       <==> forall i :: 0 <= i < |items| ==> WindowStamps(items[i].value, Lasting)
    decreases |items|
  {
    hide SaveRetained, RestoredWindow, WindowStamps;
    if items != [] {
      var k := |items| - 1;
      WindowsLast(items[..k], back[..k]);
      WindowLasts(items[k].value);
      Cancel(SaveWindows(back[..k]), Each(SaveRetained, back[k].value), SaveWindows(items[..k]),
             Each(SaveRetained, items[k].value));
      assert forall i :: 0 <= i < k ==> items[..k][i] == items[i];
    }
  }

  lemma Cancel<T>(a: seq<T>, x: seq<T>, b: seq<T>, y: seq<T>)
    requires |x| == |y|
    ensures a + x == b + y <==> a == b && x == y
  {
    if a + x == b + y {
      assert |a| == |b|;
      assert a == (a + x)[..|a|] && b == (b + y)[..|b|] && x == (a + x)[|a|..] && y == (b + y)[|b|..];
    }
  }

  lemma WalksBack(b: Book, w: Walk)
    requires Walks(b, w)
    ensures Walks(RereadBook(b), w)
  {
    hide Lists, RereadBaseline, RestoredWindow, RereadFinding, RereadEvent, Each;
    var r := RereadBook(b);
    assert r.store.baselines.Keys == b.store.baselines.Keys && r.store.windows.Keys == b.store.windows.Keys;
    assert r.store.findings.Keys == b.store.findings.Keys && r.histories.Keys == b.histories.Keys;
  }

  lemma BaselinePayload(b: Book, w: Walk)
    requires Walks(b, w) && Walks(RereadBook(b), w)
    ensures Each(SaveBaseline, Baselines(RereadBook(b), w)) == Each(SaveBaseline, Baselines(b, w))
       <==> forall t :: t in b.store.baselines ==> Lasting(b.store.baselines[t].committedAt)
  {
    hide Walks, FormatTime, Lasting, ReadBack, RestoredWindow, RereadFinding, RereadEvent;
    var x, y := Each(SaveBaseline, Baselines(RereadBook(b), w)), Each(SaveBaseline, Baselines(b, w));
    forall i | 0 <= i < |w.targets| ensures x[i] == y[i] <==> Lasting(b.store.baselines[w.targets[i]].committedAt) {
      SpellingLasts(b.store.baselines[w.targets[i]].committedAt);
    }
    if x == y {
      forall t | t in b.store.baselines ensures Lasting(b.store.baselines[t].committedAt) {
        var i := TargetAt(b, w, t);
        assert x[i] == y[i];
      }
    }
  }

  lemma WindowPayload(b: Book, w: Walk)
    requires Walks(b, w) && Walks(RereadBook(b), w)
    ensures SaveWindows(Windows(RereadBook(b), w)) == SaveWindows(Windows(b, w))
       <==> forall k :: k in b.store.windows ==> WindowStamps(b.store.windows[k], Lasting)
  {
    hide Walks, RestoredWindow, RereadFinding, RereadEvent, RereadBaseline, SaveWindows, WindowStamps;
    var items := Windows(b, w);
    WindowsLast(items, Windows(RereadBook(b), w));
    if forall i :: 0 <= i < |items| ==> WindowStamps(items[i].value, Lasting) {
      forall k | k in b.store.windows ensures WindowStamps(b.store.windows[k], Lasting) {
        var i := KeyAt(b, w, k);
        assert items[i].value == b.store.windows[k];
      }
    }
  }

  predicate EntryStamps(b: Book, id: FindingId, ok: int64 -> bool) {
    && (id in b.store.findings ==> FindingStamps(b.store.findings[id], ok))
    && (id in b.histories ==> EventStamps(b.histories[id], ok))
  }

  lemma FindingPayload(b: Book, w: Walk)
    requires Walks(b, w) && Walks(RereadBook(b), w)
    ensures Each(SaveEntry, Entries(RereadBook(b), w)) == Each(SaveEntry, Entries(b, w))
       <==> forall id :: id in b.store.findings ==> EntryStamps(b, id, Lasting)
  {
    hide Walks, RestoredWindow, RereadFinding, RereadEvent, RereadBaseline, SaveFinding, FindingStamps, EventStamps;
    var r := RereadBook(b);
    var x, y := Each(SaveEntry, Entries(r, w)), Each(SaveEntry, Entries(b, w));
    forall i | 0 <= i < |w.ids| ensures x[i] == y[i] <==> EntryStamps(b, w.ids[i], Lasting) {
      assert EntryIs(b, w.ids[i], Entries(b, w)[i]) && EntryIs(r, w.ids[i], Entries(r, w)[i]);
      FindingLasts(b.store.findings[w.ids[i]], b.histories[w.ids[i]]);
    }
    if x == y {
      forall id | id in b.store.findings ensures EntryStamps(b, id, Lasting) {
        var i := IdAt(b, w, id);
        assert x[i] == y[i];
      }
    }
    if forall id :: id in b.store.findings ==> EntryStamps(b, id, Lasting) {
      forall i | 0 <= i < |w.ids| ensures x[i] == y[i] {
        assert EntryIs(b, w.ids[i], Entries(b, w)[i]);
      }
      assert x == y;
    }
  }

  lemma EntriesStamped(b: Book, ok: int64 -> bool)
    requires b.histories.Keys == b.store.findings.Keys
    ensures (forall id :: id in b.store.findings ==> EntryStamps(b, id, ok))
       <==> && (forall id :: id in b.store.findings ==> FindingStamps(b.store.findings[id], ok))
            && (forall id :: id in b.histories ==> EventStamps(b.histories[id], ok))
  {
    hide FindingStamps, EventStamps;
    if forall id :: id in b.store.findings ==> EntryStamps(b, id, ok) {
      forall id | id in b.histories ensures EventStamps(b.histories[id], ok) {
        assert EntryStamps(b, id, ok);
      }
    }
  }

  lemma PayloadLasts(b: Book, w: Walk)
    requires Walks(b, w) && Walks(RereadBook(b), w)
    ensures Saved(RereadBook(b), w) == Saved(b, w) <==> Stamped(b, Lasting)
  {
    hide Walks, RestoredWindow, RereadFinding, RereadEvent, RereadBaseline, SaveWindows, SaveEntry, SaveBaseline,
         SaveEvent, Each, EntryStamps, FindingStamps, EventStamps, WindowStamps;
    BaselinePayload(b, w);
    WindowPayload(b, w);
    FindingPayload(b, w);
    EventsLast(b.timeline);
    SameKeys(b, w);
    EntriesStamped(b, Lasting);
  }

  /** A decoded ledger, saved and decoded once more, always decodes. It comes
      back unchanged exactly if its stamps are settled, and its payload
      repeats exactly if they last: none lies a day or more before 1970 off midnight. */
  lemma FixedPoint(p: Payload, w: Walk, capacity: Capacity)
    requires capacity.maxRetained >= 1 && Decoded(p, capacity).Some? && Walks(Decoded(p, capacity).value, w)
    ensures
      var b := Decoded(p, capacity).value;
      var again := Decoded(Saved(b, w), capacity);
      && again.Some? && Walks(again.value, w)
      && (again.value == b <==> Stamped(b, Settled))
      && (Saved(again.value, w) == Saved(b, w) <==> Stamped(b, Lasting))
  {
    hide Decoded, Walks, Saved, RereadBook, Conservative, Stamped;
    var b := Decoded(p, capacity).value;
    DecodedIsConservative(p, capacity);
    SecondPass(b, w, capacity);
    BookSettled(b, capacity);
    WalksBack(b, w);
    PayloadLasts(b, w);
  }
}
