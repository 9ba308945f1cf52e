/** Ledgers the program can reach and save, and then refuses to restore: what appends
    events without trimming afterwards leaves a timeline or a history over its bound. */
module SaveRefusals {
  import opened Core
  import opened Values
  import opened Domain
  import opened LedgerState
  import opened LedgerRuns
  import opened Recovery
  import opened RecoveryResults
  import Findings
  import Ledger
  import Window

  /** Everything the decoder asks but the bound of the global timeline. */
  predicate SavableRecords(b: Book, capacity: Capacity) {
    BaselinesSavable(b, capacity) && WindowsSavable(b) && FindingsSavable(b, capacity)
  }

  /** A ledger as it is saved, for histories that are kept beside it. */
  function BookOf(ledger: Ledger.FindingLedger, histories: map<FindingId, seq<Event>>): Book
    reads ledger
  {
    Book(ledger.Contents(), histories, ledger.timeline, ledger.timelineSequence, ledger.revision)
  }

  ghost predicate Refused(b: Book, capacity: Capacity) {
    forall w :: Walks(b, w) ==> Decoded(Saved(b, w), capacity).None?
  }

  /** The last check before a payload decodes is that of its timeline. */
  ghost predicate DecodesWhen(b: Book, capacity: Capacity, room: bool) {
    forall w :: Walks(b, w) ==>
      && (Decoded(Saved(b, w), capacity).Some? ==> room)
      && (Bounded(b, capacity) && SavableRecords(b, capacity) && room ==> Decoded(Saved(b, w), capacity).Some?)
  }

  lemma LifecycleKeyed(b: Book)
    requires Lifecycle(b.store)
    ensures Keyed(b)
  {
    hide Findings.Live, Window.Tidy, OfCommitted;
    forall id | id in b.store.findings ensures b.store.findings[id].id == id {
      assert Kept(b.store, id);
    }
    forall k | k in b.store.windows ensures KeyedWindow(k, b.store.windows[k]) {
      assert WindowKept(k, b.store.windows[k]);
    }
    forall t | t in b.store.baselines ensures b.store.baselines[t].target == t {
      assert BaselineKept(t, b.store.baselines[t]);
    }
  }

  lemma TimelineDecides(b: Book, capacity: Capacity, length: nat)
    requires Lifecycle(b.store) && |b.timeline| == length
    ensures DecodesWhen(b, capacity, length <= capacity.maxTimeline)
    ensures length > capacity.maxTimeline ==> Refused(b, capacity)
  {
    hide Lifecycle, Keyed, Walks, BaselinesSavable, WindowsSavable, FindingsSavable, Bounded, RestoreBaselines,
         RestoreObservations, RestoreFindings, LoadAll, SaveWindows, IsRestored;
    LifecycleKeyed(b);
    forall w | Walks(b, w)
      ensures Decoded(Saved(b, w), capacity).Some? ==> length <= capacity.maxTimeline
      ensures Bounded(b, capacity) && SavableRecords(b, capacity) && length <= capacity.maxTimeline
          ==> Decoded(Saved(b, w), capacity).Some?
    {
      if Bounded(b, capacity) { Restores(b, w, capacity); }
    }
  }

  /** A commit appends one event for itself and one for each finding it rebases, and never
      trims: the saved ledger decodes only if its old timeline had room for them all. */
  method CommitThenSave(ledger: Ledger.FindingLedger, ghost histories: map<FindingId, seq<Event>>, d: Document, now: int64,
                        capacity: Capacity)
    returns (r: Result<Commit>)
    requires ledger.Valid()
    modifies ledger
    ensures ledger.Valid() && r == Ok(ScreenIntent(old(ledger.Contents()), d, ledger.limits.maxTargets))
    ensures r == Ok(Accepted) ==>
      var length := |old(ledger.timeline)| + |Ledger.Moved(old(ledger.Contents()), d)| + 1;
      && DecodesWhen(BookOf(ledger, histories), capacity, length <= capacity.maxTimeline)
      && (length > capacity.maxTimeline ==> Refused(BookOf(ledger, histories), capacity))
  {
    hide Lifecycle, Ledger.Rising, Ledger.Moved, Ledger.Reports, LedgerState.CommitIntent, DecodesWhen, Refused;
    r := ledger.CommitIntent(d, now, Ok(()));
    TimelineDecides(BookOf(ledger, histories), capacity, |ledger.timeline|);
  }

  /** No bound holds: a ledger that has committed one target's generations one after another,
      and nothing else, is refused by every decoder whose bound their number exceeds. */
  method CommitGenerations(d: Document, count: nat, now: int64, limits: Limits) returns (ledger: Ledger.FindingLedger)
    requires limits.maxTargets >= 1
    ensures fresh(ledger) && ledger.Valid() && |ledger.timeline| == count && ledger.findings == map[]
    ensures forall capacity: Capacity :: capacity.maxTimeline < count ==> Refused(BookOf(ledger, map[]), capacity)
  {
    hide Lifecycle, Ledger.Rising, Ledger.Reports, DecodesWhen, Refused;
    ledger := new Ledger.FindingLedger(limits);
    for i := 0 to count
      invariant fresh(ledger) && ledger.Valid() && ledger.limits == limits
      invariant |ledger.timeline| == i && ledger.findings == map[]
      invariant ledger.baselines.Keys == if i == 0 then {} else {d.target}
      invariant d.target in ledger.baselines ==>
        ledger.baselines[d.target].generation == i - 1 && ledger.baselines[d.target].epoch == d.epoch
    {
      var next := d.(generation := i);
      assert Ledger.Moved(ledger.Contents(), next) == {};
      var _ := ledger.CommitIntent(next, now, Ok(()));
    }
    forall capacity: Capacity | capacity.maxTimeline < count ensures Refused(BookOf(ledger, map[]), capacity) {
      TimelineDecides(BookOf(ledger, map[]), capacity, count);
    }
  }

  // ----- histories

  lemma OverlongHistoryRefused(b: Book, w: Walk, capacity: Capacity, id: FindingId)
    requires Walks(b, w) && Keyed(b) && Bounded(b, capacity) && id in b.histories
    requires |b.histories[id]| > capacity.maxHistory
    ensures Decoded(Saved(b, w), capacity).None?
  {
    hide Keyed, BaselinesSavable, WindowsSavable, Bounded, Decoded, IsRestored;
    Restores(b, w, capacity);
    assert !FindingSavable(b, id, capacity) && id in b.store.findings;
  }

  /** What a resolution leaves of a history: the trimming comes before the event. A
      reclassification does not trim at all, which is the same for a history within its bound. */
  function ResolvedHistory(history: seq<Event>, e: Event, maxHistory: nat): seq<Event> {
    Recent(history, maxHistory) + [e]
  }

  /** What trimming after the event would leave. */
  function TrimmedHistory(history: seq<Event>, e: Event, maxHistory: nat): seq<Event> {
    Recent(history + [e], maxHistory)
  }

  /** A history overflows by its resolution exactly if it was full; it then keeps its
      whole ledger from being restored. Trimming last, it would not. */
  lemma ResolutionOverfills(b: Book, w: Walk, capacity: Capacity, id: FindingId, history: seq<Event>, e: Event)
    requires Walks(b, w) && Keyed(b) && Bounded(b, capacity)
    requires id in b.histories && b.histories[id] == ResolvedHistory(history, e, capacity.maxHistory)
    ensures |b.histories[id]| > capacity.maxHistory <==> |history| >= capacity.maxHistory
    ensures |history| >= capacity.maxHistory ==> Decoded(Saved(b, w), capacity).None?
    ensures |TrimmedHistory(history, e, capacity.maxHistory)| <= capacity.maxHistory
  {
    hide Keyed, Bounded, Walks, Decoded;
    if |history| >= capacity.maxHistory {
      OverlongHistoryRefused(b, w, capacity, id);
    }
  }
}
