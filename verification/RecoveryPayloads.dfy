/** What a decoder makes of any payload, whoever wrote it: which records pass, and what the
    restored ledger holds for each key. */
module RecoveryPayloads {
  import opened Core
  import opened Values
  import opened Domain
  import opened Window
  import opened Findings
  import opened LedgerState
  import opened PathTexts
  import opened Recovery
  import Ledger
  import Paths
  import Stamps

  // ----- one record

  /** An absent stamp stands for the default instant. */
  predicate Says(text: Text, at: int64) { if text == [] then at == 0 else Stamps.Parsed(text) == Some(at) }

  predicate EventSays(s: SavedEvent, e: Event) { Stamps.Parsed(s.at) == Some(e.at) && e == s.rest.(at := e.at) }

  predicate RefSays(s: SavedRef, r: EvidenceRef) {
    && Stamps.Parsed(s.collectedAt) == Some(r.snapshot.collectedAt)
    && Stamps.Parsed(s.receivedAt) == Some(r.snapshot.receivedAt)
    && r == s.rest.(snapshot := s.rest.snapshot.(collectedAt := r.snapshot.collectedAt,
                                                 receivedAt := r.snapshot.receivedAt))
  }

  ghost predicate SnapshotSays(r: SavedSnapshot, s: Snapshot) {
    && IdentityText(s.source) && IdentityText(s.target) && s.ttl >= 0
    && Stamps.Parsed(r.collectedAt) == Some(s.collectedAt) && s.receivedAt == 0
    && s == r.rest.(collectedAt := s.collectedAt, receivedAt := 0)
  }

  ghost predicate BaselineSays(r: SavedBaseline, b: Baseline) {
    && IdentityText(b.target) && Stamps.Parsed(r.committedAt) == Some(b.committedAt)
    && b == r.rest.(committedAt := b.committedAt)
  }

  /** The identity that the members of the record spell is the one the record claims. */
  ghost predicate Identifies(s: SavedFinding, f: Finding, paths: Paths.Limits) {
    && IdentityText(s.target) && IdentityText(s.objectId)
    && f.id.target == s.target && f.id.objectId == s.objectId && f.id.qualifier == s.qualifier
    && Paths.Parsed(s.path, paths) == Some(f.id.path)
    && f.id.klass == f.klass && f.id.generation == f.generation
  }

  predicate StampsSay(s: SavedFinding, f: Finding) {
    && Says(s.firstSeen, f.firstSeen) && Says(s.lastSeen, f.lastSeen) && Says(s.lastEvaluated, f.lastEvaluated)
    && Says(s.resolvedAt, f.resolvedAt) && Says(s.acknowledgedAt, f.acknowledgedAt)
    && (if s.expiresAt == [] then f.expiresAt == None
        else f.expiresAt.Some? && Stamps.Parsed(s.expiresAt) == Some(f.expiresAt.value))
  }

  ghost predicate FindingSays(s: SavedFinding, f: Finding, history: seq<Event>, capacity: Capacity) {
    && Identifies(s, f, capacity.paths) && StampsSay(s, f) && f.confirmations < 0x1_0000_0000
    && |f.evidence| == |s.evidence| <= capacity.maxRefs && |history| == |s.history| <= capacity.maxHistory
    && (forall i :: 0 <= i < |s.evidence| ==> RefSays(s.evidence[i], f.evidence[i]))
    && (forall i :: 0 <= i < |s.history| ==> EventSays(s.history[i], history[i]))
    && f == s.rest.(firstSeen := f.firstSeen, lastSeen := f.lastSeen, lastEvaluated := f.lastEvaluated,
                    resolvedAt := f.resolvedAt, expiresAt := f.expiresAt, acknowledgedAt := f.acknowledgedAt,
                    evidence := f.evidence)
  }

  lemma SnapshotExactly(r: SavedSnapshot, s: Snapshot)
    ensures LoadSnapshot(r) == Some(s) <==> SnapshotSays(r, s)
  {
    hide Stamps.Parsed, IdentityText, Identity.ValidIdentity;
    IdentityExactly(r.rest.source);
    IdentityExactly(r.rest.target);
  }

  lemma BaselineExactly(r: SavedBaseline, b: Baseline)
    ensures LoadBaseline(r) == Some(b) <==> BaselineSays(r, b)
  {
    hide Stamps.Parsed, IdentityText, Identity.ValidIdentity;
    IdentityExactly(r.rest.target);
  }

  lemma EventExactly(s: SavedEvent, e: Event)
    ensures LoadEvent(s) == Some(e) <==> EventSays(s, e)
  {
    hide Stamps.Parsed;
  }

  lemma RefExactly(s: SavedRef, r: EvidenceRef)
    ensures LoadRef(s) == Some(r) <==> RefSays(s, r)
  {
    hide Stamps.Parsed;
  }

  lemma AllExactly<S, T>(f: S -> Option<T>, s: seq<S>, t: seq<T>)
    ensures LoadAll(f, s) == Some(t) <==> |t| == |s| && forall i :: 0 <= i < |s| ==> f(s[i]) == Some(t[i])
  {
    var r := LoadAll(f, s);
    if |t| == |s| && (forall i :: 0 <= i < |s| ==> f(s[i]) == Some(t[i])) && r.Some? {
      forall i | 0 <= i < |s|
        ensures r.value[i] == t[i]
      {
        assert f(s[i]) == Some(r.value[i]);
      }
      assert r.value == t;
    }
  }

  lemma EventsExactly(s: seq<SavedEvent>, es: seq<Event>)
    ensures LoadAll(LoadEvent, s) == Some(es) <==> |es| == |s| && forall i :: 0 <= i < |s| ==> EventSays(s[i], es[i])
  {
    hide LoadAll, LoadEvent, EventSays;
    AllExactly(LoadEvent, s, es);
    if |es| == |s| {
      forall i | 0 <= i < |s|
        ensures LoadEvent(s[i]) == Some(es[i]) <==> EventSays(s[i], es[i])
      {
        EventExactly(s[i], es[i]);
      }
    }
  }

  lemma RefsExactly(s: seq<SavedRef>, rs: seq<EvidenceRef>)
    ensures LoadAll(LoadRef, s) == Some(rs) <==> |rs| == |s| && forall i :: 0 <= i < |s| ==> RefSays(s[i], rs[i])
  {
    hide LoadAll, LoadRef, RefSays;
    AllExactly(LoadRef, s, rs);
    if |rs| == |s| {
      forall i | 0 <= i < |s|
        ensures LoadRef(s[i]) == Some(rs[i]) <==> RefSays(s[i], rs[i])
      {
        RefExactly(s[i], rs[i]);
      }
    }
  }

  /** Which finding records pass, and as which finding with which history. */
  lemma FindingExactly(s: SavedFinding, f: Finding, history: seq<Event>, capacity: Capacity)
    ensures LoadFinding(s, capacity) == Some((f, history)) <==> FindingSays(s, f, history, capacity)
  {
    hide Stamps.Parsed, IdentityText, Identity.ValidIdentity, Paths.Parsed, LoadAll, LoadEvent, LoadRef, EventSays,
         RefSays;
    IdentityExactly(s.target);
    IdentityExactly(s.objectId);
    EventsExactly(s.history, history);
    RefsExactly(s.evidence, f.evidence);
    if LoadAll(LoadEvent, s.history).Some? {
      EventsExactly(s.history, LoadAll(LoadEvent, s.history).value);
    }
    if LoadAll(LoadRef, s.evidence).Some? {
      RefsExactly(s.evidence, LoadAll(LoadRef, s.evidence).value);
    }
  }

  // ----- observations: each window holds the newest records of its key

  function Mine(xs: seq<Snapshot>, key: WindowKey): seq<Snapshot> {
    if xs == [] then []
    else
      var x := xs[|xs| - 1];
      Mine(xs[..|xs| - 1], key) + if x.target == key.target && x.source == key.source then [x] else []
  }

  function Newest<T>(s: seq<T>, n: nat): seq<T> { if |s| > n then s[|s| - n..] else s }

  predicate NeverCurrent(r: Retained) {
    && r.recovered && r.freshness.state.RecoveredNotFresh? && r.freshness.reason == EvidenceRecoveredNotFresh
    && !r.freshness.maySupportCompliance && !r.freshness.mayAssertAbsence
  }

  predicate WindowSays(windows: map<WindowKey, seq<Retained>>, key: WindowKey, xs: seq<Snapshot>, limit: nat) {
    var mine := Newest(Mine(xs, key), if limit == 0 then 1 else limit);
    && (key in windows <==> mine != [])
    && (key in windows ==>
          && |windows[key]| == |mine|
          && forall i :: 0 <= i < |mine| ==> windows[key][i].snapshot == mine[i] && NeverCurrent(windows[key][i]))
  }

  lemma {:induction false} ObservationsRestored(list: seq<SavedSnapshot>, xs: seq<Snapshot>, limit: nat)
    requires |xs| == |list| && forall i :: 0 <= i < |list| ==> SnapshotSays(list[i], xs[i])
    ensures RestoreObservations(list, limit).Some?
    ensures forall key :: WindowSays(RestoreObservations(list, limit).value, key, xs, limit)
  {
    hide SnapshotSays, LoadSnapshot, RestoreObservation, WindowSays;
    if list == [] {
      forall key
        ensures WindowSays(map[], key, xs, limit)
      {
        NoWindow(key, limit);
      }
    } else {
      var n := |list| - 1;
      ObservationsRestored(list[..n], xs[..n], limit);
      SnapshotExactly(list[n], xs[n]);
      var m := RestoreObservations(list[..n], limit).value;
      forall key
        ensures WindowSays(RestoreObservation(m, xs[n], limit), key, xs, limit)
      {
        OneMoreRecord(m, key, xs, limit);
      }
    }
  }

  lemma NoWindow(key: WindowKey, limit: nat)
    ensures WindowSays(map[], key, [], limit)
  {}

  lemma OneMoreRecord(m: map<WindowKey, seq<Retained>>, key: WindowKey, xs: seq<Snapshot>, limit: nat)
    requires xs != [] && WindowSays(m, key, xs[..|xs| - 1], limit)
    ensures WindowSays(RestoreObservation(m, xs[|xs| - 1], limit), key, xs, limit)
  {
    hide Newest, NeverCurrent;
    var x, n := xs[|xs| - 1], if limit == 0 then 1 else limit;
    var before := Mine(xs[..|xs| - 1], key);
    if WindowKey(x.target, x.source) == key {
      assert Mine(xs, key) == before + [x];
      hide Mine;
      NewestStep(before, x, n);
      MarkedNever(x);
    } else {
      assert Mine(xs, key) == before + [] == before;
    }
  }

  lemma MarkedNever(x: Snapshot)
    ensures NeverCurrent(RestoredRecord(x))
  {}

  lemma NewestStep<T>(s: seq<T>, x: T, n: nat)
    requires n > 0
    ensures Newest(s + [x], n) == (if |Newest(s, n)| >= n then Newest(s, n)[1..] else Newest(s, n)) + [x]
  {}

  lemma {:induction false} ObservationsRefused(list: seq<SavedSnapshot>, limit: nat, i: nat)
    requires i < |list| && forall s :: !SnapshotSays(list[i], s)
    ensures RestoreObservations(list, limit).None?
  {
    hide SnapshotSays, LoadSnapshot, RestoreObservation;
    var n := |list| - 1;
    if i < n {
      ObservationsRefused(list[..n], limit, i);
    } else if LoadSnapshot(list[n]).Some? {
      SnapshotExactly(list[n], LoadSnapshot(list[n]).value);
    }
  }

  // ----- baselines: the last record of each target

  function Targets(bs: seq<Baseline>): set<Text> { set i | 0 <= i < |bs| :: bs[i].target }

  /** No later record is of the same target. */
  predicate Final(bs: seq<Baseline>, i: nat)
    requires i < |bs|
  {
    forall j :: i < j < |bs| ==> bs[j].target != bs[i].target
  }

  ghost predicate BaselinesSay(m: map<Text, Baseline>, bs: seq<Baseline>) {
    && m.Keys == Targets(bs)
    && forall i :: 0 <= i < |bs| && Final(bs, i) ==> bs[i].target in m && m[bs[i].target] == bs[i]
  }

  lemma Subset<T>(a: set<T>, b: set<T>)
    requires a <= b
    ensures |a| <= |b|
  {
    if a != {} {
      var x :| x in a;
      Subset(a - {x}, b - {x});
    }
  }

  lemma {:induction false} BaselinesRestored(list: seq<SavedBaseline>, bs: seq<Baseline>, maxTargets: nat)
    requires |bs| == |list| && forall i :: 0 <= i < |list| ==> BaselineSays(list[i], bs[i])
    ensures RestoreBaselines(list, maxTargets).Some? <==> |Targets(bs)| <= maxTargets
    ensures RestoreBaselines(list, maxTargets).Some? ==> BaselinesSay(RestoreBaselines(list, maxTargets).value, bs)
  {
    hide BaselineSays, LoadBaseline, BaselinesSay;
    if list == [] {
      NoBaselines(bs);
    } else {
      var n := |list| - 1;
      BaselinesRestored(list[..n], bs[..n], maxTargets);
      BaselineExactly(list[n], bs[n]);
      assert Targets(bs) == Targets(bs[..n]) + {bs[n].target};
      Subset(Targets(bs[..n]), Targets(bs));
      if RestoreBaselines(list[..n], maxTargets).Some? {
        OneMoreBaseline(RestoreBaselines(list[..n], maxTargets).value, bs);
      }
    }
  }

  lemma NoBaselines(bs: seq<Baseline>)
    requires bs == []
    ensures Targets(bs) == {} && BaselinesSay(map[], bs)
  {}

  lemma OneMoreBaseline(m: map<Text, Baseline>, bs: seq<Baseline>)
    requires bs != [] && BaselinesSay(m, bs[..|bs| - 1])
    ensures var b := bs[|bs| - 1]; BaselinesSay(m[b.target := b], bs) && m.Keys == Targets(bs[..|bs| - 1])
  {
    var n := |bs| - 1;
    assert Targets(bs) == Targets(bs[..n]) + {bs[n].target};
    hide Targets;
    forall i | 0 <= i < n && Final(bs, i)
      ensures bs[i].target in m && m[bs[i].target] == bs[i] && bs[i].target != bs[n].target
    {
      assert Final(bs[..n], i);
    }
  }

  lemma {:induction false} BaselinesRefused(list: seq<SavedBaseline>, maxTargets: nat, i: nat)
    requires i < |list| && forall b :: !BaselineSays(list[i], b)
    ensures RestoreBaselines(list, maxTargets).None?
  {
    hide BaselineSays, LoadBaseline;
    var n := |list| - 1;
    if i < n {
      BaselinesRefused(list[..n], maxTargets, i);
    } else if LoadBaseline(list[n]).Some? {
      BaselineExactly(list[n], LoadBaseline(list[n]).value);
    }
  }

  // ----- findings: the last record of each identity, marked, with the event of its recovery

  function Ids(fs: seq<Finding>): set<FindingId> { set i | 0 <= i < |fs| :: fs[i].id }

  /** It was live, on evidence that counted as current when it was saved. */
  predicate Interrupted(f: Finding) {
    (f.state.Open? || f.state.Acknowledged? || f.state.Suppressed?) && f.freshness != RecoveredNotFresh
  }

  function Interruptions(fs: seq<Finding>): nat {
    if fs == [] then 0 else Interruptions(fs[..|fs| - 1]) + if Interrupted(fs[|fs| - 1]) then 1 else 0
  }

  predicate RecoveryRecorded(e: Event, f: Finding, number: nat) {
    && e.sequence == number && e.kind == Ledger.EventEvidenceRecovered && e.target == f.id.target
    && e.objectId == f.id.objectId && e.finding == Some(f.id) && e.at == f.lastEvaluated && e.after == f.state
  }

  ghost predicate HistorySays(h: seq<Event>, f: Finding, before: seq<Event>, number: nat, limit: nat) {
    if Interrupted(f) then exists e :: RecoveryRecorded(e, f, number) && h == Newest(before + [e], limit)
    else h == Newest(before, limit)
  }

  /** No later record is of the same identity. */
  predicate FinalFinding(fs: seq<Finding>, i: nat)
    requires i < |fs|
  {
    forall j :: i < j < |fs| ==> fs[j].id != fs[i].id
  }

  ghost predicate PartSays(p: Part, fs: seq<Finding>, hs: seq<seq<Event>>, sequence: nat, limit: nat)
    requires |fs| == |hs|
  {
    && p.findings.Keys == p.histories.Keys == Ids(fs) && p.sequence == sequence + Interruptions(fs)
    && forall i :: 0 <= i < |fs| && FinalFinding(fs, i) ==> FindingRestored(p, fs, hs, sequence, limit, i)
  }

  ghost predicate FindingRestored(
    p: Part, fs: seq<Finding>, hs: seq<seq<Event>>, sequence: nat, limit: nat, i: nat)
    requires i < |fs| == |hs|
  {
    var id := fs[i].id;
    && id in p.findings && p.findings[id] == fs[i].(freshness := RecoveredNotFresh)
    && id in p.histories
    && HistorySays(p.histories[id], fs[i], hs[i], sequence + Interruptions(fs[..i + 1]), limit)
  }

  lemma {:induction false} FindingsRestored(
    list: seq<SavedFinding>, fs: seq<Finding>, hs: seq<seq<Event>>, sequence: nat, capacity: Capacity)
    requires |fs| == |hs| == |list| && forall i :: 0 <= i < |list| ==> FindingSays(list[i], fs[i], hs[i], capacity)
    ensures RestoreFindings(list, sequence, capacity).Some? <==> |Ids(fs)| <= capacity.maxFindings
    ensures RestoreFindings(list, sequence, capacity).Some? ==>
              PartSays(RestoreFindings(list, sequence, capacity).value, fs, hs, sequence, capacity.maxHistory)
  {
    hide FindingSays, LoadFinding, PartSays, RestoreFinding;
    if list == [] {
      NoFindings(fs, hs, sequence, capacity.maxHistory);
    } else {
      var n := |list| - 1;
      FindingsRestored(list[..n], fs[..n], hs[..n], sequence, capacity);
      FindingExactly(list[n], fs[n], hs[n], capacity);
      OneMoreId(fs);
      Subset(Ids(fs[..n]), Ids(fs));
      if RestoreFindings(list[..n], sequence, capacity).Some? {
        var p := RestoreFindings(list[..n], sequence, capacity).value;
        OneMoreFinding(p, fs, hs, sequence, capacity);
      }
    }
  }

  lemma NoFindings(fs: seq<Finding>, hs: seq<seq<Event>>, sequence: nat, limit: nat)
    requires fs == [] && hs == []
    ensures Ids(fs) == {} && PartSays(Part(map[], map[], sequence), fs, hs, sequence, limit)
  {}

  lemma OneMoreFinding(p: Part, fs: seq<Finding>, hs: seq<seq<Event>>, sequence: nat, capacity: Capacity)
    requires fs != [] && |fs| == |hs|
    requires PartSays(p, fs[..|fs| - 1], hs[..|fs| - 1], sequence, capacity.maxHistory)
    ensures
      var n := |fs| - 1;
      var r := RestoreFinding(p, fs[n], hs[n], capacity);
      && (r.None? <==> |Ids(fs[..n])| >= capacity.maxFindings && fs[n].id !in Ids(fs[..n]))
      && (r.Some? ==> PartSays(r.value, fs, hs, sequence, capacity.maxHistory))
  {
    hide FindingRestored, RestoreFinding, Interruptions, Ids;
    var n := |fs| - 1;
    var r := RestoreFinding(p, fs[n], hs[n], capacity);
    Grown(p, fs[n], hs[n], capacity);
    OneMoreId(fs);
    OneMoreInterruption(fs);
    if r.Some? {
      LastFinding(p, r.value, fs, hs, sequence, capacity);
      forall i | 0 <= i < |fs| && FinalFinding(fs, i)
        ensures FindingRestored(r.value, fs, hs, sequence, capacity.maxHistory, i)
      {
        if i < n {
          assert FinalFinding(fs[..n], i);
          EarlierFinding(p, r.value, fs, hs, sequence, capacity, i);
        }
      }
    }
  }

  lemma OneMoreId(fs: seq<Finding>)
    requires fs != []
    ensures Ids(fs) == Ids(fs[..|fs| - 1]) + {fs[|fs| - 1].id}
  {
    var n := |fs| - 1;
    assert forall i :: 0 <= i < n ==> fs[..n][i] == fs[i];
  }

  lemma OneMoreInterruption(fs: seq<Finding>)
    requires fs != []
    ensures Interruptions(fs) == Interruptions(fs[..|fs| - 1]) + if Interrupted(fs[|fs| - 1]) then 1 else 0
  {}

  lemma Grown(p: Part, f: Finding, history: seq<Event>, capacity: Capacity)
    requires p.findings.Keys == p.histories.Keys
    ensures
      var r := RestoreFinding(p, f, history, capacity);
      && (r.None? <==> |p.findings.Keys| >= capacity.maxFindings && f.id !in p.findings.Keys)
      && (r.Some? ==>
            && r.value.findings.Keys == p.findings.Keys + {f.id} == r.value.histories.Keys
            && r.value.sequence == p.sequence + if Interrupted(f) then 1 else 0)
  {
    hide Remembered;
    assert |p.findings| == |p.findings.Keys|;
  }

  lemma LastFinding(
    p: Part, q: Part, fs: seq<Finding>, hs: seq<seq<Event>>, sequence: nat, capacity: Capacity)
    requires fs != [] && |fs| == |hs| && q.sequence == sequence + Interruptions(fs)
    requires Some(q) == RestoreFinding(p, fs[|fs| - 1], hs[|fs| - 1], capacity)
    ensures FindingRestored(q, fs, hs, sequence, capacity.maxHistory, |fs| - 1)
  {
    hide HistorySays, Remembered;
    assert fs[..|fs| - 1 + 1] == fs;
    NewHistory(fs[|fs| - 1], hs[|fs| - 1], q.sequence, capacity.maxHistory);
  }

  lemma EarlierFinding(
    p: Part, q: Part, fs: seq<Finding>, hs: seq<seq<Event>>, sequence: nat, capacity: Capacity, i: nat)
    requires |fs| == |hs| && i < |fs| - 1 && FinalFinding(fs, i)
    requires FindingRestored(p, fs[..|fs| - 1], hs[..|fs| - 1], sequence, capacity.maxHistory, i)
    requires Some(q) == RestoreFinding(p, fs[|fs| - 1], hs[|fs| - 1], capacity)
    ensures FindingRestored(q, fs, hs, sequence, capacity.maxHistory, i)
  {
    hide HistorySays, Remembered, Interruptions;
    var n := |fs| - 1;
    assert fs[..n][i] == fs[i] && hs[..n][i] == hs[i] && fs[..n][..i + 1] == fs[..i + 1];
    assert fs[n].id != fs[i].id;
  }

  lemma NewHistory(f: Finding, history: seq<Event>, sequence: nat, limit: nat)
    ensures HistorySays(Remembered(f, history, sequence, limit), f, history, sequence, limit)
  {
    if Interrupted(f) {
      assert RecoveryRecorded(RecoveryEvent(f, sequence), f, sequence);
    }
  }

  lemma {:induction false} FindingsRefused(list: seq<SavedFinding>, sequence: nat, capacity: Capacity, i: nat)
    requires i < |list| && forall f, h :: !FindingSays(list[i], f, h, capacity)
    ensures RestoreFindings(list, sequence, capacity).None?
  {
    hide FindingSays, LoadFinding, RestoreFinding;
    var n := |list| - 1;
    if i < n {
      FindingsRefused(list[..n], sequence, capacity, i);
    } else if LoadFinding(list[n], capacity).Some? {
      var (f, h) := LoadFinding(list[n], capacity).value;
      FindingExactly(list[n], f, h, capacity);
    }
  }

  // ----- the whole payload

  ghost predicate Reads(
    p: Payload, capacity: Capacity, bs: seq<Baseline>, xs: seq<Snapshot>, fs: seq<Finding>, hs: seq<seq<Event>>,
    es: seq<Event>)
  {
    && |bs| == |p.baselines| && (forall i :: 0 <= i < |bs| ==> BaselineSays(p.baselines[i], bs[i]))
    && |xs| == |p.observations| && (forall i :: 0 <= i < |xs| ==> SnapshotSays(p.observations[i], xs[i]))
    && |fs| == |hs| == |p.findings|
    && (forall i :: 0 <= i < |fs| ==> FindingSays(p.findings[i], fs[i], hs[i], capacity))
    && |es| == |p.timeline| && (forall i :: 0 <= i < |es| ==> EventSays(p.timeline[i], es[i]))
  }

  /** A payload of readable records decodes exactly when its targets, findings and events are
      within the envelope; every map then holds the last records of each key, nothing in it is
      current evidence, and nothing else is in it. */
  lemma DecodedExactly(
    p: Payload, capacity: Capacity, bs: seq<Baseline>, xs: seq<Snapshot>, fs: seq<Finding>, hs: seq<seq<Event>>,
    es: seq<Event>)
    requires Reads(p, capacity, bs, xs, fs, hs, es)
    ensures
      Decoded(p, capacity).Some? <==>
        && |Targets(bs)| <= capacity.maxTargets && |fs| <= capacity.maxFindings && |es| <= capacity.maxTimeline
    ensures
      Decoded(p, capacity).Some? ==>
        var b := Decoded(p, capacity).value;
        && BaselinesSay(b.store.baselines, bs)
        && (forall key :: WindowSays(b.store.windows, key, xs, capacity.maxRetained))
        && PartSays(Part(b.store.findings, b.histories, b.sequence), fs, hs, p.sequence, capacity.maxHistory)
        && b.timeline == es && b.revision == p.revision && b.store.streaks == map[]
  {
    hide BaselineSays, SnapshotSays, FindingSays, EventSays, BaselinesSay, WindowSays, PartSays, RestoreBaselines,
         RestoreObservations, RestoreFindings, LoadAll, LoadEvent;
    BaselinesRestored(p.baselines, bs, capacity.maxTargets);
    ObservationsRestored(p.observations, xs, capacity.maxRetained);
    FindingsRestored(p.findings, fs, hs, p.sequence, capacity);
    EventsExactly(p.timeline, es);
    FewIds(fs);
  }

  lemma {:induction false} FewIds(fs: seq<Finding>)
    ensures |Ids(fs)| <= |fs|
  {
    if fs != [] {
      var n := |fs| - 1;
      FewIds(fs[..n]);
      OneMoreId(fs);
    }
  }

  /** One unreadable record refuses the whole payload. */
  lemma UnreadableRefused(p: Payload, capacity: Capacity, i: nat)
    requires
      || (i < |p.baselines| && forall b :: !BaselineSays(p.baselines[i], b))
      || (i < |p.observations| && forall s :: !SnapshotSays(p.observations[i], s))
      || (i < |p.findings| && forall f, h :: !FindingSays(p.findings[i], f, h, capacity))
      || (i < |p.timeline| && forall e :: !EventSays(p.timeline[i], e))
    ensures Decoded(p, capacity).None?
  {
    hide BaselineSays, SnapshotSays, FindingSays, EventSays, RestoreBaselines, RestoreObservations, RestoreFindings,
         LoadAll, LoadEvent;
    if i < |p.baselines| && forall b :: !BaselineSays(p.baselines[i], b) {
      BaselinesRefused(p.baselines, capacity.maxTargets, i);
    } else if i < |p.observations| && forall s :: !SnapshotSays(p.observations[i], s) {
      ObservationsRefused(p.observations, capacity.maxRetained, i);
    } else if i < |p.findings| && forall f, h :: !FindingSays(p.findings[i], f, h, capacity) {
      FindingsRefused(p.findings, p.sequence, capacity, i);
    } else {
      EventsRefused(p.timeline, i);
    }
  }

  lemma EventsRefused(list: seq<SavedEvent>, i: nat)
    requires i < |list| && forall e :: !EventSays(list[i], e)
    ensures LoadAll(LoadEvent, list).None?
  {
    hide EventSays, LoadEvent;
    var r := LoadAll(LoadEvent, list);
    if r.Some? {
      EventExactly(list[i], r.value[i]);
    }
  }
}
