/** What each ledger operation changes, field by field, and what it leaves alone. */
module LedgerEffects {
  import opened Core
  import opened Identity
  import opened Values
  import opened Domain
  import opened Freshnesses
  import opened Window
  import opened Findings
  import opened LedgerState
  import opened LedgerRuns
  import opened Application

  // ----- a commit

  /** What becomes of a document: taken if its target is new and fits, or if it is of a later
      generation at no earlier epoch; known if it is the committed one; refused otherwise. */
  lemma ScreenMeans(s: Store, d: Document, maxTargets: nat)
    requires Lifecycle(s)
    ensures
      var known, c := d.target in s.baselines, ScreenIntent(s, d, maxTargets);
      && (c.Accepted? <==> if !known then |s.baselines| < maxTargets
                           else d.epoch >= s.baselines[d.target].epoch && d.generation > s.baselines[d.target].generation)
      && (c.DuplicateIdentical? <==> known && d == s.baselines[d.target].content && d.epoch >= s.baselines[d.target].epoch)
      && (c == CommitRefused(LimitObjectsExceeded) <==> !known && |s.baselines| >= maxTargets)
      && (c == CommitRefused(FencedStaleEpoch) <==> known && d.epoch < s.baselines[d.target].epoch)
      && (c == CommitRefused(IntentGenerationRegressed)
          <==> known && d.epoch >= s.baselines[d.target].epoch && d.generation < s.baselines[d.target].generation)
      && (c == CommitRefused(IntentGenerationConflicting)
          <==> known && d.epoch >= s.baselines[d.target].epoch && d.generation == s.baselines[d.target].generation
               && d != s.baselines[d.target].content)
  {
    hide Kept, WindowKept;
    if d.target in s.baselines { assert BaselineKept(d.target, s.baselines[d.target]); }
  }

  /** The document declares the object of a finding, and its field if it is about one. */
  predicate Declares(d: Document, id: FindingId) {
    || id.objectId == "@target"
    || exists i :: 0 <= i < |d.objects| && d.objects[i].key == id.objectId
                   && (id.path == []
                       || exists j :: 0 <= j < |d.objects[i].value.fields| && d.objects[i].value.fields[j].key == id.path)
  }

  /** What a later generation makes of a finding: superseded until the next evaluation if its
      place is still declared, retired if it is not; closed findings, those of other targets and
      those of this very generation stay. */
  predicate RebasedTo(f: Finding, g: Finding, d: Document, now: int64) {
    if f.id.target == d.target && (f.state.Open? || f.state.Acknowledged? || f.state.Suppressed?)
       && f.generation != d.generation
    then
      g == f.(state := if Declares(d, f.id) then Superseded else Retired,
              reason := if Declares(d, f.id) then FindingRebased else FindingRetired, lastEvaluated := now)
    else g == f
  }

  lemma StillDeclared(f: Finding, d: Document)
    ensures StillManaged(f, d.objects) <==> Declares(d, f.id)
  {
    hide Find;
    var found := Find(d.objects, f.id.objectId);
    if found.Some? {
      var i :| 0 <= i < |d.objects| && d.objects[i] == Pair(f.id.objectId, found.value);
      FieldFound(found.value, f.id.path);
    } else {
      assert !Holds(d.objects, f.id.objectId);
    }
  }

  lemma FieldFound(o: IntentObject, path: Path)
    ensures Find(o.fields, path).Some? <==> exists j :: 0 <= j < |o.fields| && o.fields[j].key == path
  {
    hide Find;
  }

  /** An accepted commit installs exactly the document, and on a known target rebases its
      findings; evidence, streaks and other targets stay. */
  lemma CommitChanges(s: Store, d: Document, now: int64, maxTargets: nat)
    requires ScreenIntent(s, d, maxTargets).Accepted?
    ensures
      var t := CommitIntent(s, d, now, maxTargets);
      && t.windows == s.windows && t.streaks == s.streaks && t.findings.Keys == s.findings.Keys
      && t.baselines == s.baselines[d.target := Baseline(d.target, d.generation, d.epoch, d.authority, d.policy, now, d,
                                                         d.evidence, d.objects)]
      && forall id :: id in s.findings ==>
           if d.target in s.baselines then RebasedTo(s.findings[id], t.findings[id], d, now)
           else t.findings[id] == s.findings[id]
  {
    hide ScreenIntent, StillManaged, Declares;
    forall id | id in s.findings ensures StillManaged(s.findings[id], d.objects) <==> Declares(d, s.findings[id].id) {
      StillDeclared(s.findings[id], d);
    }
  }

  lemma RefusedChangesNothing(s: Store, d: Document, now: int64, maxTargets: nat)
    requires !ScreenIntent(s, d, maxTargets).Accepted?
    ensures CommitIntent(s, d, now, maxTargets) == s
  {
    hide ScreenIntent;
  }

  // ----- evidence

  /** What an arrival becomes, by every record its window holds: refused if one of them is of a
      later epoch or incarnation, known or in conflict if the newest has its incarnation and
      sequence number, and stored otherwise. */
  lemma ScreenedAgainstAll(w: seq<Retained>, s: Snapshot)
    requires Tidy(w)
    ensures
      var stale := exists i :: 0 <= i < |w| && (w[i].snapshot.incarnation > s.incarnation || w[i].snapshot.epoch > s.epoch);
      var twin := w != [] && w[|w| - 1].snapshot.incarnation == s.incarnation && w[|w| - 1].snapshot.sequence == s.sequence;
      && (Screen(w, s).Stored? <==> !stale && !twin)
      && (Screen(w, s).Duplicate? <==> !stale && twin && SameContent(w[|w| - 1].snapshot, s))
      && (Screen(w, s) == Refused(ObservationDuplicateConflicting)
          <==> !stale && twin && !SameContent(w[|w| - 1].snapshot, s))
      && (Screen(w, s) == Refused(FencedStaleIncarnation)
          <==> exists i :: 0 <= i < |w| && w[i].snapshot.incarnation > s.incarnation)
      && (Screen(w, s) == Stored(true) ==> s.sequence < w[|w| - 1].snapshot.sequence)
  {
    hide Earlier, Snapshot.Content, SameContent;
    if w != [] {
      var newest := w[|w| - 1].snapshot;
      forall i | 0 <= i < |w| ensures w[i].snapshot.epoch <= newest.epoch && w[i].snapshot.incarnation <= newest.incarnation {
        if i < |w| - 1 { assert InOrder(w[i].snapshot, newest); }
      }
      ContentMeans(newest, s);
    }
  }

  /** The same observation but for when it was received and the order of what was not observed. */
  ghost predicate SameContent(a: Snapshot, b: Snapshot) {
    && a.source == b.source && a.epoch == b.epoch && a.incarnation == b.incarnation && a.sequence == b.sequence
    && a.target == b.target && a.collectedAt == b.collectedAt && a.ttl == b.ttl && a.coverage == b.coverage
    && a.objects == b.objects && a.capabilities == b.capabilities && a.evidence == b.evidence
    && forall id :: id in a.unobserved <==> id in b.unobserved
  }

  lemma ContentMeans(a: Snapshot, b: Snapshot)
    ensures a.Content() == b.Content() <==> SameContent(a, b)
  {
    var x, y := (set id | id in a.unobserved), (set id | id in b.unobserved);
    if x == y {
      forall id ensures id in a.unobserved <==> id in b.unobserved { assert id in x <==> id in y; }
    }
  }

  /** An arrival changes the window of its own source and target only: it is added, and past the
      bound one record goes, a recovered one if there is one before the last. */
  lemma IngestChanges(s: Store, r: Retained, limit: nat)
    ensures
      var t, key := Ingest(s, r, limit), WindowKey(r.snapshot.target, r.snapshot.source);
      && t.baselines == s.baselines && t.findings == s.findings && t.streaks == s.streaks && key in t.windows
      && (forall k :: k != key ==> (k in t.windows <==> k in s.windows) && (k in s.windows ==> t.windows[k] == s.windows[k]))
      && var w, v := WindowOf(s, key), t.windows[key];
         if !Screen(w, r.snapshot).Stored? then v == w
         else if |w| < limit then multiset(v) == multiset(w) + multiset{r}
         else exists gone :: gone in multiset(w) + multiset{r}
                && multiset(v) == multiset(w) + multiset{r} - multiset{gone}
  {
    hide Screen, Position, Victim;
    var w := WindowOf(s, WindowKey(r.snapshot.target, r.snapshot.source));
    if Screen(w, r.snapshot).Stored? { InsertBound(w, r, limit); }
  }

  lemma InsertBound(w: seq<Retained>, r: Retained, limit: nat)
    ensures multiset(Insert(w, r)) == multiset(w) + multiset{r}
    ensures |w| < limit ==> Bound(Insert(w, r), limit) == Insert(w, r)
    ensures |w| >= limit ==>
      exists gone :: gone in multiset(w) + multiset{r}
                     && multiset(Bound(Insert(w, r), limit)) == multiset(w) + multiset{r} - multiset{gone}
  {
    hide Position, Victim, Insert, Erase;
    InsertAdds(w, r);
    var v := Insert(w, r);
    if |w| >= limit {
      EraseTakes(v, Victim(v, 0));
      assert v[Victim(v, 0)] in multiset(v);
    }
  }

  lemma InsertAdds(w: seq<Retained>, r: Retained)
    ensures multiset(Insert(w, r)) == multiset(w) + multiset{r}
  {
    hide Position;
    var p := Position(w, r.snapshot);
    assert w == w[..p] + w[p..];
  }

  lemma EraseTakes(v: seq<Retained>, k: nat)
    requires k < |v|
    ensures multiset(Erase(v, k)) == multiset(v) - multiset{v[k]}
  {
    assert v == v[..k] + [v[k]] + v[k + 1..];
  }

  /** The record that goes past the bound is the earliest recovered one before the last, or the
      earliest of all. */
  lemma {:induction false} EvictionMeans(v: seq<Retained>, from: nat)
    requires from < |v|
    ensures
      var k := Victim(v, from);
      if exists i :: from <= i < |v| - 1 && v[i].recovered then
        from <= k < |v| - 1 && v[k].recovered && forall i :: from <= i < k ==> !v[i].recovered
      else k == 0
    decreases |v| - from
  {
    if from + 1 < |v| && !v[from].recovered { EvictionMeans(v, from + 1); }
  }

  /** A rotation makes every retained observation history: it is kept, marked recovered, and
      supports nothing. */
  lemma InvalidateChanges(s: Store, reason: Reason, now: int64, k: WindowKey, i: nat)
    requires k in s.windows && i < |s.windows[k]|
    ensures
      var t := Invalidate(s, reason, now);
      && t.baselines == s.baselines && t.findings == s.findings && t.streaks == s.streaks && t.windows.Keys == s.windows.Keys
      && |t.windows[k]| == |s.windows[k]| && t.windows[k][i].snapshot == s.windows[k][i].snapshot
      && t.windows[k][i].recovered && t.windows[k][i].freshness.state.RecoveredNotFresh?
      && t.windows[k][i].freshness.reason == reason && !t.windows[k][i].freshness.maySupportCompliance
      && !t.windows[k][i].freshness.mayAssertAbsence
      && t.windows[k][i].freshness.age == (if InRange(now - s.windows[k][i].snapshot.collectedAt)
                                           then now - s.windows[k][i].snapshot.collectedAt else 0)
  {}

  // ----- operator actions

  predicate ActorNamed(actor: Text) { actor != [] && ValidIdentity(actor) }

  /** Text beyond 240 octets is cut and marked so. */
  predicate Cut(text: Text, kept: Text) {
    if |text| <= 240 then kept == text else |kept| == 243 && kept[..240] == text[..240] && kept[240..] == "..."
  }

  /** Suppressing records who, why and until when, and hides a live finding. */
  lemma SuppressChanges(s: Store, id: FindingId, suppressionId: Text, actor: Text, reason: Text, expiresAt: Option<int64>,
                        room: bool)
    ensures
      var (t, r) := Suppress(s, id, suppressionId, actor, reason, expiresAt, room);
      && (r.Ok? <==> id in s.findings && ActorNamed(actor) && (room || s.findings[id].suppression.Some?))
      && (r.Err? ==> t == s)
      && (r.Ok? ==>
            && t == s.(findings := t.findings) && t.findings == s.findings[id := t.findings[id]]
            && var f, g := s.findings[id], t.findings[id];
               && g == f.(suppression := Some(suppressionId), origin := ByOperator, suppressedBy := actor,
                          suppressionReason := g.suppressionReason, expiresAt := expiresAt, state := g.state)
               && Cut(reason, g.suppressionReason)
               && g.state == if f.state.Open? || f.state.Acknowledged? then Suppressed else f.state)
  {
    hide ValidIdentity;
  }

  /** Ending a suppression gives the finding back as open or acknowledged, and changes no evidence. */
  lemma ClearSuppressionChanges(s: Store, id: FindingId)
    ensures
      var (t, r) := ClearSuppression(s, id);
      && (r.Ok? <==> id in s.findings && s.findings[id].suppression.Some?) && (r.Err? ==> t == s)
      && (r.Ok? ==>
            && t == s.(findings := t.findings) && t.findings == s.findings[id := t.findings[id]]
            && var f, g := s.findings[id], t.findings[id];
               && Unencumbered(g) && g.state == Released(f, f.state)
               && g == f.(suppression := None, origin := NoOrigin, suppressedBy := [], suppressionReason := [],
                          expiresAt := None, state := g.state))
  {}

  /** Acknowledging records who, when and why; an open finding becomes acknowledged. */
  lemma AcknowledgeChanges(s: Store, id: FindingId, actor: Text, reason: Text, now: int64)
    ensures
      var (t, r) := Acknowledge(s, id, actor, reason, now);
      && (r.Ok? <==> id in s.findings && ActorNamed(actor)) && (r.Err? ==> t == s)
      && (r.Ok? ==>
            && t == s.(findings := t.findings) && t.findings == s.findings[id := t.findings[id]]
            && var f, g := s.findings[id], t.findings[id];
               && g == f.(acknowledgedBy := actor, acknowledgedAt := now,
                          acknowledgementReason := g.acknowledgementReason, state := g.state)
               && Cut(reason, g.acknowledgementReason)
               && g.state == if f.state.Open? then Acknowledged else f.state)
  {
    hide ValidIdentity;
  }

  lemma ClearAcknowledgementChanges(s: Store, id: FindingId)
    ensures
      var (t, r) := ClearAcknowledgement(s, id);
      && (r.Ok? <==> id in s.findings && s.findings[id].acknowledgedBy != []) && (r.Err? ==> t == s)
      && (r.Ok? ==>
            && t == s.(findings := t.findings) && t.findings == s.findings[id := t.findings[id]]
            && var f, g := s.findings[id], t.findings[id];
               g == f.(acknowledgedBy := [], acknowledgedAt := 0, acknowledgementReason := [],
                       state := if f.state.Acknowledged? then Open else f.state))
  {}

  /** The sweep ends exactly the suppressions whose time is up. */
  lemma SweepChanges(s: Store, now: int64)
    ensures
      var t := ExpireAll(s, now);
      && t == s.(findings := t.findings) && t.findings.Keys == s.findings.Keys
      && forall id :: id in s.findings ==> OnlyLapses(s.findings[id], t.findings[id], now)
  {
    hide Lapsed, OnlyLapses;
    forall id | id in s.findings ensures OnlyLapses(s.findings[id], ExpireAll(s, now).findings[id], now) {
      LapsedOnly(s.findings[id], now);
    }
  }
}
