/** The bounded window of observations retained for one source of one target. */
module Window {
  import opened Core
  import opened Domain

  datatype Retained = Retained(snapshot: Snapshot, freshness: Freshness, recovered: bool)

  datatype Admission = Stored(supersededOlder: bool) | Duplicate | Refused(reason: Reason)

  /** The retention order: epoch, then incarnation, then sequence. */
  predicate Earlier(a: Snapshot, b: Snapshot) {
    if a.epoch != b.epoch then a.epoch < b.epoch
    else if a.incarnation != b.incarnation then a.incarnation < b.incarnation
    else a.sequence < b.sequence
  }

  function Newest(w: seq<Retained>): Snapshot
    requires w != []
  {
    w[|w| - 1].snapshot
  }

  /** What the newest retained observation says about an arrival. */
  function Screen(w: seq<Retained>, s: Snapshot): Admission {
    if w == [] then Stored(false)
    else if s.incarnation < Newest(w).incarnation then Refused(FencedStaleIncarnation)
    else if s.epoch < Newest(w).epoch then Refused(FencedStaleEpoch)
    else if s.incarnation == Newest(w).incarnation && s.sequence == Newest(w).sequence then
      if s.Content() == Newest(w).Content() then Duplicate else Refused(ObservationDuplicateConflicting)
    else Stored(s.sequence < Newest(w).sequence)
  }

  /** The first position whose record is not earlier. */
  function Position(w: seq<Retained>, s: Snapshot): (p: nat)
    ensures p <= |w|
    ensures forall i :: 0 <= i < p ==> Earlier(w[i].snapshot, s)
    ensures p < |w| ==> !Earlier(w[p].snapshot, s)
  {
    if w == [] || !Earlier(w[0].snapshot, s) then 0 else 1 + Position(w[1..], s)
  }

  function Insert(w: seq<Retained>, r: Retained): (v: seq<Retained>)
    ensures |v| == |w| + 1
  {
    var p := Position(w, r.snapshot);
    w[..p] + [r] + w[p..]
  }

  /** The first recovered record before the last, or the front. */
  function Victim(w: seq<Retained>, from: nat): (v: nat)
    requires from < |w|
    ensures v == 0 || v + 1 < |w|
    ensures forall i :: from <= i < v ==> !w[i].recovered
    decreases |w| - from
  {
    if from + 1 == |w| then 0
    else if w[from].recovered then from
    else Victim(w, from + 1)
  }

  function Erase(w: seq<Retained>, v: nat): seq<Retained>
    requires v < |w|
  {
    w[..v] + w[v + 1..]
  }

  function Bound(w: seq<Retained>, limit: nat): seq<Retained> {
    if |w| > limit then Erase(w, Victim(w, 0)) else w
  }

  function Admit(w: seq<Retained>, r: Retained, limit: nat): seq<Retained> {
    if Screen(w, r.snapshot).Stored? then Bound(Insert(w, r), limit) else w
  }

  method Record(w: seq<Retained>, r: Retained, limit: nat) returns (v: seq<Retained>, admission: Admission)
    ensures admission == Screen(w, r.snapshot) && v == Admit(w, r, limit)
  {
    v := w;
    var superseded := false;
    if w != [] {
      var newest := w[|w| - 1].snapshot;
      if r.snapshot.incarnation < newest.incarnation { return w, Refused(FencedStaleIncarnation); }
      if r.snapshot.epoch < newest.epoch { return w, Refused(FencedStaleEpoch); }
      if r.snapshot.incarnation == newest.incarnation && r.snapshot.sequence == newest.sequence {
        if r.snapshot.Content() == newest.Content() { return w, Duplicate; }
        return w, Refused(ObservationDuplicateConflicting);
      }
      if r.snapshot.sequence < newest.sequence { superseded := true; }
    }
    var p := Position(w, r.snapshot);
    v := w[..p] + [r] + w[p..];
    if |v| > limit {
      var victim := 0;
      for index := 0 to |v| - 1
        invariant victim == 0 && Victim(v, 0) == Victim(v, index)
      {
        if v[index].recovered {
          victim := index;
          break;
        }
      }
      v := v[..victim] + v[victim + 1..];
    }
    admission := Stored(superseded);
  }

  // ----- the shape every window keeps

  predicate InOrder(a: Snapshot, b: Snapshot) {
    a.epoch <= b.epoch && a.incarnation <= b.incarnation && !Earlier(b, a)
  }

  /** Epochs and incarnations never fall, the order is kept, and the last record is
      strictly the newest. */
  predicate Tidy(w: seq<Retained>) {
    && (forall i, j :: 0 <= i < j < |w| ==> InOrder(w[i].snapshot, w[j].snapshot))
    && (forall i :: 0 <= i < |w| - 1 ==> Earlier(w[i].snapshot, w[|w| - 1].snapshot))
  }

  lemma PlacedAfter(a: Snapshot, s: Snapshot, newest: Snapshot)
    requires a == newest || InOrder(a, newest)
    requires newest.epoch <= s.epoch && newest.incarnation <= s.incarnation && Earlier(a, s)
    ensures InOrder(a, s)
  {}

  lemma PlacedBefore(s: Snapshot, b: Snapshot, newest: Snapshot)
    requires b == newest || InOrder(b, newest)
    requires newest.epoch <= s.epoch && newest.incarnation <= s.incarnation && !Earlier(b, s)
    ensures InOrder(s, b)
    ensures b == newest && (s.incarnation != newest.incarnation || s.sequence != newest.sequence) ==> Earlier(s, b)
  {}

  lemma InsertTidy(w: seq<Retained>, r: Retained)
    requires Tidy(w) && Screen(w, r.snapshot).Stored?
    ensures Tidy(Insert(w, r))
    ensures Newest(Insert(w, r)) == if w == [] || Earlier(Newest(w), r.snapshot) then r.snapshot else Newest(w)
  {
    hide Snapshot.Content, Earlier, InOrder;
    var s, p := r.snapshot, Position(w, r.snapshot);
    if w != [] {
      forall i | 0 <= i < p ensures InOrder(w[i].snapshot, s) {
        PlacedAfter(w[i].snapshot, s, Newest(w));
      }
      forall i | p <= i < |w| ensures !Earlier(w[i].snapshot, s) && InOrder(s, w[i].snapshot) {
        StaysLater(w, s, p, i);
        PlacedBefore(s, w[i].snapshot, Newest(w));
      }
      if p < |w| { PlacedBefore(s, w[|w| - 1].snapshot, Newest(w)); }
      InsertInOrder(w, r, p);
    }
  }

  lemma StaysLater(w: seq<Retained>, s: Snapshot, p: nat, i: nat)
    requires Tidy(w) && p <= i < |w| && !Earlier(w[p].snapshot, s)
    ensures !Earlier(w[i].snapshot, s)
  {
    if p < i { assert InOrder(w[p].snapshot, w[i].snapshot); }
  }

  lemma InsertInOrder(w: seq<Retained>, r: Retained, p: nat)
    requires w != [] && Tidy(w) && p <= |w|
    requires forall i :: 0 <= i < p ==> InOrder(w[i].snapshot, r.snapshot) && Earlier(w[i].snapshot, r.snapshot)
    requires forall i :: p <= i < |w| ==> InOrder(r.snapshot, w[i].snapshot)
    requires p < |w| ==> Earlier(r.snapshot, w[|w| - 1].snapshot)
    ensures Tidy(w[..p] + [r] + w[p..])
  {
    hide Earlier, InOrder;
    var v := w[..p] + [r] + w[p..];
    assert forall i :: 0 <= i < |v| ==> v[i] == if i < p then w[i] else if i == p then r else w[i - 1];
  }

  lemma EraseTidy(w: seq<Retained>, v: nat)
    requires Tidy(w) && v + 1 < |w|
    ensures Tidy(Erase(w, v)) && Newest(Erase(w, v)) == Newest(w)
  {
    var e := Erase(w, v);
    assert forall i :: 0 <= i < |e| ==> e[i] == w[if i < v then i else i + 1];
  }

  predicate KeepsNewest(w: seq<Retained>, r: Retained, v: seq<Retained>) {
    v != [] && Newest(v) == if w == [] || Earlier(Newest(w), r.snapshot) then r.snapshot else Newest(w)
  }

  /** Every admission keeps the window tidy and within its bound. A stored arrival leaves the
      newest observation in the window exactly when there is room for one record, or the
      window already held more than its bound: with a bound of zero the arrival itself is
      evicted from the empty window. */
  lemma AdmitTidy(w: seq<Retained>, r: Retained, limit: nat)
    requires Tidy(w)
    ensures Tidy(Admit(w, r, limit)) && (|w| <= limit ==> |Admit(w, r, limit)| <= limit)
    ensures Screen(w, r.snapshot).Stored? ==>
      (KeepsNewest(w, r, Admit(w, r, limit)) <==> limit >= 1 || |w| > limit)
  {
    hide Earlier, Screen, Insert, Position, Tidy, Victim;
    if Screen(w, r.snapshot).Stored? {
      InsertTidy(w, r);
      var v := Insert(w, r);
      if w == [] { InsertEmpty(r); }
      if |v| > limit {
        if |v| >= 2 {
          VictimBelow(v);
          EraseTidy(v, Victim(v, 0));
        } else {
          InsertEmpty(r);
          EraseOnly(v);
        }
      }
    }
  }

  lemma VictimBelow(w: seq<Retained>)
    requires |w| >= 2
    ensures Victim(w, 0) + 1 < |w|
  {}

  lemma InsertEmpty(r: Retained)
    ensures Insert([], r) == [r] && Tidy([r])
  {}

  lemma EraseOnly(w: seq<Retained>)
    requires |w| == 1
    ensures Victim(w, 0) == 0 && Erase(w, 0) == [] && Tidy([])
  {}

  /** Admission only adds the arrival. */
  lemma AdmitAdds(w: seq<Retained>, r: Retained, limit: nat)
    ensures forall i :: 0 <= i < |Admit(w, r, limit)| ==> Admit(w, r, limit)[i] == r || Admit(w, r, limit)[i] in w
  {
    hide Earlier, Screen;
  }

  // ----- refinement of the unbounded window

  predicate AllLive(w: seq<Retained>) {
    forall i :: 0 <= i < |w| ==> !w[i].recovered
  }

  function Last(w: seq<Retained>, n: nat): seq<Retained> {
    if |w| <= n then w else w[|w| - n..]
  }

  /** Everything accepted, sorted, nothing evicted. */
  function Keep(all: seq<Retained>, r: Retained): seq<Retained> {
    if Screen(all, r.snapshot).Stored? then Insert(all, r) else all
  }

  lemma {:induction false} PositionInSuffix(w: seq<Retained>, s: Snapshot, k: nat)
    requires Tidy(w) && k <= |w|
    ensures Position(w[k..], s) == if Position(w, s) <= k then 0 else Position(w, s) - k
  {
    var p := Position(w, s);
    var q := Position(w[k..], s);
    assert forall i :: 0 <= i < |w| - k ==> w[k..][i] == w[k + i];
    if p < k {
      if k < |w| { assert !Earlier(w[k].snapshot, w[p].snapshot); assert !Earlier(w[k].snapshot, s); }
    }
  }

  lemma LiveVictim(w: seq<Retained>, from: nat)
    requires AllLive(w) && from < |w|
    ensures Victim(w, from) == 0
    decreases |w| - from
  {
    if from + 1 < |w| { LiveVictim(w, from + 1); }
  }

  /** Bounding after each arrival or once at the end is the same: the window holds the
      last `limit` records of everything accepted, late arrivals included. */
  lemma BoundedRefinesUnbounded(all: seq<Retained>, r: Retained, limit: nat)
    requires limit >= 1 && Tidy(all) && AllLive(all) && !r.recovered
    ensures Screen(Last(all, limit), r.snapshot) == Screen(all, r.snapshot)
    ensures Admit(Last(all, limit), r, limit) == Last(Keep(all, r), limit)
    ensures Tidy(Keep(all, r)) && AllLive(Keep(all, r))
  {
    hide Earlier, Position, Tidy, Insert, Screen, Victim, Erase, AllLive;
    SameScreen(all, r.snapshot, limit);
    if Screen(all, r.snapshot).Stored? {
      InsertTidy(all, r);
      InsertLive(all, r);
      if |all| >= limit {
        var k := |all| - limit;
        PositionInSuffix(all, r.snapshot, k);
        InsertLive(all[k..], r) by { SuffixLive(all, k); }
        LiveVictim(Insert(all[k..], r), 0);
        SuffixInsert(all, r, k, Position(all, r.snapshot));
      }
    }
  }

  lemma SameScreen(all: seq<Retained>, s: Snapshot, limit: nat)
    requires limit >= 1
    ensures Screen(Last(all, limit), s) == Screen(all, s)
  {
    hide Snapshot.Content;
  }

  lemma SuffixLive(w: seq<Retained>, k: nat)
    requires AllLive(w) && k <= |w|
    ensures AllLive(w[k..])
  {}

  lemma InsertLive(w: seq<Retained>, r: Retained)
    requires AllLive(w) && !r.recovered
    ensures AllLive(Insert(w, r)) && multiset(Insert(w, r)) == multiset(w) + multiset{r}
  {
    hide Earlier;
    var p := Position(w, r.snapshot);
    assert w == w[..p] + w[p..];
  }

  lemma SuffixInsert(all: seq<Retained>, r: Retained, k: nat, p: nat)
    requires k < |all| && p == Position(all, r.snapshot)
    requires Position(all[k..], r.snapshot) == if p <= k then 0 else p - k
    ensures Erase(Insert(all[k..], r), 0) == Insert(all, r)[k + 1..]
  {
    hide Position;
    Suffix(all, r, k, p, if p <= k then 0 else p - k);
  }

  lemma Suffix<T>(all: seq<T>, x: T, k: nat, p: nat, q: nat)
    requires k < |all| && p <= |all| && q == if p <= k then 0 else p - k
    ensures
      var v, full := all[k..][..q] + [x] + all[k..][q..], all[..p] + [x] + all[p..];
      v[..0] + v[0 + 1..] == full[k + 1..]
  {
    var v, full := all[k..][..q] + [x] + all[k..][q..], all[..p] + [x] + all[p..];
    var a, b := v[1..], full[k + 1..];
    forall i | 0 <= i < |a| ensures a[i] == b[i] {
      assert b[i] == full[k + 1 + i];
      assert a[i] == v[i + 1];
    }
    assert a == b;
  }

  /** The windows after a whole sequence of arrivals. */
  function AdmitAll(arrivals: seq<Retained>, limit: nat): seq<Retained> {
    if arrivals == [] then []
    else Admit(AdmitAll(arrivals[..|arrivals| - 1], limit), arrivals[|arrivals| - 1], limit)
  }

  function KeepAll(arrivals: seq<Retained>): seq<Retained> {
    if arrivals == [] then [] else Keep(KeepAll(arrivals[..|arrivals| - 1]), arrivals[|arrivals| - 1])
  }

  /** For every sequence of live arrivals the bounded window is the tail of the sorted
      list of everything accepted. */
  lemma {:induction false} WindowIsTail(arrivals: seq<Retained>, limit: nat)
    requires limit >= 1 && AllLive(arrivals)
    ensures AdmitAll(arrivals, limit) == Last(KeepAll(arrivals), limit)
    ensures Tidy(KeepAll(arrivals)) && AllLive(KeepAll(arrivals))
  {
    hide Admit, Keep;
    if arrivals != [] {
      var k := |arrivals| - 1;
      WindowIsTail(arrivals[..k], limit);
      BoundedRefinesUnbounded(KeepAll(arrivals[..k]), arrivals[k], limit);
    }
  }
}
