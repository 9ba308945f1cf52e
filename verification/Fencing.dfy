/** Source fencing: sessions of one source race to greet and to publish over a shared
    table of high-water marks. */
module Fencing {
  import opened Core
  import opened Values
  import opened Domain

  datatype Hello = Hello(source: Text, epoch: nat, incarnation: nat)

  /** What a snapshot digest covers; two snapshots with one digest have one content. */
  type Content = (Snapshot, set<Text>)

  /** The mark of one source. No digest yet means that the mark is unset. */
  datatype Fence = Fence(epoch: nat, incarnation: nat, sequence: nat, content: Option<Content>)

  datatype Verdict = Takeover | Admitted | Denied(reason: Reason)

  // ----- the two locked sections

  function Greet(fences: map<Text, Fence>, h: Hello): (map<Text, Fence>, Result<()>) {
    if h.source !in fences then (fences[h.source := Fence(h.epoch, h.incarnation, 0, None)], Ok(()))
    else
      var f := fences[h.source];
      if h.epoch < f.epoch then (fences, Err(FencedStaleEpoch))
      else if h.incarnation < f.incarnation then (fences, Err(FencedStaleIncarnation))
      else if h.incarnation > f.incarnation then
        (fences[h.source := Fence(h.epoch, h.incarnation, 0, None)], Ok(()))
      else (fences[h.source := f.(epoch := h.epoch)], Ok(()))
  }

  function Judge(f: Fence, s: Snapshot): Verdict {
    if s.epoch != f.epoch || s.incarnation != f.incarnation then
      if s.epoch < f.epoch then Denied(FencedStaleEpoch)
      else if s.epoch == f.epoch && s.incarnation < f.incarnation then Denied(FencedStaleIncarnation)
      else Takeover
    else if f.sequence == 0 && f.content.None? then Admitted
    else if s.sequence < f.sequence then Denied(FencedStaleSequence)
    else if s.sequence == f.sequence && Some(s.Content()) != f.content then Denied(ObservationDuplicateConflicting)
    else Admitted
  }

  function MarkOf(s: Snapshot): Fence { Fence(s.epoch, s.incarnation, s.sequence, Some(s.Content())) }

  function Pass(fences: map<Text, Fence>, s: Snapshot): (map<Text, Fence>, Verdict) {
    if s.source !in fences then (fences[s.source := MarkOf(s)], Admitted)
    else
      var f := fences[s.source];
      var verdict := Judge(f, s);
      if verdict.Denied? then (fences, verdict)
      else if verdict.Admitted? && f.content.Some? && s.sequence == f.sequence then (fences, verdict)
      else (fences[s.source := MarkOf(s)], verdict)
  }

  // ----- sessions

  /** A session is single-threaded: between its greeting's fence step and the commit of its
      context (registration and reply in between) it does nothing else. */
  datatype Session = Session(context: Option<Hello>, pending: Option<Hello>)

  datatype Entry =
    | Greeted(hello: Hello)
    | Passed(snapshot: Snapshot, verdict: Verdict)
  {
    function Source(): Text { if Greeted? then hello.source else snapshot.source }
    function Epoch(): nat { if Greeted? then hello.epoch else snapshot.epoch }
    function Incarnation(): nat { if Greeted? then hello.incarnation else snapshot.incarnation }
  }

  /** `log` records every accepted greeting and every snapshot let through, in lock order. */
  datatype Server = Server(fences: map<Text, Fence>, sessions: map<nat, Session>, log: seq<Entry>)

  datatype Event =
    | Connect(id: nat)
    | HelloFence(id: nat, hello: Hello)
    | HelloCommit(id: nat, registered: bool)
    | Publish(id: nat, snapshot: Snapshot)
    | Close(id: nat)

  predicate Enabled(v: Server, ev: Event) {
    match ev
    case Connect(id) => id !in v.sessions
    case HelloFence(id, _) => id in v.sessions && v.sessions[id].pending.None?
    case HelloCommit(id, _) => id in v.sessions && v.sessions[id].pending.Some?
    case Publish(id, _) => id in v.sessions && v.sessions[id].pending.None?
    case Close(id) => id in v.sessions
  }

  /** The snapshot names the authority its session greeted with. */
  function Authority(session: Session, s: Snapshot): Result<()> {
    if session.context.None? then Err(WireHandshakeRequired)
    else if s.source != session.context.value.source then Err(AuthorityMismatch)
    else if s.incarnation != session.context.value.incarnation || s.epoch != session.context.value.epoch then
      Err(FencedStaleIncarnation)
    else Ok(())
  }

  function Next(v: Server, ev: Event): Server {
    if !Enabled(v, ev) then v else
    match ev
    case Connect(id) => v.(sessions := v.sessions[id := Session(None, None)])
    case HelloFence(id, hello) =>
      var (fences, r) := Greet(v.fences, hello);
      if r.Err? then v
      else v.(fences := fences, sessions := v.sessions[id := v.sessions[id].(pending := Some(hello))],
              log := v.log + [Greeted(hello)])
    case HelloCommit(id, registered) =>
      var session := v.sessions[id];
      v.(sessions := v.sessions[id := Session(if registered then session.pending else session.context, None)])
    case Publish(id, s) =>
      if Authority(v.sessions[id], s).Err? then v
      else
        var (fences, verdict) := Pass(v.fences, s);
        if verdict.Denied? then v else v.(fences := fences, log := v.log + [Passed(s, verdict)])
    case Close(id) => v.(sessions := v.sessions - {id})
  }

  // ----- the invariant

  /** The greeting is at or below its source's fence in both components. */
  predicate Below(fences: map<Text, Fence>, h: Hello) {
    h.source in fences && h.epoch <= fences[h.source].epoch && h.incarnation <= fences[h.source].incarnation
  }

  predicate SessionBelow(fences: map<Text, Fence>, session: Session) {
    && (session.context.Some? ==> Below(fences, session.context.value))
    && (session.pending.Some? ==> Below(fences, session.pending.value))
  }

  /** An entry of the log against the mark of its source: never ahead of it, and of one
      incarnation never past its sequence. */
  predicate Covered(fences: map<Text, Fence>, e: Entry) {
    && e.Source() in fences
    && var f := fences[e.Source()];
       && e.Epoch() <= f.epoch && e.Incarnation() <= f.incarnation
       && (e.Passed? && e.snapshot.incarnation == f.incarnation ==>
             && e.snapshot.sequence <= f.sequence && f.content.Some?
             && (e.snapshot.sequence == f.sequence ==> Some(e.snapshot.Content()) == f.content))
  }

  /** Two entries of one source in lock order. */
  predicate InOrder(a: Entry, b: Entry) {
    a.Source() == b.Source() ==>
      && a.Epoch() <= b.Epoch() && a.Incarnation() <= b.Incarnation()
      && (a.Passed? && b.Passed? && a.snapshot.incarnation == b.snapshot.incarnation ==>
            && a.snapshot.sequence <= b.snapshot.sequence
            && (a.snapshot.sequence == b.snapshot.sequence ==> a.snapshot.Content() == b.snapshot.Content()))
  }

  predicate Valid(v: Server) {
    && (forall id :: id in v.sessions ==> SessionBelow(v.fences, v.sessions[id]))
    && (forall i :: 0 <= i < |v.log| ==> Covered(v.fences, v.log[i]) && (v.log[i].Passed? ==> v.log[i].verdict.Admitted?))
    && (forall i, j :: 0 <= i < j < |v.log| ==> InOrder(v.log[i], v.log[j]))
    && (forall s :: s in v.fences && v.fences[s].content.None? ==> v.fences[s].sequence == 0)
  }

  /** The mark only moves up. */
  predicate Rises(a: map<Text, Fence>, b: map<Text, Fence>) {
    forall s :: s in a ==>
      && s in b && a[s].epoch <= b[s].epoch && a[s].incarnation <= b[s].incarnation
      && (a[s].incarnation == b[s].incarnation && a[s].content.Some? ==>
            && b[s].content.Some? && a[s].sequence <= b[s].sequence
            && (a[s].sequence == b[s].sequence ==> a[s].content == b[s].content))
  }

  lemma GreetRises(fences: map<Text, Fence>, h: Hello)
    ensures Rises(fences, Greet(fences, h).0)
    ensures Greet(fences, h).1.Ok? ==>
      var g := Greet(fences, h).0;
      h.source in g && g[h.source].epoch == h.epoch && g[h.source].incarnation == h.incarnation
  {
    hide Snapshot.Content;
  }

  /** A snapshot at or below its fence that passes has exactly the fenced authority. */
  lemma PassRises(fences: map<Text, Fence>, s: Snapshot)
    requires Below(fences, Hello(s.source, s.epoch, s.incarnation))
    requires fences[s.source].content.None? ==> fences[s.source].sequence == 0
    ensures !Pass(fences, s).1.Takeover? && Rises(fences, Pass(fences, s).0)
    ensures Pass(fences, s).1.Admitted? ==>
      && s.epoch == fences[s.source].epoch && s.incarnation == fences[s.source].incarnation
      && Pass(fences, s).0[s.source] == MarkOf(s)
  {
    hide Snapshot.Content;
  }

  lemma RisesCovers(a: map<Text, Fence>, b: map<Text, Fence>, e: Entry)
    requires Rises(a, b) && Covered(a, e)
    ensures Covered(b, e)
  {
    hide Snapshot.Content;
  }

  lemma RisesBelow(a: map<Text, Fence>, b: map<Text, Fence>, session: Session)
    requires Rises(a, b) && SessionBelow(a, session)
    ensures SessionBelow(b, session)
  {}

  lemma LogGrows(v: Server, fences: map<Text, Fence>, e: Entry)
    requires Valid(v) && Rises(v.fences, fences)
    requires Covered(fences, e) && (e.Passed? ==> e.verdict.Admitted?)
    requires forall i :: 0 <= i < |v.log| ==> InOrder(v.log[i], e)
    requires forall s :: s in fences && fences[s].content.None? ==> fences[s].sequence == 0
    ensures Valid(v.(fences := fences, log := v.log + [e]))
  {
    hide Covered, InOrder, SessionBelow, Rises;
    var u := v.(fences := fences, log := v.log + [e]);
    forall id | id in u.sessions ensures SessionBelow(u.fences, u.sessions[id]) {
      RisesBelow(v.fences, fences, v.sessions[id]);
    }
    forall i | 0 <= i < |v.log| ensures Covered(fences, v.log[i]) {
      RisesCovers(v.fences, fences, v.log[i]);
    }
  }

  lemma GreetingKeeps(v: Server, id: nat, h: Hello)
    requires Valid(v) && Enabled(v, HelloFence(id, h))
    ensures Valid(Next(v, HelloFence(id, h)))
  {
    hide Snapshot.Content, Rises, SessionBelow;
    var (fences, r) := Greet(v.fences, h);
    GreetRises(v.fences, h);
    if r.Ok? {
      forall i | 0 <= i < |v.log| ensures InOrder(v.log[i], Greeted(h)) {
        RisesCovers(v.fences, fences, v.log[i]);
      }
      LogGrows(v, fences, Greeted(h));
      RisesBelow(v.fences, fences, v.sessions[id]);
      PendingBelow(fences, v.sessions[id], h);
    }
  }

  lemma PendingBelow(fences: map<Text, Fence>, session: Session, h: Hello)
    requires SessionBelow(fences, session) && Below(fences, h)
    ensures SessionBelow(fences, session.(pending := Some(h)))
  {}

  lemma PublishingKeeps(v: Server, id: nat, s: Snapshot)
    requires Valid(v) && Enabled(v, Publish(id, s))
    ensures Valid(Next(v, Publish(id, s)))
    ensures Authority(v.sessions[id], s).Ok? ==> !Pass(v.fences, s).1.Takeover?
  {
    hide Snapshot.Content, Rises;
    if Authority(v.sessions[id], s).Ok? {
      var (fences, verdict) := Pass(v.fences, s);
      assert SessionBelow(v.fences, v.sessions[id]);
      PassRises(v.fences, s);
      if verdict.Admitted? {
        forall i | 0 <= i < |v.log| ensures InOrder(v.log[i], Passed(s, verdict)) {
          RisesCovers(v.fences, fences, v.log[i]);
        }
        LogGrows(v, fences, Passed(s, verdict));
      }
    }
  }

  /** Every interleaving of greetings, commits and snapshots keeps the invariant. */
  lemma StepKeeps(v: Server, ev: Event)
    requires Valid(v) && Enabled(v, ev)
    ensures Valid(Next(v, ev))
  {
    hide Covered, InOrder, Greet, Pass, Below, Authority;
    match ev {
      case HelloFence(id, h) => GreetingKeeps(v, id, h);
      case Publish(id, s) => PublishingKeeps(v, id, s);
      case HelloCommit(id, registered) => assert SessionBelow(v.fences, v.sessions[id]);
      case _ =>
    }
  }

  predicate Possible(events: seq<Event>) {
    events == [] || (Possible(events[..|events| - 1]) && Enabled(Run(events[..|events| - 1]), events[|events| - 1]))
  }

  function Run(events: seq<Event>): Server {
    if events == [] then Server(map[], map[], []) else Next(Run(events[..|events| - 1]), events[|events| - 1])
  }

  lemma {:induction false} RunValid(events: seq<Event>)
    requires Possible(events)
    ensures Valid(Run(events))
  {
    hide Valid, Next, Enabled;
    if events == [] {
      NothingValid();
    } else {
      RunValid(events[..|events| - 1]);
      StepKeeps(Run(events[..|events| - 1]), events[|events| - 1]);
    }
  }

  lemma NothingValid()
    ensures Valid(Server(map[], map[], []))
  {}

  // ----- the results

  /** Once a newer incarnation has greeted, no snapshot of an older one passes; epochs and
      incarnations let through never fall; and within one incarnation sequences never fall
      and a repeated sequence is the same observation. */
  lemma FencedRuns(events: seq<Event>, i: nat, j: nat)
    requires Possible(events) && i < j < |Run(events).log|
    ensures InOrder(Run(events).log[i], Run(events).log[j])
    ensures
      var a, b := Run(events).log[i], Run(events).log[j];
      a.Greeted? && b.Passed? && a.Source() == b.Source() ==> b.Incarnation() >= a.Incarnation() && b.Epoch() >= a.Epoch()
  {
    hide Run, Possible, SessionBelow, Covered;
    RunValid(events);
  }

  /** A session is always at or below its fence, so the branch that lets a strictly newer
      authority take over the mark cannot be reached by publishing. */
  lemma NoTakeover(events: seq<Event>, id: nat, s: Snapshot)
    requires Possible(events) && Enabled(Run(events), Publish(id, s))
    ensures
      var v := Run(events);
      && SessionBelow(v.fences, v.sessions[id])
      && (Authority(v.sessions[id], s).Ok? ==> !Pass(v.fences, s).1.Takeover?)
  {
    hide Run, Possible, Pass, Authority;
    RunValid(events);
    PublishingKeeps(Run(events), id, s);
  }

  /** The fence alone would let another authority take over: the branch exists. */
  lemma TakeoverExists(f: Fence, s: Snapshot)
    ensures Judge(f, s).Takeover? <==> s.epoch > f.epoch || (s.epoch == f.epoch && s.incarnation > f.incarnation)
  {
    hide Snapshot.Content;
  }

  // ----- the table as the server keeps it

  class FenceTable {
    var fences: map<Text, Fence>

    constructor ()
      ensures fences == map[]
    {
      fences := map[];
    }

    /** The fence part of a greeting. */
    method FenceHello(h: Hello) returns (r: Result<()>)
      modifies this
      ensures (fences, r) == Greet(old(fences), h)
    {
      var reason := NoReason;
      if h.source in fences {
        var found := fences[h.source];
        if h.epoch < found.epoch {
          reason := FencedStaleEpoch;
        } else if h.epoch == found.epoch && h.incarnation < found.incarnation {
          reason := FencedStaleIncarnation;
        }
      }
      if !reason.NoReason? { return Err(reason); }
      var known := h.source in fences;
      var fence := if known then fences[h.source] else Fence(0, 0, 0, None);
      if known && h.incarnation < fence.incarnation { return Err(FencedStaleIncarnation); }
      var newIncarnation := known && h.incarnation > fence.incarnation;
      fence := fence.(epoch := h.epoch, incarnation := h.incarnation);
      if newIncarnation { fence := fence.(sequence := 0, content := None); }
      fences := fences[h.source := fence];
      return Ok(());
    }

    method FenceSnapshot(s: Snapshot) returns (verdict: Verdict)
      modifies this
      ensures (fences, verdict) == Pass(old(fences), s)
    {
      hide Snapshot.Content;
      var digest := Some(s.Content());
      if s.source !in fences {
        fences := fences[s.source := Fence(s.epoch, s.incarnation, s.sequence, digest)];
        return Admitted;
      }
      var fence := fences[s.source];
      if s.epoch != fence.epoch || s.incarnation != fence.incarnation {
        if s.epoch < fence.epoch { return Denied(FencedStaleEpoch); }
        if s.epoch == fence.epoch && s.incarnation < fence.incarnation { return Denied(FencedStaleIncarnation); }
        fences := fences[s.source := Fence(s.epoch, s.incarnation, s.sequence, digest)];
        return Takeover;
      }
      if fence.sequence == 0 && fence.content.None? {
        fences := fences[s.source := fence.(sequence := s.sequence, content := digest)];
        return Admitted;
      }
      if s.sequence < fence.sequence { return Denied(FencedStaleSequence); }
      if s.sequence == fence.sequence && digest != fence.content { return Denied(ObservationDuplicateConflicting); }
      if s.sequence > fence.sequence {
        fences := fences[s.source := fence.(sequence := s.sequence, content := digest)];
      }
      return Admitted;
    }
  }
}
