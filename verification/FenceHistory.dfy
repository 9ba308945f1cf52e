/** What the fence table decides, read off the history of accepted greetings and passed
    snapshots instead of the marks. */
module FenceHistory {
  import opened Core
  import opened Domain
  import opened Fencing

  predicate GreetedBy(e: Entry, source: Text) { e.Greeted? && e.hello.source == source }

  predicate PassedFor(e: Entry, source: Text, incarnation: nat) {
    e.Passed? && e.snapshot.source == source && e.snapshot.incarnation == incarnation
  }

  /** A greeting of the source under a later epoch was accepted. */
  predicate LaterEpoch(log: seq<Entry>, source: Text, epoch: nat) {
    exists i :: 0 <= i < |log| && GreetedBy(log[i], source) && log[i].hello.epoch > epoch
  }

  predicate LaterIncarnation(log: seq<Entry>, source: Text, incarnation: nat) {
    exists i :: 0 <= i < |log| && GreetedBy(log[i], source) && log[i].hello.incarnation > incarnation
  }

  /** The same incarnation already passed a later snapshot. */
  predicate Overtaken(log: seq<Entry>, s: Snapshot) {
    exists i :: 0 <= i < |log| && PassedFor(log[i], s.source, s.incarnation) && log[i].snapshot.sequence > s.sequence
  }

  /** The same incarnation already passed other content under this sequence number. */
  predicate Contradicted(log: seq<Entry>, s: Snapshot) {
    exists i :: 0 <= i < |log| && PassedFor(log[i], s.source, s.incarnation) && log[i].snapshot.sequence == s.sequence
                && log[i].snapshot.Content() != s.Content()
  }

  // ----- every mark is in the history

  predicate Stamped(e: Entry, source: Text, f: Fence) {
    GreetedBy(e, source) && e.hello.epoch == f.epoch && e.hello.incarnation == f.incarnation
  }

  predicate Reached(e: Entry, source: Text, f: Fence) {
    PassedFor(e, source, f.incarnation) && e.snapshot.sequence == f.sequence && Some(e.snapshot.Content()) == f.content
  }

  predicate Grounded(log: seq<Entry>, source: Text, f: Fence) {
    && (exists i :: 0 <= i < |log| && Stamped(log[i], source, f))
    && (f.content.Some? ==> exists i :: 0 <= i < |log| && Reached(log[i], source, f))
  }

  predicate AllGrounded(fences: map<Text, Fence>, log: seq<Entry>) {
    forall source :: source in fences ==> Grounded(log, source, fences[source])
  }

  lemma Longer(log: seq<Entry>, e: Entry, source: Text, f: Fence)
    requires Grounded(log, source, f)
    ensures Grounded(log + [e], source, f)
  {
    hide Stamped, Reached;
    var more := log + [e];
    var i :| 0 <= i < |log| && Stamped(log[i], source, f);
    assert Stamped(more[i], source, f);
    if f.content.Some? {
      var j :| 0 <= j < |log| && Reached(log[j], source, f);
      assert Reached(more[j], source, f);
    }
  }

  lemma GreetingGrounded(v: Server, id: nat, h: Hello)
    requires AllGrounded(v.fences, v.log) && Enabled(v, HelloFence(id, h))
    ensures AllGrounded(Next(v, HelloFence(id, h)).fences, Next(v, HelloFence(id, h)).log)
  {
    hide Grounded, Snapshot.Content;
    var (fences, r) := Greet(v.fences, h);
    if r.Ok? {
      var log := v.log + [Greeted(h)];
      forall source | source in fences
        ensures Grounded(log, source, fences[source])
      {
        if source == h.source {
          HasGreeted(v, h);
        } else {
          Longer(v.log, Greeted(h), source, v.fences[source]);
        }
      }
    }
  }

  lemma HasGreeted(v: Server, h: Hello)
    requires h.source in v.fences ==> Grounded(v.log, h.source, v.fences[h.source])
    requires Greet(v.fences, h).1.Ok?
    ensures h.source in Greet(v.fences, h).0
    ensures Grounded(v.log + [Greeted(h)], h.source, Greet(v.fences, h).0[h.source])
  {
    var log, f := v.log + [Greeted(h)], Greet(v.fences, h).0[h.source];
    assert Stamped(log[|v.log|], h.source, f);
    if f.content.Some? {
      var j :| 0 <= j < |v.log| && Reached(v.log[j], h.source, v.fences[h.source]);
      assert Reached(log[j], h.source, f);
    }
  }

  lemma PassingGrounded(v: Server, s: Snapshot)
    requires AllGrounded(v.fences, v.log) && Below(v.fences, Hello(s.source, s.epoch, s.incarnation))
    requires v.fences[s.source].content.None? ==> v.fences[s.source].sequence == 0
    ensures
      var (fences, verdict) := Pass(v.fences, s);
      verdict.Admitted? ==> AllGrounded(fences, v.log + [Passed(s, verdict)])
  {
    hide Snapshot.Content, Grounded;
    var (fences, verdict) := Pass(v.fences, s);
    PassRises(v.fences, s);
    if verdict.Admitted? {
      var e := Passed(s, verdict);
      forall source | source in fences
        ensures Grounded(v.log + [e], source, fences[source])
      {
        if source == s.source {
          HasPassed(v, s, e);
        } else {
          Longer(v.log, e, source, v.fences[source]);
        }
      }
    }
  }

  lemma HasPassed(v: Server, s: Snapshot, e: Entry)
    requires s.source in v.fences && Grounded(v.log, s.source, v.fences[s.source]) && e.Passed? && e.snapshot == s
    requires s.epoch == v.fences[s.source].epoch && s.incarnation == v.fences[s.source].incarnation
    ensures Grounded(v.log + [e], s.source, MarkOf(s))
  {
    hide Snapshot.Content;
    var log, f := v.log + [e], MarkOf(s);
    var i :| 0 <= i < |v.log| && Stamped(v.log[i], s.source, v.fences[s.source]);
    assert Stamped(log[i], s.source, f) && Reached(log[|v.log|], s.source, f);
  }

  lemma StepGrounded(v: Server, ev: Event)
    requires Valid(v) && AllGrounded(v.fences, v.log) && Enabled(v, ev)
    ensures AllGrounded(Next(v, ev).fences, Next(v, ev).log)
  {
    hide Grounded, Greet, Pass, Below, Snapshot.Content, Covered, InOrder;
    match ev {
      case HelloFence(id, h) => GreetingGrounded(v, id, h);
      case Publish(id, s) =>
        if Fencing.Authority(v.sessions[id], s).Ok? {
          assert SessionBelow(v.fences, v.sessions[id]);
          AtOrBelow(v.fences, v.sessions[id].context.value, s);
          PassRises(v.fences, s);
          PassingGrounded(v, s);
        }
      case _ =>
    }
  }

  lemma AtOrBelow(fences: map<Text, Fence>, h: Hello, s: Snapshot)
    requires Below(fences, h) && h == Hello(s.source, s.epoch, s.incarnation)
    ensures s.source in fences && Below(fences, Hello(s.source, s.epoch, s.incarnation))
  {}

  lemma {:induction false} RunGrounded(events: seq<Event>)
    requires Possible(events)
    ensures Valid(Run(events)) && AllGrounded(Run(events).fences, Run(events).log)
  {
    hide Valid, AllGrounded, Next, Enabled;
    RunValid(events);
    if events == [] {
      NothingGrounded();
    } else {
      RunGrounded(events[..|events| - 1]);
      StepGrounded(Run(events[..|events| - 1]), events[|events| - 1]);
    }
  }

  lemma NothingGrounded()
    ensures AllGrounded(map[], [])
  {}

  // ----- the mark against the history

  /** The mark of a greeted source holds its latest epoch and incarnation. */
  lemma MarkIsLatest(v: Server, source: Text, epoch: nat, incarnation: nat)
    requires Valid(v) && AllGrounded(v.fences, v.log)
    ensures source !in v.fences ==> !LaterEpoch(v.log, source, epoch) && !LaterIncarnation(v.log, source, incarnation)
    ensures source in v.fences ==>
              && (LaterEpoch(v.log, source, epoch) <==> v.fences[source].epoch > epoch)
              && (LaterIncarnation(v.log, source, incarnation) <==> v.fences[source].incarnation > incarnation)
  {
    hide Snapshot.Content, InOrder, SessionBelow;
    assert forall i :: 0 <= i < |v.log| && GreetedBy(v.log[i], source) ==> Covered(v.fences, v.log[i]);
    if source in v.fences {
      var f := v.fences[source];
      assert Grounded(v.log, source, f);
      var i :| 0 <= i < |v.log| && Stamped(v.log[i], source, f);
      assert GreetedBy(v.log[i], source);
    }
  }

  /** For the fenced incarnation the mark holds the latest sequence and its content. */
  lemma MarkIsLast(v: Server, s: Snapshot)
    requires Valid(v) && AllGrounded(v.fences, v.log)
    requires s.source in v.fences && s.incarnation == v.fences[s.source].incarnation
    ensures
      var f := v.fences[s.source];
      && (Overtaken(v.log, s) <==> f.content.Some? && f.sequence > s.sequence)
      && (!Overtaken(v.log, s) ==>
            (Contradicted(v.log, s) <==> f.content.Some? && f.sequence == s.sequence && f.content != Some(s.Content())))
  {
    hide Snapshot.Content, InOrder, SessionBelow;
    var f := v.fences[s.source];
    assert Grounded(v.log, s.source, f);
    assert forall i :: 0 <= i < |v.log| && PassedFor(v.log[i], s.source, s.incarnation) ==> Covered(v.fences, v.log[i]);
    if f.content.Some? {
      var j :| 0 <= j < |v.log| && Reached(v.log[j], s.source, f);
      assert PassedFor(v.log[j], s.source, s.incarnation);
    }
  }

  // ----- the results

  /** A greeting is accepted exactly when no greeting of its source under a later epoch or
      incarnation was; the reason names the first of the two that was. */
  lemma GreetingExactly(events: seq<Event>, id: nat, h: Hello)
    requires Possible(events) && Enabled(Run(events), HelloFence(id, h))
    ensures
      var v := Run(events);
      && Greet(v.fences, h).1
         == (if LaterEpoch(v.log, h.source, h.epoch) then Err(FencedStaleEpoch)
             else if LaterIncarnation(v.log, h.source, h.incarnation) then Err(FencedStaleIncarnation)
             else Ok(()))
      && Next(v, HelloFence(id, h)).log
         == if LaterEpoch(v.log, h.source, h.epoch) || LaterIncarnation(v.log, h.source, h.incarnation) then v.log
            else v.log + [Greeted(h)]
  {
    hide Run, Possible, Valid, AllGrounded, LaterEpoch, LaterIncarnation;
    RunGrounded(events);
    MarkIsLatest(Run(events), h.source, h.epoch, h.incarnation);
  }

  /** A snapshot passes exactly when its session greeted with its authority, no later authority
      of the source has greeted since, and the incarnation has passed nothing later and nothing
      else under the same number. A refused one changes nothing. */
  lemma PublishingExactly(events: seq<Event>, id: nat, s: Snapshot)
    requires Possible(events) && Enabled(Run(events), Publish(id, s))
    ensures
      var v := Run(events);
      var u := Next(v, Publish(id, s));
      if && v.sessions[id].context == Some(Hello(s.source, s.epoch, s.incarnation))
         && !LaterEpoch(v.log, s.source, s.epoch) && !LaterIncarnation(v.log, s.source, s.incarnation)
         && !Overtaken(v.log, s) && !Contradicted(v.log, s)
      then u.log == v.log + [Passed(s, Admitted)] && u.sessions == v.sessions
      else u == v
  {
    hide Run, Possible, AllGrounded, Pass, LaterEpoch, LaterIncarnation, Overtaken, Contradicted, Snapshot.Content,
         Covered, InOrder;
    RunGrounded(events);
    var v := Run(events);
    if v.sessions[id].context == Some(Hello(s.source, s.epoch, s.incarnation)) {
      assert SessionBelow(v.fences, v.sessions[id]);
      PassExactly(v, s);
    }
  }

  /** Why a snapshot of a greeted authority is refused. */
  lemma PassExactly(v: Server, s: Snapshot)
    requires Valid(v) && AllGrounded(v.fences, v.log) && Below(v.fences, Hello(s.source, s.epoch, s.incarnation))
    ensures
      Pass(v.fences, s).1
      == if LaterEpoch(v.log, s.source, s.epoch) then Denied(FencedStaleEpoch)
         else if LaterIncarnation(v.log, s.source, s.incarnation) then Denied(FencedStaleIncarnation)
         else if Overtaken(v.log, s) then Denied(FencedStaleSequence)
         else if Contradicted(v.log, s) then Denied(ObservationDuplicateConflicting)
         else Admitted
  {
    hide LaterEpoch, LaterIncarnation, Overtaken, Contradicted, Snapshot.Content, AllGrounded, Covered, InOrder,
         SessionBelow;
    var f := v.fences[s.source];
    MarkIsLatest(v, s.source, s.epoch, s.incarnation);
    if s.epoch == f.epoch && s.incarnation == f.incarnation {
      MarkIsLast(v, s);
    }
  }

  /** A session that greets and publishes undisturbed gets its snapshot through. */
  lemma UndisturbedPasses(events: seq<Event>, id: nat, h: Hello, s: Snapshot)
    requires Possible(events) && Enabled(Run(events), HelloFence(id, h)) && h == Hello(s.source, s.epoch, s.incarnation)
    requires !LaterEpoch(Run(events).log, h.source, h.epoch)
    requires !LaterIncarnation(Run(events).log, h.source, h.incarnation)
    requires !Overtaken(Run(events).log, s) && !Contradicted(Run(events).log, s)
    ensures
      var later := events + [HelloFence(id, h)] + [HelloCommit(id, true)] + [Publish(id, s)];
      Possible(later) && Run(later).log == Run(events).log + [Greeted(h)] + [Passed(s, Admitted)]
  {
    hide Valid, AllGrounded, LaterEpoch, LaterIncarnation, Overtaken, Contradicted, Snapshot.Content, Greet, Pass;
    GreetingExactly(events, id, h);
    var a := events + [HelloFence(id, h)];
    Extend(events, HelloFence(id, h));
    var b := a + [HelloCommit(id, true)];
    Extend(a, HelloCommit(id, true));
    assert Run(b).log == Run(events).log + [Greeted(h)] && Run(b).sessions[id] == Session(Some(h), None);
    OneMoreGreeting(Run(events).log, h, s);
    PublishingExactly(b, id, s);
    Extend(b, Publish(id, s));
  }

  lemma Extend(events: seq<Event>, ev: Event)
    requires Possible(events) && Enabled(Run(events), ev)
    ensures Possible(events + [ev]) && Run(events + [ev]) == Next(Run(events), ev)
  {
    hide Next, Enabled;
    assert (events + [ev])[..|events|] == events;
  }

  lemma OneMoreGreeting(log: seq<Entry>, h: Hello, s: Snapshot)
    requires h == Hello(s.source, s.epoch, s.incarnation)
    requires !LaterEpoch(log, h.source, h.epoch) && !LaterIncarnation(log, h.source, h.incarnation)
    requires !Overtaken(log, s) && !Contradicted(log, s)
    ensures
      var more := log + [Greeted(h)];
      && !LaterEpoch(more, s.source, s.epoch) && !LaterIncarnation(more, s.source, s.incarnation)
      && !Overtaken(more, s) && !Contradicted(more, s)
  {
    hide Snapshot.Content;
  }
}
