// The events of devicemodel/core/mevent.c, told from what was done so far: which callbacks
// run, what epoll watches, and which descriptors are closed.
module MeventHistory {
  import opened Mevent

  datatype Asked = Asked(fd: int, kind: EventType)

  // The events added so far; an event is known by its place among them.
  ghost function Added(acts: seq<Action>): seq<Asked>
  {
    if acts == [] then []
    else
      var n := |acts| - 1;
      Added(acts[..n]) + if acts[n].AddPoll? then [Asked(acts[n].fd, acts[n].kind)] else []
  }

  // me_state of e was cleared among the first i steps.
  ghost predicate ClearedBefore(acts: seq<Action>, e: int, i: int)
  { exists j :: 0 <= j < i <= |acts| && acts[j].Clear? && acts[j].e == e }

  // ... by a deletion that asked for its descriptor to be closed
  ghost predicate AskedToClose(acts: seq<Action>, e: int, i: int)
  { exists j :: 0 <= j < i <= |acts| && acts[j] == Clear(e, true) }

  // The interest list of epoll: which event it watches a descriptor for.  A descriptor that is
  // watched stays with its event until it is taken off, for whichever event that is asked.
  ghost function Watched(acts: seq<Action>): map<int, int>
  {
    if acts == [] then map[]
    else
      var n := |acts| - 1;
      var w, added := Watched(acts[..n]), Added(acts[..n]);
      match acts[n]
      case AddPoll(fd, _) => w[fd := |added|]
      case Enable(e) =>
        if 0 <= e < |added| && added[e].fd !in w then w[added[e].fd := e] else w
      case Disable(e) => if 0 <= e < |added| then w - {added[e].fd} else w
      case Detach(e) => if 0 <= e < |added| then w - {added[e].fd} else w
      case _ => w
  }

  // What the history says of event e
  ghost predicate Told(s: State, acts: seq<Action>, e: int)
    requires 0 <= e < |s.events| && |Added(acts)| == |s.events|
  {
    var ev, asked := s.events[e], Added(acts)[e];
    && ev.fd == asked.fd && ev.kind == asked.kind
    && (MeState(s.events, e) <==> !ClearedBefore(acts, e, |acts|))
    && (ev.closefd <==> AskedToClose(acts, e, |acts|))
    && (ev.polled <==> ev.fd in Watched(acts) && Watched(acts)[ev.fd] == e)
  }

  // The event that a descriptor is watched for has that descriptor.
  ghost predicate WatchedFor(events: seq<Event>, w: map<int, int>, fd: int)
    requires fd in w
  { 0 <= w[fd] < |events| && events[w[fd]].fd == fd }

  ghost predicate AllTold(s: State, acts: seq<Action>)
  {
    && |Added(acts)| == |s.events|
    && (forall e :: 0 <= e < |s.events| ==> Told(s, acts, e))
    && (forall fd :: fd in Watched(acts) ==> WatchedFor(s.events, Watched(acts), fd))
    && (forall e :: ClearedBefore(acts, e, |acts|) ==> 0 <= e < |s.events|)
  }

  // ---- one step ----------------------------------------------------------------------------

  lemma Cut(acts: seq<Action>, a: Action)
    ensures (acts + [a])[..|acts|] == acts && (acts + [a])[|acts|] == a
  {
  }

  lemma MoreCleared(acts: seq<Action>, a: Action, e: int)
    ensures ClearedBefore(acts + [a], e, |acts| + 1) <==> ClearedBefore(acts, e, |acts|) || (a.Clear? && a.e == e)
    ensures AskedToClose(acts + [a], e, |acts| + 1) <==> AskedToClose(acts, e, |acts|) || a == Clear(e, true)
    ensures AskedToClose(acts, e, |acts|) ==> ClearedBefore(acts, e, |acts|)
  {
    var more := acts + [a];
    assert more[|acts|] == a;
    if ClearedBefore(acts, e, |acts|) {
      var j :| 0 <= j < |acts| && acts[j].Clear? && acts[j].e == e;
      assert more[j].Clear? && more[j].e == e;
    }
    if AskedToClose(acts, e, |acts|) {
      var j :| 0 <= j < |acts| && acts[j] == Clear(e, true);
      assert more[j] == Clear(e, true);
      assert acts[j].Clear? && acts[j].e == e;
    }
  }

  // epoll has a registration for a descriptor if and only if the descriptor is watched.
  lemma RegisteredIsWatched(s: State, acts: seq<Action>, fd: int)
    requires AllTold(s, acts)
    ensures Registered(s.events, fd) <==> fd in Watched(acts)
  {
    if fd in Watched(acts) {
      assert WatchedFor(s.events, Watched(acts), fd);
      assert Told(s, acts, Watched(acts)[fd]);
    }
    if e :| 0 <= e < |s.events| && s.events[e].polled && s.events[e].fd == fd {
      assert Told(s, acts, e);
    }
  }

  lemma StepAdded(s: State, acts: seq<Action>, a: Action)
    requires AllTold(s, acts) && Enabled(s, a)
    ensures |Added(acts + [a])| == |Apply(s, a).events| && Added(acts) <= Added(acts + [a])
    ensures forall e :: 0 <= e < |s.events| ==>
              Apply(s, a).events[e].fd == s.events[e].fd && Apply(s, a).events[e].kind == s.events[e].kind
    ensures a.AddPoll? ==> Added(acts + [a])[|s.events|] == Asked(a.fd, a.kind)
  {
    Cut(acts, a);
  }

  lemma StepWatched(s: State, acts: seq<Action>, a: Action, fd: int)
    requires Inv(s) && AllTold(s, acts) && Enabled(s, a) && fd in Watched(acts + [a])
    ensures WatchedFor(Apply(s, a).events, Watched(acts + [a]), fd)
  {
    Cut(acts, a);
    StepAdded(s, acts, a);
    assert fd in Watched(acts) ==> WatchedFor(s.events, Watched(acts), fd);
    match a
    case Enable(e) => assert Told(s, acts, e);
    case _ =>
  }

  lemma StepPolled(s: State, acts: seq<Action>, a: Action, e: int)
    requires Inv(s) && AllTold(s, acts) && Enabled(s, a) && 0 <= e < |Apply(s, a).events|
    ensures var ev, w := Apply(s, a).events[e], Watched(acts + [a]);
      ev.polled <==> ev.fd in w && w[ev.fd] == e
  {
    Cut(acts, a);
    StepAdded(s, acts, a);
    if e < |s.events| {
      assert Told(s, acts, e);
    }
    match a
    case AddPoll(fd, _) => RegisteredIsWatched(s, acts, fd);
    case Enable(x) => assert Told(s, acts, x); RegisteredIsWatched(s, acts, s.events[x].fd);
    case Disable(x) => assert Told(s, acts, x);
    case Detach(x) => assert Told(s, acts, x);
    case _ =>
  }

  lemma StepState(s: State, acts: seq<Action>, a: Action, e: int)
    requires Inv(s) && AllTold(s, acts) && Enabled(s, a) && 0 <= e < |Apply(s, a).events|
    ensures MeState(Apply(s, a).events, e) <==> !ClearedBefore(acts + [a], e, |acts| + 1)
    ensures Apply(s, a).events[e].closefd <==> AskedToClose(acts + [a], e, |acts| + 1)
  {
    MoreCleared(acts, a, e);
    if e < |s.events| {
      assert Told(s, acts, e) && EventOk(s, e);
    }
  }

  lemma StepTold(s: State, acts: seq<Action>, a: Action)
    requires Inv(s) && AllTold(s, acts) && Enabled(s, a)
    ensures AllTold(Apply(s, a), acts + [a])
  {
    var t, more := Apply(s, a), acts + [a];
    StepAdded(s, acts, a);
    forall e | 0 <= e < |t.events| ensures Told(t, more, e) {
      StepPolled(s, acts, a, e);
      StepState(s, acts, a, e);
      assert e < |s.events| ==> Told(s, acts, e);
    }
    forall fd | fd in Watched(more) ensures WatchedFor(t.events, Watched(more), fd) { StepWatched(s, acts, a, fd); }
    forall e | ClearedBefore(more, e, |more|) ensures 0 <= e < |t.events| { MoreCleared(acts, a, e); }
  }

  // ---- whole runs ---------------------------------------------------------------------------

  // In every state of every run, the history tells each event's descriptor, kind, me_state,
  // fate of the descriptor and whether epoll watches it.
  lemma {:induction false} RunTold(ss: seq<State>, acts: seq<Action>, i: int)
    requires Run(ss, acts) && 0 <= i <= |acts|
    ensures AllTold(ss[i], acts[..i])
    decreases i
  {
    if i > 0 {
      RunTold(ss, acts, i - 1);
      RunInv(ss, acts, i - 1);
      assert Step(ss[i - 1], acts[i - 1], ss[i]);
      StepTold(ss[i - 1], acts[..i - 1], acts[i - 1]);
      assert acts[..i] == acts[..i - 1] + [acts[i - 1]];
    }
  }

  lemma PrefixCleared(acts: seq<Action>, e: int, i: int)
    requires 0 <= i <= |acts|
    ensures ClearedBefore(acts[..i], e, i) <==> ClearedBefore(acts, e, i)
    ensures AskedToClose(acts[..i], e, i) <==> AskedToClose(acts, e, i)
  {
    if j :| 0 <= j < i && acts[j].Clear? && acts[j].e == e {
      assert acts[..i][j].Clear? && acts[..i][j].e == e;
    }
    if j :| 0 <= j < i && acts[j] == Clear(e, true) {
      assert acts[..i][j] == Clear(e, true);
    }
  }

  // The dispatcher calls an event of its batch if and only if no deletion has cleared the
  // event's state before.
  lemma CallbackRuns(ss: seq<State>, acts: seq<Action>, i: int)
    requires Run(ss, acts) && 0 <= i < |acts| && acts[i] == Start
    ensures 0 <= ss[i].at < |ss[i].batch|
    ensures ss[i + 1].running <==> !ClearedBefore(acts, ss[i].batch[ss[i].at], i)
  {
    RunInv(ss, acts, i);
    RunTold(ss, acts, i);
    assert Step(ss[i], acts[i], ss[i + 1]);
    var e := ss[i].batch[ss[i].at];
    assert Told(ss[i], acts[..i], e);
    PrefixCleared(acts, e, i);
  }

  // An event that is gone has closed its descriptor, once, if and only if its deletion asked
  // for that; one that is not has not.
  lemma ClosedAsAsked(ss: seq<State>, acts: seq<Action>, e: int, i: int)
    requires Run(ss, acts) && 0 <= i <= |acts| && 0 <= e < |ss[i].events|
    ensures ss[i].events[e].closed == if ss[i].events[e].phase == Gone && AskedToClose(acts, e, i) then 1 else 0
  {
    RunInv(ss, acts, i);
    RunTold(ss, acts, i);
    assert EventOk(ss[i], e) && Told(ss[i], acts[..i], e);
    PrefixCleared(acts, e, i);
  }

  // A descriptor that mevent_destroy closes
  predicate ClosedAtTheEnd(a: Asked)
  { a.kind in {Read, ReadEt, Write, WriteEt} && a.fd != 0 }

  // After mevent_destroy every event added has closed its descriptor as its deletion asked if
  // that was over, and else by its kind.
  lemma DestroyCloses(ss: seq<State>, acts: seq<Action>, e: int)
    requires Run(ss, acts) && Settled(ss[|acts|]) && 0 <= e < |ss[|acts|].events|
    ensures |Added(acts)| == |ss[|acts|].events|
    ensures Destroyed(ss[|acts|]).events[e].closed == 1 <==>
            if ss[|acts|].events[e].phase == Gone then AskedToClose(acts, e, |acts|) else ClosedAtTheEnd(Added(acts)[e])
  {
    RunInv(ss, acts, |acts|);
    RunTold(ss, acts, |acts|);
    assert acts[..|acts|] == acts;
    assert EventOk(ss[|acts|], e) && Told(ss[|acts|], acts, e);
    ClosedAsAsked(ss, acts, e, |acts|);
  }
}
