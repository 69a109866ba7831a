// The event life cycle of devicemodel/core/mevent.c: one dispatcher, any number of other
// threads, and deletions that are deferred until the dispatcher is done with its batch.
module Mevent {
  import opened Sequences

  const MEVENT_MAX := 64

  datatype EventType = Read | ReadEt | Write | WriteEt | Timer | Signal

  // How far an event has come.  Deleting takes several steps: off the list, me_state
  // cleared, out of epoll, and then freed at once or queued for the dispatcher.
  datatype Phase = Adding | Live | Unlinked | Cleared | Detached | Queued | Gone

  // ours: the deletion runs on the dispatcher thread.  polled: registered with epoll.
  // torn, closed and freed count teardown calls, closes of the descriptor and frees.
  datatype Event = Event(fd: int, kind: EventType, phase: Phase, ours: bool, polled: bool, closefd: bool,
                         torn: int, closed: int, freed: int)

  // batch and at are the events epoll_wait returned and the next one to look at; fetched
  // says that a batch is being handled, running that a callback is.
  datatype State = State(events: seq<Event>, globals: seq<int>, dels: seq<int>,
                         batch: seq<int>, at: int, fetched: bool, running: bool)

  datatype Action =
    | AddPoll(fd: int, kind: EventType)      // mevent_add: epoll_ctl accepts the new event
    | AddList(e: int)         // mevent_add: onto global_head
    | Enable(e: int)
    | Disable(e: int)
    | Unlink(e: int, ours: bool)
    | Clear(e: int, closefd: bool)
    | Detach(e: int)
    | FreeNow(e: int)         // end of a deletion on the dispatcher thread
    | Enqueue(e: int)         // end of a deletion on any other thread
    | Fetch(b: seq<int>)
    | Start                   // look at the next event of the batch, start its callback
    | Return                  // the callback returns
    | Drain

  predicate Is(s: State, e: int, p: Phase) { 0 <= e < |s.events| && s.events[e].phase == p }

  // The events of the batch that are still to be looked at
  function Ahead(s: State): seq<int> { if 0 <= s.at <= |s.batch| then s.batch[s.at..] else [] }

  // epoll keeps one registration per descriptor.
  predicate Registered(events: seq<Event>, fd: int)
  { exists e :: 0 <= e < |events| && events[e].polled && events[e].fd == fd }

  // me_state
  predicate MeState(events: seq<Event>, e: int)
  { 0 <= e < |events| && (events[e].phase == Adding || events[e].phase == Live || events[e].phase == Unlinked) }

  // No deletion by the dispatcher is under way.
  predicate Unhurried(events: seq<Event>)
  { forall e :: 0 <= e < |events| && events[e].ours ==> events[e].phase == Gone }

  predicate Pollable(events: seq<Event>, b: seq<int>)
  { forall i :: 0 <= i < |b| ==> 0 <= b[i] < |events| && events[b[i]].polled }

  predicate Enabled(s: State, a: Action)
  {
    && 0 <= s.at <= |s.batch|
    && match a
       case AddPoll(fd, kind) => kind != Timer && fd >= 0 && !Registered(s.events, fd)
       case AddList(e) => Is(s, e, Adding)
       case Enable(e) => Is(s, e, Live)
       case Disable(e) => Is(s, e, Live)
       case Unlink(e, ours) => Is(s, e, Live) && (ours ==> s.running)
       case Clear(e, _) => Is(s, e, Unlinked)
       case Detach(e) => Is(s, e, Cleared)
       case FreeNow(e) => Is(s, e, Detached) && s.events[e].ours
       case Enqueue(e) => Is(s, e, Detached) && !s.events[e].ours
       case Fetch(b) => !s.fetched && |b| <= MEVENT_MAX && Pollable(s.events, b)
       case Start => s.fetched && !s.running && s.at < |s.batch|
       case Return => s.running && Unhurried(s.events)
       case Drain => s.fetched && !s.running && s.at == |s.batch|
  }

  function Freed(ev: Event): Event
  {
    ev.(phase := Gone, torn := ev.torn + 1, freed := ev.freed + 1,
        closed := ev.closed + if ev.closefd then 1 else 0)
  }

  function Drained(events: seq<Event>, dels: seq<int>): (r: seq<Event>)
    ensures |r| == |events|
    ensures forall e :: 0 <= e < |events| ==> r[e] == if e in dels then Freed(events[e]) else events[e]
  { seq(|events|, e requires 0 <= e < |events| => if e in dels then Freed(events[e]) else events[e]) }

  // EPOLL_CTL_DEL names a descriptor, not an event.
  function Unpolled(events: seq<Event>, fd: int): (r: seq<Event>)
    ensures |r| == |events|
    ensures forall e :: 0 <= e < |events| ==> r[e] == events[e].(polled := events[e].polled && events[e].fd != fd)
  { seq(|events|, e requires 0 <= e < |events| => events[e].(polled := events[e].polled && events[e].fd != fd)) }

  function Apply(s: State, a: Action): State
    requires Enabled(s, a)
  {
    match a
    case AddPoll(fd, kind) => s.(events := s.events + [Event(fd, kind, Adding, false, true, false, 0, 0, 0)])
    case AddList(e) => s.(events := s.events[e := s.events[e].(phase := Live)], globals := [e] + s.globals)
    case Enable(e) =>
      if Registered(s.events, s.events[e].fd) then s else s.(events := s.events[e := s.events[e].(polled := true)])
    case Disable(e) => s.(events := Unpolled(s.events, s.events[e].fd))
    case Unlink(e, ours) =>
      s.(events := s.events[e := s.events[e].(phase := Unlinked, ours := ours)], globals := Without(s.globals, e))
    case Clear(e, closefd) => s.(events := s.events[e := s.events[e].(phase := Cleared, closefd := closefd)])
    case Detach(e) =>
      s.(events := Unpolled(s.events, s.events[e].fd)[e := s.events[e].(phase := Detached, polled := false)])
    case FreeNow(e) => s.(events := s.events[e := Freed(s.events[e])])
    case Enqueue(e) => s.(events := s.events[e := s.events[e].(phase := Queued)], dels := [e] + s.dels)
    case Fetch(b) => s.(batch := b, at := 0, fetched := true)
    case Start => s.(at := s.at + 1, running := MeState(s.events, s.batch[s.at]))
    case Return => s.(running := false)
    case Drain => s.(events := Drained(s.events, s.dels), dels := [], fetched := false)
  }

  // ---- what every reachable state satisfies -------------------------------------------------

  // Torn down and freed together, closed if asked, and never twice
  ghost predicate Reclaimed(ev: Event)
  {
    && ev.torn == ev.freed == (if ev.phase == Gone then 1 else 0)
    && ev.closed == (if ev.phase == Gone && ev.closefd then 1 else 0)
  }

  ghost predicate EventOk(s: State, e: int)
    requires 0 <= e < |s.events|
  {
    var ev := s.events[e];
    && Reclaimed(ev)
    && (e in s.globals <==> ev.phase == Live) && (e in s.dels <==> ev.phase == Queued)
    && (ev.polled ==> ev.phase == Adding || ev.phase == Live || ev.phase == Unlinked || ev.phase == Cleared)
    && (ev.ours ==> ev.phase == Unlinked || ev.phase == Cleared || ev.phase == Detached || ev.phase == Gone)
    && (ev.ours && ev.phase != Gone ==> s.running)
  }

  ghost predicate Within(q: seq<int>, n: int) { forall i :: 0 <= i < |q| ==> 0 <= q[i] < n }

  ghost predicate Lists(s: State)
  {
    && 0 <= s.at <= |s.batch| && (!s.fetched ==> s.at == |s.batch| && !s.running)
    && Within(s.globals, |s.events|) && Within(s.dels, |s.events|) && Within(s.batch, |s.events|)
    && NoDup(s.globals) && NoDup(s.dels)
  }

  ghost predicate Inv(s: State)
  { Lists(s) && forall e {:trigger EventOk(s, e)} :: 0 <= e < |s.events| ==> EventOk(s, e) }

  // No event still to be looked at has been freed.
  predicate Safe(s: State)
  { forall i :: 0 <= i < |s.batch| && s.at <= i ==> 0 <= s.batch[i] < |s.events| && s.events[s.batch[i]].phase != Gone }

  lemma {:induction false} WithoutWithin(q: seq<int>, x: int, n: int)
    requires Within(q, n)
    ensures Within(Without(q, x), n)
  {
    if q != [] && q[0] != x {
      WithoutWithin(q[1..], x, n);
    }
  }

  lemma PutFirst(q: seq<int>, x: int, n: int)
    requires NoDup(q) && x !in q && Within(q, n) && 0 <= x < n
    ensures NoDup([x] + q) && Within([x] + q, n) && forall y :: y in [x] + q <==> y == x || y in q
  {
  }

  lemma StepLists(s: State, a: Action)
    requires Inv(s) && Enabled(s, a)
    ensures Lists(Apply(s, a))
  {
    match a
    case Unlink(e, _) => WithoutIs(s.globals, e); WithoutWithin(s.globals, e, |s.events|);
    case AddList(e) => assert EventOk(s, e); PutFirst(s.globals, e, |s.events|);
    case Enqueue(e) => assert EventOk(s, e); PutFirst(s.dels, e, |s.events|);
    case _ =>
  }

  // What the step does to one event
  lemma StepEvent(s: State, a: Action, e: int)
    requires Inv(s) && Enabled(s, a) && 0 <= e < |Apply(s, a).events|
    ensures EventOk(Apply(s, a), e)
  {
    assert e < |s.events| ==> EventOk(s, e);
    match a
    case AddPoll(_, _) =>
    case AddList(x) => assert EventOk(s, x); PutFirst(s.globals, x, |s.events|);
    case Unlink(x, _) => WithoutIs(s.globals, x);
    case Enqueue(x) => assert EventOk(s, x); PutFirst(s.dels, x, |s.events|);
    case _ =>
  }

  lemma StepInv(s: State, a: Action)
    requires Inv(s) && Enabled(s, a)
    ensures Inv(Apply(s, a))
  {
    StepLists(s, a);
    forall e | 0 <= e < |Apply(s, a).events| ensures EventOk(Apply(s, a), e) { StepEvent(s, a, e); }
  }

  // ---- whole runs -----------------------------------------------------------------------------

  function Init(): State { State([], [], [], [], 0, false, false) }

  ghost predicate Step(s: State, a: Action, t: State) { Enabled(s, a) && t == Apply(s, a) }

  // acts leads from the start through the states ss, in any interleaving of the threads.
  ghost predicate Run(ss: seq<State>, acts: seq<Action>)
  { |ss| == |acts| + 1 && ss[0] == Init() && forall i :: 0 <= i < |acts| ==> Step(ss[i], acts[i], ss[i + 1]) }

  lemma {:induction false} RunInv(ss: seq<State>, acts: seq<Action>, i: int)
    requires Run(ss, acts) && 0 <= i <= |acts|
    ensures Inv(ss[i])
    decreases i
  {
    if i > 0 {
      RunInv(ss, acts, i - 1);
      assert Step(ss[i - 1], acts[i - 1], ss[i]);
      StepInv(ss[i - 1], acts[i - 1]);
    }
  }

  // The dispatcher frees an event that its batch still refers to.
  ghost predicate Dangles(s: State, a: Action)
  { a.FreeNow? && a.e in Ahead(s) }

  // The only two ways an event is freed
  lemma FreedBy(s: State, a: Action, e: int)
    requires Inv(s) && Enabled(s, a)
    ensures Is(Apply(s, a), e, Gone) ==> Is(s, e, Gone) || a == FreeNow(e) || (a == Drain && Is(s, e, Queued))
  {
    assert 0 <= e < |s.events| ==> EventOk(s, e);
  }

  // Except for a new batch, the next state looks at nothing this one would not.
  lemma AheadStays(s: State, a: Action, i: int)
    requires Lists(s) && Enabled(s, a) && !a.Fetch?
    requires 0 <= i < |Apply(s, a).batch| && Apply(s, a).at <= i
    ensures Apply(s, a).batch == s.batch && s.batch[i] in Ahead(s) && a != Drain
  {
    assert s.batch[i] == Ahead(s)[i - s.at];
  }

  // Without a dangling free, whatever the next state still looks at has not been freed.
  lemma AheadKept(s: State, a: Action, i: int)
    requires Inv(s) && Safe(s) && Enabled(s, a) && !Dangles(s, a)
    requires 0 <= i < |Apply(s, a).batch| && Apply(s, a).at <= i
    ensures !Is(Apply(s, a), Apply(s, a).batch[i], Gone)
  {
    var e := Apply(s, a).batch[i];
    if a.Fetch? {
      assert EventOk(s, e);
    } else {
      AheadStays(s, a, i);
      FreedBy(s, a, e);
    }
  }

  lemma StepSafe(s: State, a: Action)
    requires Inv(s) && Safe(s) && Enabled(s, a)
    ensures Safe(Apply(s, a)) <==> !Dangles(s, a)
  {
    StepLists(s, a);
    var t := Apply(s, a);
    if Dangles(s, a) {
      var i :| 0 <= i < |Ahead(s)| && Ahead(s)[i] == a.e;
      assert t.batch[t.at + i] == a.e;
    } else {
      forall i | 0 <= i < |t.batch| && t.at <= i ensures !Is(t, t.batch[i], Gone) { AheadKept(s, a, i); }
      assert Within(t.batch, |t.events|);
    }
  }

  // No state of the run leaves a freed event in the batch if and only if no deletion on the
  // dispatcher thread frees one: a deletion from any other thread is always safe.
  lemma RunSafe(ss: seq<State>, acts: seq<Action>)
    requires Run(ss, acts)
    ensures (forall i :: 0 <= i <= |acts| ==> Safe(ss[i])) <==>
            (forall i :: 0 <= i < |acts| ==> !Dangles(ss[i], acts[i]))
  {
    forall i | 0 <= i <= |acts| ensures Inv(ss[i]) { RunInv(ss, acts, i); }
    if forall i :: 0 <= i < |acts| ==> !Dangles(ss[i], acts[i]) {
      forall i | 0 <= i <= |acts| ensures Safe(ss[i]) { SafeAt(ss, acts, i); }
    } else {
      var i :| 0 <= i < |acts| && Dangles(ss[i], acts[i]);
      assert Step(ss[i], acts[i], ss[i + 1]);
      if Safe(ss[i]) {
        StepSafe(ss[i], acts[i]);
      }
    }
  }

  lemma {:induction false} SafeAt(ss: seq<State>, acts: seq<Action>, i: int)
    requires Run(ss, acts) && 0 <= i <= |acts|
    requires forall j :: 0 <= j <= |acts| ==> Inv(ss[j])
    requires forall j :: 0 <= j < |acts| ==> !Dangles(ss[j], acts[j])
    ensures Safe(ss[i])
    decreases i
  {
    if i > 0 {
      SafeAt(ss, acts, i - 1);
      assert Step(ss[i - 1], acts[i - 1], ss[i]) && Inv(ss[i - 1]);
      StepSafe(ss[i - 1], acts[i - 1]);
    }
  }

  // A deletion the dispatcher has begun is of an event behind the batch.
  ghost predicate Behind(s: State)
  { forall e :: 0 <= e < |s.events| && s.events[e].ours && s.events[e].phase != Gone ==> e !in Ahead(s) }

  // The caller's promise, checked when the deletion begins
  ghost predicate Careful(s: State, a: Action)
  { a.Unlink? && a.ours ==> a.e !in Ahead(s) }

  lemma BehindKept(s: State, a: Action, e: int)
    requires Inv(s) && Behind(s) && Enabled(s, a) && Careful(s, a) && 0 <= e < |Apply(s, a).events|
    requires Apply(s, a).events[e].ours && Apply(s, a).events[e].phase != Gone
    ensures e !in Ahead(Apply(s, a))
  {
    var t := Apply(s, a);
    assert EventOk(s, e);
    assert s.running && !a.Fetch?;
    assert forall i :: 0 <= i < |Ahead(t)| ==> Ahead(t)[i] in Ahead(s);
  }

  lemma StepBehind(s: State, a: Action)
    requires Inv(s) && Behind(s) && Enabled(s, a) && Careful(s, a)
    ensures Behind(Apply(s, a)) && !Dangles(s, a)
  {
    var t := Apply(s, a);
    forall e | 0 <= e < |t.events| && t.events[e].ours && t.events[e].phase != Gone ensures e !in Ahead(t) {
      BehindKept(s, a, e);
    }
  }

  lemma {:induction false} CarefulRun(ss: seq<State>, acts: seq<Action>, i: int)
    requires Run(ss, acts) && 0 <= i <= |acts|
    requires forall j :: 0 <= j < |acts| ==> Careful(ss[j], acts[j])
    ensures Safe(ss[i]) && Behind(ss[i])
    decreases i
  {
    RunInv(ss, acts, i);
    if i > 0 {
      CarefulRun(ss, acts, i - 1);
      RunInv(ss, acts, i - 1);
      assert Step(ss[i - 1], acts[i - 1], ss[i]);
      StepBehind(ss[i - 1], acts[i - 1]);
      StepSafe(ss[i - 1], acts[i - 1]);
    }
  }

  // Once the dispatcher has begun to delete an event that is ahead, its batch stays where it is
  // until the free, so the run becomes unsafe before the callback can return.
  lemma {:induction false} Doomed(ss: seq<State>, acts: seq<Action>, e: int, i: int) returns (k: int)
    requires Run(ss, acts) && 0 <= i <= |acts| && Unhurried(ss[|acts|].events)
    requires 0 <= e < |ss[i].events| && ss[i].events[e].ours && ss[i].events[e].phase != Gone && e in Ahead(ss[i])
    ensures i < k <= |acts| && !Safe(ss[k])
    decreases |acts| - i
  {
    RunInv(ss, acts, i);
    assert EventOk(ss[i], e);
    if i < |acts| {
      assert Step(ss[i], acts[i], ss[i + 1]);
      RunInv(ss, acts, i + 1);
      HeldStill(ss[i], acts[i], e);
      if ss[i + 1].events[e].phase == Gone {
        k := i + 1;
        FreedAhead(ss[k], e);
      } else {
        k := Doomed(ss, acts, e, i + 1);
      }
    }
  }

  lemma FreedAhead(s: State, e: int)
    requires e in Ahead(s) && Is(s, e, Gone)
    ensures !Safe(s)
  {
    var j :| 0 <= j < |Ahead(s)| && Ahead(s)[j] == e;
    assert s.batch[s.at + j] == e;
  }

  lemma HeldStill(s: State, a: Action, e: int)
    requires Inv(s) && Enabled(s, a)
    requires 0 <= e < |s.events| && s.events[e].ours && s.events[e].phase != Gone
    ensures Apply(s, a).batch == s.batch && Apply(s, a).at == s.at
    ensures e < |Apply(s, a).events| && Apply(s, a).events[e].ours
  {
    assert EventOk(s, e);
  }

  // For a run that ends with no deletion by the dispatcher under way, the caller's promise is
  // not only enough but needed.
  lemma CarefulExactly(ss: seq<State>, acts: seq<Action>)
    requires Run(ss, acts) && Unhurried(ss[|acts|].events)
    ensures (forall i :: 0 <= i <= |acts| ==> Safe(ss[i])) <==>
            (forall j :: 0 <= j < |acts| ==> Careful(ss[j], acts[j]))
  {
    if forall j :: 0 <= j < |acts| ==> Careful(ss[j], acts[j]) {
      forall i | 0 <= i <= |acts| ensures Safe(ss[i]) { CarefulRun(ss, acts, i); }
    } else {
      var j :| 0 <= j < |acts| && !Careful(ss[j], acts[j]);
      assert Step(ss[j], acts[j], ss[j + 1]);
      var k := Doomed(ss, acts, acts[j].e, j + 1);
      assert !Safe(ss[k]);
    }
  }

  // ---- exactly once ----------------------------------------------------------------------------

  lemma StepKeeps(s: State, a: Action, e: int)
    requires Inv(s) && Enabled(s, a) && 0 <= e < |s.events|
    ensures s.events[e].phase == Gone ==> Is(Apply(s, a), e, Gone)
    ensures s.events[e].phase == Queued ==> Is(Apply(s, a), e, if a == Drain then Gone else Queued)
  {
    assert EventOk(s, e);
  }

  lemma {:induction false} StaysGone(ss: seq<State>, acts: seq<Action>, e: int, i: int, j: int)
    requires Run(ss, acts) && 0 <= i <= j <= |acts| && Is(ss[i], e, Gone)
    ensures Is(ss[j], e, Gone)
    decreases j
  {
    if i < j {
      StaysGone(ss, acts, e, i, j - 1);
      RunInv(ss, acts, j - 1);
      assert Step(ss[j - 1], acts[j - 1], ss[j]);
      StepKeeps(ss[j - 1], acts[j - 1], e);
    }
  }

  lemma {:induction false} StaysQueued(ss: seq<State>, acts: seq<Action>, e: int, i: int, j: int)
    requires Run(ss, acts) && 0 <= i <= j <= |acts| && Is(ss[i], e, Queued)
    ensures Is(ss[j], e, Queued) || Is(ss[j], e, Gone)
    decreases j
  {
    if i < j {
      StaysQueued(ss, acts, e, i, j - 1);
      RunInv(ss, acts, j - 1);
      assert Step(ss[j - 1], acts[j - 1], ss[j]);
      StepKeeps(ss[j - 1], acts[j - 1], e);
    }
  }

  // Deleted off the dispatcher thread, an event is gone after the next drain; deleted on it,
  // at once.  In both cases it has been torn down and freed exactly once, ever after.
  ghost predicate Deleted(acts: seq<Action>, e: int, k: int)
  {
    exists i, j :: 0 <= i <= j < k <= |acts| &&
      (acts[i] == FreeNow(e) || (acts[i] == Enqueue(e) && acts[j] == Drain))
  }

  lemma DeletedOnce(ss: seq<State>, acts: seq<Action>, e: int, k: int)
    requires Run(ss, acts) && 0 <= k <= |acts| && Deleted(acts, e, k)
    ensures Is(ss[k], e, Gone) && ss[k].events[e].torn == ss[k].events[e].freed == 1
  {
    var i, j :| 0 <= i <= j < k <= |acts| && (acts[i] == FreeNow(e) || (acts[i] == Enqueue(e) && acts[j] == Drain));
    assert Step(ss[i], acts[i], ss[i + 1]) && Step(ss[j], acts[j], ss[j + 1]);
    if acts[i] == FreeNow(e) {
      StaysGone(ss, acts, e, i + 1, k);
    } else {
      StaysQueued(ss, acts, e, i + 1, j);
      RunInv(ss, acts, j);
      StepKeeps(ss[j], acts[j], e);
      StaysGone(ss, acts, e, j + 1, k);
    }
    RunInv(ss, acts, k);
    assert EventOk(ss[k], e);
  }

  lemma {:induction false} QueuedWas(ss: seq<State>, acts: seq<Action>, e: int, k: int) returns (i: int)
    requires Run(ss, acts) && 0 <= k <= |acts| && Is(ss[k], e, Queued)
    ensures 0 <= i < k && acts[i] == Enqueue(e)
    decreases k
  {
    if k > 0 {
      assert Step(ss[k - 1], acts[k - 1], ss[k]);
      if acts[k - 1] == Enqueue(e) {
        i := k - 1;
      } else {
        i := QueuedWas(ss, acts, e, k - 1);
      }
    }
  }

  // The converse: nothing is freed that was not deleted.
  lemma {:induction false} FreedWasDeleted(ss: seq<State>, acts: seq<Action>, e: int, k: int)
    requires Run(ss, acts) && 0 <= k <= |acts| && Is(ss[k], e, Gone)
    ensures Deleted(acts, e, k)
    decreases k
  {
    if k > 0 {
      assert Step(ss[k - 1], acts[k - 1], ss[k]);
      RunInv(ss, acts, k - 1);
      FreedBy(ss[k - 1], acts[k - 1], e);
      if Is(ss[k - 1], e, Gone) {
        FreedWasDeleted(ss, acts, e, k - 1);
      } else if acts[k - 1] == Drain {
        var i := QueuedWas(ss, acts, e, k - 1);
        assert acts[i] == Enqueue(e) && acts[k - 1] == Drain;
      } else {
        assert acts[k - 1] == FreeNow(e);
      }
    }
  }

  // A callback that deletes an event further on in its own batch leaves it there, freed.
  lemma DanglingRun() returns (ss: seq<State>, acts: seq<Action>)
    ensures Run(ss, acts) && !Safe(ss[|acts|])
  {
    var s0 := Init();
    var s1, s2, s3, s4 := TwoAdded(s0);
    var s5, s6 := FetchedTwo(s4);
    var s7, s8, s9, s10 := DeletedAhead(s6);
    ss, acts := [s0], [];
    ss, acts := FourMore(ss, acts, AddPoll(3, Read), s1, AddPoll(4, Read), s2, AddList(0), s3, AddList(1), s4);
    ss, acts := FourMore(ss, acts, Fetch([0, 1]), s5, Start, s6, Unlink(1, true), s7, Clear(1, false), s8);
    ss, acts := OneMore(ss, acts, Detach(1), s9);
    ss, acts := OneMore(ss, acts, FreeNow(1), s10);
  }

  lemma OneMore(ss: seq<State>, acts: seq<Action>, a: Action, t: State) returns (ss': seq<State>, acts': seq<Action>)
    requires Run(ss, acts) && Step(ss[|acts|], a, t)
    ensures Run(ss', acts') && ss'[|acts'|] == t && ss' == ss + [t] && acts' == acts + [a]
  {
    ss', acts' := ss + [t], acts + [a];
    forall i | 0 <= i < |acts'| ensures Step(ss'[i], acts'[i], ss'[i + 1]) {
      assert i < |acts| ==> Step(ss[i], acts[i], ss[i + 1]);
    }
  }

  lemma FourMore(ss: seq<State>, acts: seq<Action>,
                 a: Action, t1: State, b: Action, t2: State, c: Action, t3: State, d: Action, t4: State)
    returns (ss': seq<State>, acts': seq<Action>)
    requires Run(ss, acts) && Step(ss[|acts|], a, t1) && Step(t1, b, t2) && Step(t2, c, t3) && Step(t3, d, t4)
    ensures Run(ss', acts') && ss'[|acts'|] == t4
    ensures ss' == ss + [t1, t2, t3, t4] && acts' == acts + [a, b, c, d]
  {
    ss', acts' := OneMore(ss, acts, a, t1);
    ss', acts' := OneMore(ss', acts', b, t2);
    ss', acts' := OneMore(ss', acts', c, t3);
    ss', acts' := OneMore(ss', acts', d, t4);
  }

  lemma TwoAdded(s: State) returns (s1: State, s2: State, s3: State, s4: State)
    requires s == Init()
    ensures Step(s, AddPoll(3, Read), s1) && Step(s1, AddPoll(4, Read), s2) && Step(s2, AddList(0), s3) &&
            Step(s3, AddList(1), s4)
    ensures !s4.fetched && !s4.running && s4.at == 0 && s4.batch == [] && |s4.events| == 2 && Is(s4, 0, Live) &&
            Is(s4, 1, Live) && s4.events[0].polled && s4.events[1].polled
  {
    s1 := Apply(s, AddPoll(3, Read));
    s2 := Apply(s1, AddPoll(4, Read));
    s3 := Apply(s2, AddList(0));
    s4 := Apply(s3, AddList(1));
  }

  lemma FetchedTwo(s: State) returns (s1: State, s2: State)
    requires !s.fetched && s.at == 0 && s.batch == [] && |s.events| == 2 && Is(s, 0, Live) && Is(s, 1, Live)
    requires s.events[0].polled && s.events[1].polled && !s.running
    ensures Step(s, Fetch([0, 1]), s1) && Step(s1, Start, s2)
    ensures s2.running && s2.batch == [0, 1] && s2.at == 1 && Is(s2, 1, Live)
  {
    s1 := Apply(s, Fetch([0, 1]));
    s2 := Apply(s1, Start);
  }

  // The dispatcher deletes event 1 while it is the last of the batch, not yet looked at.
  lemma DeletedAhead(s: State) returns (s1: State, s2: State, s3: State, s4: State)
    requires s.running && s.batch == [0, 1] && s.at == 1 && Is(s, 1, Live)
    ensures Step(s, Unlink(1, true), s1) && Step(s1, Clear(1, false), s2) && Step(s2, Detach(1), s3) &&
            Step(s3, FreeNow(1), s4)
    ensures !Safe(s4)
  {
    s1 := Apply(s, Unlink(1, true));
    s2 := Apply(s1, Clear(1, false));
    s3 := Apply(s2, Detach(1));
    s4 := Apply(s3, FreeNow(1));
    assert s4.batch[1] == 1;
  }

  // ---- shutting down ----------------------------------------------------------------------------

  // mevent_destroy closes by kind of event, whatever closefd says.
  predicate Closable(ev: Event)
  { (ev.kind == Read || ev.kind == ReadEt || ev.kind == Write || ev.kind == WriteEt) && ev.fd != 0 }

  function Ended(ev: Event): Event { Freed(ev.(polled := false, closefd := Closable(ev))) }

  function EndedAll(events: seq<Event>, q: seq<int>): (r: seq<Event>)
    ensures |r| == |events|
    ensures forall e :: 0 <= e < |events| ==> r[e] == if e in q then Ended(events[e]) else events[e]
  { seq(|events|, e requires 0 <= e < |events| => if e in q then Ended(events[e]) else events[e]) }

  function Destroyed(s: State): State
  { s.(events := EndedAll(EndedAll(s.events, s.globals), s.dels), globals := [], dels := []) }

  // No mevent_add or deletion is half way.
  ghost predicate Settled(s: State)
  { forall e :: 0 <= e < |s.events| ==>
      s.events[e].phase == Live || s.events[e].phase == Queued || s.events[e].phase == Gone }

  // At the end every event ever added has been torn down and freed exactly once, and has not
  // closed its descriptor twice.
  lemma DestroyReclaims(ss: seq<State>, acts: seq<Action>, e: int)
    requires Run(ss, acts) && Settled(ss[|acts|]) && 0 <= e < |ss[|acts|].events|
    ensures var ev := Destroyed(ss[|acts|]).events[e];
            ev.torn == ev.freed == 1 && 0 <= ev.closed <= 1 && !ev.polled
  {
    RunInv(ss, acts, |acts|);
    assert EventOk(ss[|acts|], e);
  }

  // How often a descriptor is closed on behalf of its events
  function Closes(events: seq<Event>, fd: int): int
  {
    if events == [] then 0
    else
      var n := |events| - 1;
      Closes(events[..n], fd) + if events[n].fd == fd then events[n].closed else 0
  }

  // e has closed its descriptor fd, or mevent_destroy will.
  predicate ClosesInTheEnd(s: State, e: int, fd: int)
  {
    && 0 <= e < |s.events| && s.events[e].fd == fd
    && (s.events[e].closed > 0 || ((e in s.globals || e in s.dels) && Closable(s.events[e])))
  }

  ghost predicate CountsOnce(events: seq<Event>) { forall e :: 0 <= e < |events| ==> 0 <= events[e].closed <= 1 }

  ghost predicate Closer(events: seq<Event>, e: int, fd: int)
  { 0 <= e < |events| && events[e].fd == fd && events[e].closed == 1 }

  lemma {:induction false} NoCloser(events: seq<Event>, fd: int)
    requires CountsOnce(events)
    ensures 0 <= Closes(events, fd) && (Closes(events, fd) == 0 <==> forall e :: !Closer(events, e, fd))
  {
    if events != [] {
      var n := |events| - 1;
      NoCloser(events[..n], fd);
      assert forall e :: 0 <= e < n ==> (Closer(events, e, fd) <==> Closer(events[..n], e, fd));
      if Closes(events, fd) != 0 && !Closer(events, n, fd) {
        var e :| Closer(events[..n], e, fd);
        assert Closer(events, e, fd);
      }
      if forall e :: !Closer(events, e, fd) {
        assert !Closer(events, n, fd);
        forall e ensures !Closer(events[..n], e, fd) { assert !Closer(events, e, fd); }
      }
    }
  }

  lemma {:induction false} OneCloser(events: seq<Event>, fd: int)
    requires CountsOnce(events)
    ensures Closes(events, fd) <= 1 <==> forall e, f :: Closer(events, e, fd) && Closer(events, f, fd) ==> e == f
  {
    if events != [] {
      var n := |events| - 1;
      var rest := events[..n];
      OneCloser(rest, fd);
      NoCloser(rest, fd);
      assert forall e :: 0 <= e < n ==> (Closer(events, e, fd) <==> Closer(rest, e, fd));
      if Closer(events, n, fd) {
        assert Closes(events, fd) <= 1 <==> forall e :: !Closer(rest, e, fd);
        if e :| Closer(rest, e, fd) {
          assert Closer(events, e, fd) && e != n;
        }
      } else {
        assert forall e :: Closer(events, e, fd) <==> Closer(rest, e, fd);
      }
    }
  }

  lemma ClosedInTheEnd(s: State, e: int, fd: int)
    requires Inv(s)
    ensures Closer(Destroyed(s).events, e, fd) <==> ClosesInTheEnd(s, e, fd)
    ensures 0 <= e < |s.events| ==> 0 <= Destroyed(s).events[e].closed <= 1
  {
    assert 0 <= e < |s.events| ==> EventOk(s, e);
  }

  ghost predicate ClosedOnce(s: State, fd: int) { Closes(Destroyed(s).events, fd) <= 1 }

  ghost predicate OneOwner(s: State, fd: int)
  { forall e, f :: ClosesInTheEnd(s, e, fd) && ClosesInTheEnd(s, f, fd) ==> e == f }

  // A descriptor is closed at most once if and only if no two events that have closed it, or
  // are closable and still listed or queued, have it.  (A number the kernel has given out
  // again counts as the same; closing in a teardown is not counted.)
  lemma DescriptorOnce(ss: seq<State>, acts: seq<Action>, fd: int)
    requires Run(ss, acts)
    ensures ClosedOnce(ss[|acts|], fd) <==> OneOwner(ss[|acts|], fd)
  {
    var s := ss[|acts|];
    var after := Destroyed(s).events;
    RunInv(ss, acts, |acts|);
    forall e ensures Closer(after, e, fd) <==> ClosesInTheEnd(s, e, fd) { ClosedInTheEnd(s, e, fd); }
    forall e | 0 <= e < |after| ensures 0 <= after[e].closed <= 1 { ClosedInTheEnd(s, e, fd); }
    OneCloser(after, fd);
  }

  // An event that is disabled leaves its descriptor free for another one; both close it.
  lemma SharedDescriptorRun() returns (ss: seq<State>, acts: seq<Action>)
    ensures Run(ss, acts) && Settled(ss[|acts|]) && Closes(Destroyed(ss[|acts|]).events, 3) == 2 &&
            !ClosedOnce(ss[|acts|], 3)
  {
    var s0 := Init();
    var s1, s2, s3 := AddedDisabled(s0);
    var s4, s5 := AddedAgain(s3);
    ss, acts := [s0], [];
    ss, acts := FourMore(ss, acts, AddPoll(3, Read), s1, AddList(0), s2, Disable(0), s3, AddPoll(3, Write), s4);
    ss, acts := OneMore(ss, acts, AddList(1), s5);
    var after := Destroyed(s5).events;
    assert after[..1] == [after[0]] && after[..1][..0] == [];
    assert Closes(after[..1], 3) == 1;
  }

  lemma AddedDisabled(s: State) returns (s1: State, s2: State, s3: State)
    requires s == Init()
    ensures Step(s, AddPoll(3, Read), s1) && Step(s1, AddList(0), s2) && Step(s2, Disable(0), s3)
    ensures s3.events == [Event(3, Read, Live, false, false, false, 0, 0, 0)] && s3.globals == [0] && s3.dels == []
    ensures s3.at == 0 && s3.batch == []
  {
    s1 := Apply(s, AddPoll(3, Read));
    s2 := Apply(s1, AddList(0));
    s3 := Apply(s2, Disable(0));
  }

  lemma AddedAgain(s: State) returns (s1: State, s2: State)
    requires s.events == [Event(3, Read, Live, false, false, false, 0, 0, 0)] && s.globals == [0] && s.dels == []
    requires s.at == 0 && s.batch == []
    ensures Step(s, AddPoll(3, Write), s1) && Step(s1, AddList(1), s2)
    ensures s2.events == s.events + [Event(3, Write, Live, false, true, false, 0, 0, 0)]
    ensures s2.globals == [1, 0] && s2.dels == []
  {
    s1 := Apply(s, AddPoll(3, Write));
    s2 := Apply(s1, AddList(1));
  }
}
