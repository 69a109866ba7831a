// The list operations of devicemodel/core/mevent.c, each proved to take exactly the steps
// of the life cycle in Mevent.
module EventLoop {
  import opened Mevent
  import opened MeventHistory
  import opened Sequences

  predicate Matches(events: seq<Event>, e: int, fd: int, kind: EventType)
  { 0 <= e < |events| && events[e].fd == fd && events[e].kind == kind }

  // The four steps of one deletion
  ghost predicate Deletion(s: State, e: int, closefd: bool, ours: bool, t: State)
  {
    exists s1, s2, s3 ::
      && Step(s, Unlink(e, ours), s1) && Step(s1, Clear(e, closefd), s2) && Step(s2, Detach(e), s3)
      && Step(s3, if ours then FreeNow(e) else Enqueue(e), t)
  }

  // What happens while the dispatcher handles a batch: a step of another thread, or a whole
  // deletion by the callback that runs
  datatype Happening = Other(a: Action) | Own(e: int, closefd: bool)

  // A step another thread can take now
  predicate ByOthers(s: State, a: Action)
  {
    && Enabled(s, a)
    && match a
       case AddPoll(_, _) => true
       case AddList(_) => true
       case Enable(_) => true
       case Disable(_) => true
       case Unlink(_, ours) => !ours
       case Clear(e, _) => !s.events[e].ours
       case Detach(e) => !s.events[e].ours
       case Enqueue(_) => true
       case _ => false
  }

  lemma OthersLeave(s: State, a: Action)
    requires Inv(s) && Unhurried(s.events) && ByOthers(s, a)
    ensures var t := Apply(s, a);
      Unhurried(t.events) && t.batch == s.batch && t.at == s.at && t.fetched == s.fetched && t.running == s.running
  {
  }

  lemma DeletionLeaves(s: State, e: int, closefd: bool, t: State)
    requires Inv(s) && Unhurried(s.events) && Deletion(s, e, closefd, true, t)
    ensures Unhurried(t.events) && t.batch == s.batch && t.at == s.at
    ensures t.fetched == s.fetched && t.running == s.running
  {
    var s1, s2, s3 :|
      && Step(s, Unlink(e, true), s1) && Step(s1, Clear(e, closefd), s2) && Step(s2, Detach(e), s3)
      && Step(s3, FreeNow(e), t);
  }

  lemma DeletionRun(ss: seq<State>, acts: seq<Action>, e: int, closefd: bool, t: State)
    returns (ss': seq<State>, acts': seq<Action>)
    requires Run(ss, acts) && Deletion(ss[|acts|], e, closefd, true, t)
    ensures Run(ss', acts') && ss'[|acts'|] == t && acts <= acts' && ss <= ss'
  {
    var s1, s2, s3 :|
      && Step(ss[|acts|], Unlink(e, true), s1) && Step(s1, Clear(e, closefd), s2) && Step(s2, Detach(e), s3)
      && Step(s3, FreeNow(e), t);
    ss', acts' := FourMore(ss, acts, Unlink(e, true), s1, Clear(e, closefd), s2, Detach(e), s3, FreeNow(e), t);
  }

  // The history up to here, and the state it leads to
  ghost predicate LeadsTo(ss: seq<State>, acts: seq<Action>, s: State) { Run(ss, acts) && ss[|acts|] == s }

  // Looking at the k-th event of the batch is step i of the run; ran tells whether that
  // started its callback, and the history before it whether it should.
  ghost predicate Looked(ss: seq<State>, acts: seq<Action>, batch: seq<int>, k: int, i: int, ran: bool)
  {
    && 0 <= i < |acts| < |ss| && acts[i] == Start && ss[i].batch == batch && ss[i].at == k && 0 <= k < |batch|
    && (ran <==> !ClearedBefore(acts, batch[k], i))
  }

  lemma LookedStays(ss: seq<State>, acts: seq<Action>, ss': seq<State>, acts': seq<Action>,
                    batch: seq<int>, k: int, i: int, ran: bool)
    requires Looked(ss, acts, batch, k, i, ran) && ss <= ss' && acts <= acts' && |acts'| < |ss'|
    ensures Looked(ss', acts', batch, k, i, ran)
  {
    PrefixCleared(acts, batch[k], i);
    PrefixCleared(acts', batch[k], i);
    assert acts[..i] == acts'[..i];
  }

  // The events of the batch looked at so far, in this order and after the first n steps
  ghost predicate AllLooked(ss: seq<State>, acts: seq<Action>, batch: seq<int>,
                            starts: seq<int>, ran: seq<bool>, n: int)
  {
    && |starts| == |ran| <= |batch|
    && (forall k :: 0 <= k < |ran| ==> Looked(ss, acts, batch, k, starts[k], ran[k]) && n <= starts[k])
    && (forall k, l :: 0 <= k < l < |ran| ==> starts[k] < starts[l])
  }

  lemma OneMoreLooked(ss: seq<State>, acts: seq<Action>, ss': seq<State>, acts': seq<Action>,
                      batch: seq<int>, starts: seq<int>, ran: seq<bool>, n: int, i: int, r: bool)
    requires AllLooked(ss, acts, batch, starts, ran, n) && ss <= ss' && acts <= acts' && |acts'| < |ss'|
    requires |ran| < |batch| && n <= |acts| <= i && Looked(ss', acts', batch, |ran|, i, r)
    ensures AllLooked(ss', acts', batch, starts + [i], ran + [r], n)
  {
    forall k | 0 <= k < |ran| ensures Looked(ss', acts', batch, k, starts[k], ran[k]) {
      LookedStays(ss, acts, ss', acts', batch, k, starts[k], ran[k]);
    }
  }

  class Loop {
    var events: seq<Event>
    var globals: seq<int>
    var dels: seq<int>
    var batch: seq<int>
    var at: int
    var fetched: bool
    var running: bool

    function S(): State reads this { State(events, globals, dels, batch, at, fetched, running) }

    constructor ()
      ensures S() == Init()
    {
      events, globals, dels, batch, at, fetched, running := [], [], [], [], 0, false, false;
    }

    // The walk of mevent_add over global_head: the first event with this descriptor and kind
    method Lookup(fd: int, kind: EventType) returns (i: int)
      ensures 0 <= i <= |globals|
      ensures i < |globals| ==> Matches(events, globals[i], fd, kind)
      ensures forall j :: 0 <= j < i ==> !Matches(events, globals[j], fd, kind)
    {
      i := 0;
      while i < |globals|
        invariant 0 <= i <= |globals|
        invariant forall j :: 0 <= j < i ==> !Matches(events, globals[j], fd, kind)
      {
        if Matches(events, globals[i], fd, kind) {
          return;
        }
        i := i + 1;
      }
    }

    // mevent_add by a thread that is not interrupted; able tells whether the kernel has
    // room for one more registration.  -1 stands for NULL.
    method Add(fd: int, kind: EventType, able: bool) returns (r: int)
      requires Inv(S())
      modifies this
      ensures Inv(S())
      ensures (fd < 0 || kind == Timer) ==> r == -1
      ensures r == -1 || Matches(events, r, fd, kind)
      // no second event for a descriptor and kind already on the list
      ensures fd >= 0 && kind != Timer && (exists e :: Is(old(S()), e, Live) && Matches(old(events), e, fd, kind)) ==>
                r in old(globals) && S() == old(S())
      // and one if there is none, unless epoll refuses
      ensures fd >= 0 && kind != Timer && !(exists e :: Is(old(S()), e, Live) && Matches(old(events), e, fd, kind)) ==>
                r == if able && !Registered(old(events), fd) then |old(events)| else -1
      ensures if 0 <= r < |old(events)| then S() == old(S()) && Is(S(), r, Live)
              else if r == -1 then S() == old(S())
              else r == |old(events)| && Enabled(old(S()), AddPoll(fd, kind)) &&
                   var s := Apply(old(S()), AddPoll(fd, kind)); Enabled(s, AddList(r)) && S() == Apply(s, AddList(r))
    {
      if fd < 0 || kind == Timer {
        return -1;
      }
      var i := Lookup(fd, kind);
      ghost var s := S();
      if i < |globals| {
        assert EventOk(s, globals[i]);
        return globals[i];
      }
      forall e | Is(s, e, Live) ensures !Matches(events, e, fd, kind) {
        assert EventOk(s, e);
        assert e in globals;
      }
      if Registered(events, fd) || !able {
        return -1;
      }
      StepInv(s, AddPoll(fd, kind));
      events := events + [Event(fd, kind, Adding, false, true, false, 0, 0, 0)];
      r := |events| - 1;
      StepInv(S(), AddList(r));
      events := events[r := events[r].(phase := Live)];
      globals := [r] + globals;
    }

    // mevent_delete_event by a thread that is not interrupted
    method DeleteEvent(e: int, closefd: bool, ours: bool)
      requires Inv(S()) && Enabled(S(), Unlink(e, ours))
      modifies this
      ensures Inv(S()) && Deletion(old(S()), e, closefd, ours, S())
    {
      ghost var s1, s2, s3 := TakeOut(e, closefd, ours);
      ghost var a := if ours then FreeNow(e) else Enqueue(e);
      StepInv(s3, a);
      if !ours {
        events := events[e := events[e].(phase := Queued)];
        dels := [e] + dels;
      } else {
        events := events[e := Freed(events[e])];
      }
      assert Step(s3, a, S());
    }

    // Its first three steps: off the list, me_state cleared, out of epoll
    method TakeOut(e: int, closefd: bool, ours: bool) returns (ghost s1: State, ghost s2: State, ghost s3: State)
      requires Inv(S()) && Enabled(S(), Unlink(e, ours))
      modifies this`events, this`globals
      ensures Inv(S()) && s3 == S()
      ensures Step(old(S()), Unlink(e, ours), s1) && Step(s1, Clear(e, closefd), s2) && Step(s2, Detach(e), s3)
    {
      StepInv(S(), Unlink(e, ours));
      globals := Without(globals, e);
      events := events[e := events[e].(phase := Unlinked, ours := ours)];
      s1 := S();
      StepInv(s1, Clear(e, closefd));
      events := events[e := events[e].(phase := Cleared, closefd := closefd)];
      s2 := S();
      StepInv(s2, Detach(e));
      events := Unpolled(events, events[e].fd)[e := events[e].(phase := Detached, polled := false)];
      s3 := S();
    }

    // Whatever others do, and the running callback itself; what cannot happen now is left out
    method Interfere(script: seq<Happening>, ghost ss: seq<State>, ghost acts: seq<Action>)
      returns (ghost ss': seq<State>, ghost acts': seq<Action>)
      requires LeadsTo(ss, acts, S()) && Unhurried(events)
      modifies this
      ensures LeadsTo(ss', acts', S()) && ss <= ss' && acts <= acts' && Unhurried(events)
      ensures batch == old(batch) && at == old(at) && fetched == old(fetched) && running == old(running)
      ensures script == [] ==> S() == old(S())
    {
      ss', acts' := ss, acts;
      for i := 0 to |script|
        invariant LeadsTo(ss', acts', S()) && ss <= ss' && acts <= acts' && Unhurried(events)
        invariant batch == old(batch) && at == old(at) && fetched == old(fetched) && running == old(running)
        invariant i == 0 ==> S() == old(S())
      {
        ss', acts' := Happen(script[i], ss', acts');
      }
    }

    method Happen(h: Happening, ghost ss: seq<State>, ghost acts: seq<Action>)
      returns (ghost ss': seq<State>, ghost acts': seq<Action>)
      requires LeadsTo(ss, acts, S()) && Unhurried(events)
      modifies this
      ensures LeadsTo(ss', acts', S()) && ss <= ss' && acts <= acts' && Unhurried(events)
      ensures batch == old(batch) && at == old(at) && fetched == old(fetched) && running == old(running)
    {
      ss', acts' := ss, acts;
      RunInv(ss, acts, |acts|);
      ghost var s := S();
      match h
      case Other(a) =>
        if ByOthers(S(), a) {
          OthersLeave(s, a);
          var t := Apply(S(), a);
          ss', acts' := OneMore(ss, acts, a, t);
          events, globals, dels := t.events, t.globals, t.dels;
        }
      case Own(e, closefd) =>
        if running && Is(S(), e, Live) && 0 <= at <= |batch| {
          DeleteEvent(e, closefd, true);
          DeletionLeaves(s, e, closefd, S());
          ss', acts' := DeletionRun(ss, acts, e, closefd, S());
        }
    }

    // One turn of the loop of mevent_handle
    method Look(during: seq<Happening>, ghost ss: seq<State>, ghost acts: seq<Action>)
      returns (ran: bool, ghost ss': seq<State>, ghost acts': seq<Action>)
      requires LeadsTo(ss, acts, S()) && Unhurried(events) && fetched && !running && 0 <= at < |batch|
      modifies this
      ensures LeadsTo(ss', acts', S()) && ss <= ss' && acts <= acts' && Unhurried(events)
      ensures batch == old(batch) && at == old(at) + 1 && fetched && !running
      ensures Looked(ss', acts', batch, old(at), |acts|, ran)
      ensures ran == MeState(old(events), batch[old(at)]) && (during == [] ==> events == old(events))
    {
      RunInv(ss, acts, |acts|);
      ghost var s := S();
      running := MeState(events, batch[at]);
      at := at + 1;
      ran := running;
      ss', acts' := OneMore(ss, acts, Start, S());
      CallbackRuns(ss', acts', |acts|);
      ghost var ss1, acts1 := ss', acts';
      if running {
        ss', acts' := Interfere(during, ss', acts');
        ghost var t := S();
        running := false;
        ss', acts' := OneMore(ss', acts', Return, S());
      }
      LookedStays(ss1, acts1, ss', acts', batch, old(at), |acts|, ran);
    }

    // mevent_handle, with anything happening before it looks at the next event and during the
    // callback: it calls the events of the batch in order, each if and only if nobody has
    // cleared its state by then.
    method Handle(before: seq<seq<Happening>>, during: seq<seq<Happening>>,
                  ghost ss: seq<State>, ghost acts: seq<Action>)
      returns (ran: seq<bool>, ghost starts: seq<int>, ghost ss': seq<State>, ghost acts': seq<Action>)
      requires LeadsTo(ss, acts, S()) && Unhurried(events) && fetched && !running && at == 0
      requires |before| == |during| == |batch|
      modifies this
      ensures LeadsTo(ss', acts', S()) && ss <= ss' && acts <= acts'
      ensures batch == old(batch) && at == |batch| && fetched && !running && |ran| == |batch|
      ensures AllLooked(ss', acts', batch, starts, ran, |acts|)
      // undisturbed, the events that are called are those not being deleted
      ensures (forall k :: 0 <= k < |batch| ==> before[k] == [] && during[k] == []) ==>
                events == old(events) && forall k :: 0 <= k < |batch| ==> ran[k] == MeState(events, batch[k])
    {
      ran, starts := [], [];
      ss', acts' := ss, acts;
      while at < |batch|
        invariant LeadsTo(ss', acts', S()) && ss <= ss' && acts <= acts' && Unhurried(events)
        invariant batch == old(batch) && 0 <= at <= |batch| && fetched && !running && |ran| == at
        invariant AllLooked(ss', acts', batch, starts, ran, |acts|)
        invariant (forall k :: 0 <= k < |batch| ==> before[k] == [] && during[k] == []) ==>
                    events == old(events) && forall k :: 0 <= k < at ==> ran[k] == MeState(events, batch[k])
      {
        ghost var ss0, acts0 := ss', acts';
        ss', acts' := Interfere(before[at], ss', acts');
        ghost var i := |acts'|;
        var r;
        r, ss', acts' := Look(during[at], ss', acts');
        OneMoreLooked(ss0, acts0, ss', acts', batch, starts, ran, |acts|, i, r);
        ran, starts := ran + [r], starts + [i];
      }
    }

    method DrainDelList()
      requires Inv(S()) && Enabled(S(), Drain)
      modifies this`events, this`dels, this`fetched
      ensures S() == Apply(old(S()), Drain) && Inv(S())
    {
      ghost var k, q, evs := 0, dels, events;
      StepInv(S(), Drain);
      while dels != []
        invariant 0 <= k <= |q| && dels == q[k..]
        invariant |events| == |evs|
        invariant forall e :: 0 <= e < |evs| ==> events[e] == if e in q[..k] then Freed(evs[e]) else evs[e]
        decreases |dels|
      {
        var e := dels[0];
        assert e == q[k] && e !in q[..k];
        assert q[..k + 1] == q[..k] + [e];
        dels := dels[1..];
        events := events[e := Freed(events[e])];
        k := k + 1;
      }
      assert q[..k] == q;
      assert events == Drained(evs, q);
      fetched := false;
    }

    // mevent_destroy
    method Destroy()
      requires Inv(S())
      modifies this`events, this`dels, this`globals
      ensures S() == Destroyed(old(S()))
    {
      events := EndList(globals, events);
      globals := [];
      events := EndList(dels, events);
      dels := [];
    }

    // One of its two walks over a list
    static method EndList(list: seq<int>, before: seq<Event>) returns (events: seq<Event>)
      requires NoDup(list) && Within(list, |before|)
      ensures events == EndedAll(before, list)
    {
      events := before;
      ghost var k := 0;
      var q := list;
      while q != []
        invariant 0 <= k <= |list| && q == list[k..]
        invariant |events| == |before|
        invariant forall e :: 0 <= e < |before| ==> events[e] == if e in list[..k] then Ended(before[e]) else before[e]
        decreases |q|
      {
        var e := q[0];
        assert e == list[k] && e !in list[..k];
        assert list[..k + 1] == list[..k] + [e];
        q := q[1..];
        events := events[e := Ended(events[e])];
        k := k + 1;
      }
      assert list[..k] == list;
    }
  }
}
