// The request scheduler of devicemodel/hw/block_if.c as a state machine over its
// critical sections.
module BlockIf {
  import opened Options
  import opened Sequences

  const NUMTHR := 8
  const MAXREQ := 64 + NUMTHR
  // 1 << (sizeof(off_t) - 1)
  const FLUSH_END := 128

  datatype BlockOp = Read | Write | Flush | Discard
  datatype Status = Free | Block | Pend | Busy | Done

  datatype Req = Req(id: int, offset: int, lens: seq<nat>)

  // One request element.  ticket numbers the accepted requests.
  datatype Elem = Elem(status: Status, req: Option<Req>, op: BlockOp, tid: int, block: int, ticket: int) {
    function Offset(): int { if req.Some? then req.value.offset else 0 }
    predicate Queued() { status == Block || status == Pend }
    predicate InFlight() { status == Busy || status == Done }
    predicate Outstanding() { status != Free }
  }

  datatype Worker = Ready | Working(elem: int) | Waiting | Exited {
    predicate Awake() { Ready? || Working? }
  }

  // called, done and dropped record the tickets whose callback ran, that a worker
  // completed, and that were cancelled.
  datatype State = State(freeq: seq<int>, pendq: seq<int>, busyq: seq<int>, elems: seq<Elem>,
                         workers: seq<Worker>, closing: bool,
                         next: int, called: multiset<int>, done: multiset<int>, dropped: multiset<int>)

  // ---- the critical sections as functions --------------------------------------------

  function Sum(lens: seq<nat>): int
  { if lens == [] then 0 else Sum(lens[..|lens| - 1]) + lens[|lens| - 1] }

  function EndOf(req: Req, op: BlockOp): int
  { if op == Flush then FLUSH_END else req.offset + Sum(req.lens) }

  predicate WellSized(s: State)
  {
    && |s.elems| == MAXREQ && |s.workers| == NUMTHR
    && (forall i :: 0 <= i < |s.freeq| ==> 0 <= s.freeq[i] < MAXREQ)
    && (forall i :: 0 <= i < |s.pendq| ==> 0 <= s.pendq[i] < MAXREQ)
    && (forall i :: 0 <= i < |s.busyq| ==> 0 <= s.busyq[i] < MAXREQ)
  }

  // Some element of q ends at off.
  predicate EndsAt(q: seq<int>, elems: seq<Elem>, off: int)
    requires forall i :: 0 <= i < |q| ==> 0 <= q[i] < |elems|
  { exists i :: 0 <= i < |q| && elems[q[i]].block == off }

  // blockif_enqueue, free queue not empty
  function Enqueued(s: State, req: Req, op: BlockOp): State
    requires WellSized(s) && s.freeq != []
  {
    var be := s.freeq[0];
    var held := EndsAt(s.pendq, s.elems, req.offset) || EndsAt(s.busyq, s.elems, req.offset);
    var e := Elem(if held then Block else Pend, Some(req), op, s.elems[be].tid, EndOf(req, op), s.next);
    s.(freeq := s.freeq[1..], pendq := s.pendq + [be], elems := s.elems[be := e], next := s.next + 1)
  }

  // The first pending element with the given status test, or |q|.
  function FirstPend(q: seq<int>, elems: seq<Elem>): (k: int)
    requires forall i :: 0 <= i < |q| ==> 0 <= q[i] < |elems|
    ensures 0 <= k <= |q|
    ensures k < |q| ==> elems[q[k]].status == Pend
    ensures forall i :: 0 <= i < k ==> elems[q[i]].status != Pend
  {
    if q == [] then 0 else if elems[q[0]].status == Pend then 0 else 1 + FirstPend(q[1..], elems)
  }

  function Dequeued(s: State, k: int, w: int): State
    requires WellSized(s) && 0 <= k < |s.pendq| && 0 <= w < NUMTHR
  {
    var be := s.pendq[k];
    s.(pendq := s.pendq[..k] + s.pendq[k + 1..], busyq := s.busyq + [be],
       elems := s.elems[be := s.elems[be].(status := Busy, tid := w)],
       workers := s.workers[w := Working(be)])
  }

  function Unblocked(elems: seq<Elem>, pendq: seq<int>, off: int): (r: seq<Elem>)
    ensures |r| == |elems|
    ensures forall i :: 0 <= i < |elems| ==>
              r[i] == if i in pendq && elems[i].Offset() == off then elems[i].(status := Pend) else elems[i]
  {
    seq(|elems|, i requires 0 <= i < |elems| =>
      if i in pendq && elems[i].Offset() == off then elems[i].(status := Pend) else elems[i])
  }

  lemma WithoutSub(q: seq<int>, x: int)
    ensures forall i :: 0 <= i < |Without(q, x)| ==> Without(q, x)[i] in q
  {
    assert forall i :: 0 <= i < |Without(q, x)| ==> Without(q, x)[i] in Without(q, x);
  }

  function Freed(e: Elem): Elem { e.(status := Free, req := None, tid := 0) }

  // blockif_complete
  function Completed(s: State, be: int): State
    requires WellSized(s) && 0 <= be < MAXREQ
  {
    var inflight := s.elems[be].InFlight();
    var pendq := if inflight then s.pendq else Without(s.pendq, be);
    var elems := Unblocked(s.elems, pendq, s.elems[be].block);
    s.(pendq := pendq, busyq := if inflight then Without(s.busyq, be) else s.busyq,
       elems := elems[be := Freed(elems[be])], freeq := s.freeq + [be])
  }

  // ---- steps and runs ---------------------------------------------------------------------

  datatype Action =
    | Request(req: Req, op: BlockOp, wake: int)
    | Try(w: int)
    | Finish(w: int)
    | Complete(w: int)
    | Cancel(id: int)
    | Close
    | Spurious(w: int)

  function Init(): State
  {
    State(seq(MAXREQ, i => MAXREQ - 1 - i), [], [],
          seq(MAXREQ, i => Elem(Free, None, Read, 0, 0, 0)), seq(NUMTHR, i => Ready), false,
          0, multiset{}, multiset{}, multiset{})
  }

  predicate IsWorker(s: State, w: int, k: Worker)
    requires WellSized(s)
  { 0 <= w < NUMTHR && s.workers[w] == k }

  // pthread_cond_signal wakes a waiting worker if there is one.
  predicate Signals(s: State, wake: int)
    requires WellSized(s)
  {
    if wake == -1 then forall w :: 0 <= w < NUMTHR ==> s.workers[w] != Waiting
    else IsWorker(s, wake, Waiting)
  }

  function FirstWith(q: seq<int>, elems: seq<Elem>, id: int): (k: int)
    requires forall i :: 0 <= i < |q| ==> 0 <= q[i] < |elems|
    ensures 0 <= k <= |q|
    ensures k < |q| ==> elems[q[k]].req.Some? && elems[q[k]].req.value.id == id
    ensures forall i :: 0 <= i < k ==> !(elems[q[i]].req.Some? && elems[q[i]].req.value.id == id)
  {
    if q == [] then 0
    else if elems[q[0]].req.Some? && elems[q[0]].req.value.id == id then 0
    else 1 + FirstWith(q[1..], elems, id)
  }

  // pthread_cond_broadcast
  function Broadcast(ws: seq<Worker>): (r: seq<Worker>)
    ensures |r| == |ws| && forall w :: 0 <= w < |ws| ==> r[w] == if ws[w] == Waiting then Ready else ws[w]
  { seq(|ws|, w requires 0 <= w < |ws| => if ws[w] == Waiting then Ready else ws[w]) }

  predicate Enabled(s: State, a: Action)
    requires WellSized(s)
  {
    match a
    case Request(req, op, wake) =>
      s.freeq != [] && Enqueued(s, req, op).elems[s.freeq[0]].status == Pend ==> Signals(s, wake)
    case Try(w) => IsWorker(s, w, Ready)
    case Finish(w) =>
      && 0 <= w < NUMTHR && s.workers[w].Working? && 0 <= s.workers[w].elem < MAXREQ
      && s.elems[s.workers[w].elem].status == Busy
    case Complete(w) =>
      && 0 <= w < NUMTHR && s.workers[w].Working? && 0 <= s.workers[w].elem < MAXREQ
      && s.elems[s.workers[w].elem].status == Done
    case Cancel(_) => true
    case Close => !s.closing
    case Spurious(w) => IsWorker(s, w, Waiting)
  }

  function Apply(s: State, a: Action): State
    requires WellSized(s) && Enabled(s, a)
  {
    match a
    case Request(req, op, wake) =>
      if s.freeq == [] then s
      else
        var t := Enqueued(s, req, op);
        if t.elems[s.freeq[0]].status == Pend && wake != -1 then t.(workers := t.workers[wake := Ready]) else t
    case Try(w) =>
      var k := FirstPend(s.pendq, s.elems);
      if k < |s.pendq| then Dequeued(s, k, w)
      else s.(workers := s.workers[w := if s.closing then Exited else Waiting])
    case Finish(w) =>
      var be := s.workers[w].elem;
      s.(elems := s.elems[be := s.elems[be].(status := Done)], called := s.called + multiset{s.elems[be].ticket})
    case Complete(w) =>
      var be := s.workers[w].elem;
      Completed(s, be).(workers := s.workers[w := Ready], done := s.done + multiset{s.elems[be].ticket})
    case Cancel(id) =>
      var k := FirstWith(s.pendq, s.elems, id);
      if k == |s.pendq| then s
      else Completed(s, s.pendq[k]).(dropped := s.dropped + multiset{s.elems[s.pendq[k]].ticket})
    case Close =>
      s.(closing := true, workers := Broadcast(s.workers))
    case Spurious(w) => s.(workers := s.workers[w := Ready])
  }

  // ---- what every reachable state satisfies ------------------------------------------------

  // The three queues partition the elements, and an element's status says which one it is in.
  ghost predicate Queues(s: State)
    requires WellSized(s)
  {
    && (forall e :: 0 <= e < MAXREQ ==> (e in s.freeq <==> s.elems[e].status == Free))
    && (forall e :: 0 <= e < MAXREQ ==> (e in s.pendq <==> s.elems[e].Queued()))
    && (forall e :: 0 <= e < MAXREQ ==> (e in s.busyq <==> s.elems[e].InFlight()))
    && NoDup(s.freeq) && NoDup(s.pendq) && NoDup(s.busyq)
  }

  // Accepted requests carry different tickets, and the pending queue is in ticket order.
  ghost predicate Tickets(s: State)
    requires WellSized(s)
  {
    && 0 <= s.next
    && (forall e :: 0 <= e < MAXREQ && s.elems[e].Outstanding() ==>
        s.elems[e].req.Some? && 0 <= s.elems[e].ticket < s.next)
    && (forall e, f :: 0 <= e < f < MAXREQ && s.elems[e].Outstanding() && s.elems[f].Outstanding() ==>
        s.elems[e].ticket != s.elems[f].ticket)
    && InOrder(s.pendq, s.elems)
  }

  ghost predicate InOrder(q: seq<int>, elems: seq<Elem>)
    requires forall i :: 0 <= i < |q| ==> 0 <= q[i] < |elems|
  { forall i, j :: 0 <= i < j < |q| ==> elems[q[i]].ticket < elems[q[j]].ticket }

  // e waits behind b: b was accepted earlier, is outstanding, and ends where e starts.
  predicate Behind(s: State, e: int, b: int)
    requires WellSized(s) && 0 <= e < MAXREQ
  {
    && 0 <= b < MAXREQ && s.elems[b].Outstanding() && s.elems[b].ticket < s.elems[e].ticket
    && s.elems[b].block == s.elems[e].Offset()
  }

  ghost predicate Held(s: State)
    requires WellSized(s)
  { forall e :: 0 <= e < MAXREQ && s.elems[e].status == Block ==> exists b :: Behind(s, e, b) }

  // Each element in flight is in the hands of exactly one worker.
  ghost predicate Crew(s: State)
    requires WellSized(s)
  {
    && (forall e :: 0 <= e < MAXREQ && s.elems[e].InFlight() ==> IsWorker(s, s.elems[e].tid, Working(e)))
    && (forall w :: 0 <= w < NUMTHR && s.workers[w].Working? ==>
          var e := s.workers[w].elem; 0 <= e < MAXREQ && s.elems[e].InFlight() && s.elems[e].tid == w)
  }

  ghost predicate SomeAwake(s: State)
  { exists w :: 0 <= w < |s.workers| && s.workers[w].Awake() }

  ghost predicate AllExited(s: State)
  { forall w :: 0 <= w < |s.workers| ==> s.workers[w] == Exited }

  // Somebody will look at the pending requests.
  ghost predicate Served(s: State) { s.pendq != [] ==> SomeAwake(s) }

  // No wakeup is lost before all workers have exited.
  ghost predicate Lively(s: State)
  { Served(s) || AllExited(s) }

  ghost predicate Shutdown(s: State)
    requires WellSized(s)
  {
    && (forall w :: 0 <= w < NUMTHR && s.workers[w] == Exited ==> s.closing)
    && (s.closing ==> forall w :: 0 <= w < NUMTHR ==> s.workers[w] != Waiting)
  }

  ghost predicate Inv(s: State)
  { WellSized(s) && Queues(s) && Tickets(s) && Held(s) && Crew(s) && Lively(s) && Shutdown(s) }

  lemma InitInv()
    ensures Inv(Init())
  {
    var s := Init();
    forall e | 0 <= e < MAXREQ ensures e in s.freeq {
      assert s.freeq[MAXREQ - 1 - e] == e;
    }
  }

  // Everything but the workers' states.
  ghost predicate Sorted(s: State)
  { WellSized(s) && Queues(s) && Tickets(s) && Held(s) }

  // -- request

  lemma EnqueuedQueues(s: State, req: Req, op: BlockOp)
    requires WellSized(s) && Queues(s) && s.freeq != []
    ensures WellSized(Enqueued(s, req, op)) && Queues(Enqueued(s, req, op))
  {
    var t, be := Enqueued(s, req, op), s.freeq[0];
    assert be in s.freeq;
    assert forall e :: e in t.pendq <==> e in s.pendq || e == be;
    assert forall e :: e in s.freeq <==> e in t.freeq || e == be;
    assert be !in t.freeq;
  }

  lemma EnqueuedOrder(s: State, req: Req, op: BlockOp)
    requires WellSized(s) && Queues(s) && Tickets(s) && s.freeq != [] && WellSized(Enqueued(s, req, op))
    ensures InOrder(Enqueued(s, req, op).pendq, Enqueued(s, req, op).elems)
  {
    var t, be := Enqueued(s, req, op), s.freeq[0];
    assert be in s.freeq;
    forall i | 0 <= i < |s.pendq|
      ensures t.elems[t.pendq[i]] == s.elems[s.pendq[i]] && s.elems[s.pendq[i]].ticket < s.next
    {
      assert s.pendq[i] in s.pendq;
    }
  }

  lemma EnqueuedTickets(s: State, req: Req, op: BlockOp)
    requires WellSized(s) && Queues(s) && Tickets(s) && s.freeq != [] && WellSized(Enqueued(s, req, op))
    ensures Tickets(Enqueued(s, req, op))
  {
    assert s.freeq[0] in s.freeq;
    EnqueuedOrder(s, req, op);
  }

  lemma EnqueuedHeld(s: State, req: Req, op: BlockOp)
    requires WellSized(s) && Queues(s) && Tickets(s) && Held(s) && s.freeq != [] && WellSized(Enqueued(s, req, op))
    ensures Held(Enqueued(s, req, op))
  {
    var t, be := Enqueued(s, req, op), s.freeq[0];
    assert be in s.freeq;
    forall e | 0 <= e < MAXREQ && t.elems[e].status == Block ensures exists b :: Behind(t, e, b) {
      if e == be {
        var b := NewBlocker(s, req);
        assert Behind(t, e, b);
      } else {
        var b :| Behind(s, e, b);
        assert Behind(t, e, b);
      }
    }
  }

  // The element that a new request starting at its end has to wait for.
  lemma NewBlocker(s: State, req: Req) returns (b: int)
    requires WellSized(s) && Queues(s)
    requires EndsAt(s.pendq, s.elems, req.offset) || EndsAt(s.busyq, s.elems, req.offset)
    ensures 0 <= b < MAXREQ && s.elems[b].Outstanding() && s.elems[b].block == req.offset
    ensures b in s.pendq || b in s.busyq
  {
    if EndsAt(s.pendq, s.elems, req.offset) {
      var i :| 0 <= i < |s.pendq| && s.elems[s.pendq[i]].block == req.offset;
      b := s.pendq[i];
      assert b in s.pendq;
    } else {
      var i :| 0 <= i < |s.busyq| && s.elems[s.busyq[i]].block == req.offset;
      b := s.busyq[i];
      assert b in s.busyq;
    }
  }

  lemma EnqueuedCrew(s: State, req: Req, op: BlockOp)
    requires WellSized(s) && Queues(s) && Crew(s) && s.freeq != [] && WellSized(Enqueued(s, req, op))
    ensures Crew(Enqueued(s, req, op))
  {
    assert s.freeq[0] in s.freeq;
  }

  lemma CrewAwake(s: State, e: int)
    requires WellSized(s) && Queues(s) && Crew(s) && e in s.busyq
    ensures SomeAwake(s)
  {
    var i :| 0 <= i < |s.busyq| && s.busyq[i] == e;
    assert s.workers[s.elems[e].tid].Awake();
  }

  // A new request finds a worker awake, or wakes one, unless all have exited.
  lemma RequestAwake(s: State, a: Action)
    requires Inv(s) && Enabled(s, a) && a.Request? && s.freeq != []
    ensures AllExited(s) ==> AllExited(Apply(s, a))
    ensures !AllExited(s) ==> SomeAwake(Apply(s, a))
  {
    var t := Apply(s, a);
    var be := s.freeq[0];
    if AllExited(s) {
      assert Enqueued(s, a.req, a.op).elems[be].status == Pend ==> a.wake == -1;
    } else if Enqueued(s, a.req, a.op).elems[be].status == Pend {
      var v :| 0 <= v < |s.workers| && s.workers[v] != Exited;
      var w := if a.wake == -1 then v else a.wake;
      assert t.workers[w].Awake();
    } else {
      var b := NewBlocker(s, a.req);
      if b in s.busyq { CrewAwake(s, b); }
      var w :| 0 <= w < |s.workers| && s.workers[w].Awake();
      assert t.workers[w].Awake();
    }
  }

  lemma RequestInv(s: State, a: Action)
    requires Inv(s) && Enabled(s, a) && a.Request?
    ensures Inv(Apply(s, a))
  {
    if s.freeq != [] {
      EnqueuedQueues(s, a.req, a.op);
      EnqueuedTickets(s, a.req, a.op);
      EnqueuedHeld(s, a.req, a.op);
      EnqueuedCrew(s, a.req, a.op);
      RequestAwake(s, a);
      RewokenInv(Enqueued(s, a.req, a.op), Apply(s, a));
    }
  }

  // Waking waiting workers disturbs nothing else.
  lemma RewokenInv(s: State, t: State)
    requires Sorted(s) && Crew(s) && Shutdown(s)
    requires t == s.(workers := t.workers) && |t.workers| == NUMTHR
    requires forall w :: 0 <= w < NUMTHR ==>
             t.workers[w] == s.workers[w] || (s.workers[w] == Waiting && t.workers[w] == Ready)
    requires Lively(t)
    ensures Inv(t)
  {
    assert WellSized(t);
    forall e | 0 <= e < MAXREQ && t.elems[e].status == Block ensures exists b :: Behind(t, e, b) {
      var b :| Behind(s, e, b);
      assert Behind(t, e, b);
    }
    forall e | 0 <= e < MAXREQ && t.elems[e].InFlight() ensures IsWorker(t, t.elems[e].tid, Working(e)) {
      assert IsWorker(s, s.elems[e].tid, Working(e));
    }
  }

  // -- a worker looks for work

  lemma DequeuedQueues(s: State, k: int, w: int)
    requires Sorted(s) && 0 <= k < |s.pendq| && 0 <= w < NUMTHR && s.elems[s.pendq[k]].status == Pend
    ensures WellSized(Dequeued(s, k, w)) && Queues(Dequeued(s, k, w))
  {
    var t, be := Dequeued(s, k, w), s.pendq[k];
    assert be in s.pendq;
    CutQueue(s.pendq, k);
    assert forall e :: e in t.busyq <==> e in s.busyq || e == be;
  }

  lemma DequeuedSorted(s: State, k: int, w: int)
    requires Sorted(s) && 0 <= k < |s.pendq| && 0 <= w < NUMTHR && s.elems[s.pendq[k]].status == Pend
    ensures Sorted(Dequeued(s, k, w))
  {
    var t := Dequeued(s, k, w);
    DequeuedQueues(s, k, w);
    DequeuedTickets(s, k, w);
    forall e | 0 <= e < MAXREQ && t.elems[e].status == Block ensures exists b :: Behind(t, e, b) {
      var b :| Behind(s, e, b);
      assert Behind(t, e, b);
    }
  }

  lemma DequeuedTickets(s: State, k: int, w: int)
    requires WellSized(s) && Queues(s) && Tickets(s) && 0 <= k < |s.pendq| && 0 <= w < NUMTHR
    requires WellSized(Dequeued(s, k, w)) && s.elems[s.pendq[k]].Outstanding()
    ensures Tickets(Dequeued(s, k, w))
  {
    var t := Dequeued(s, k, w);
    forall i | 0 <= i < |t.pendq| ensures t.pendq[i] == s.pendq[if i < k then i else i + 1] {
    }
  }

  lemma DequeuedCrew(s: State, k: int, w: int)
    requires WellSized(s) && Queues(s) && Crew(s) && 0 <= k < |s.pendq| && IsWorker(s, w, Ready)
    requires WellSized(Dequeued(s, k, w))
    ensures Crew(Dequeued(s, k, w))
  {
    var t, be := Dequeued(s, k, w), s.pendq[k];
    assert be in s.pendq;
    forall e | 0 <= e < MAXREQ && t.elems[e].InFlight() ensures IsWorker(t, t.elems[e].tid, Working(e)) {
      assert e != be ==> IsWorker(s, s.elems[e].tid, Working(e));
    }
  }

  // If nothing is ready to go, the oldest pending request waits for one in flight.
  lemma HeadHeld(s: State)
    requires Sorted(s) && s.pendq != [] && s.elems[s.pendq[0]].status != Pend
    ensures s.busyq != []
  {
    var e := s.pendq[0];
    assert e in s.pendq;
    var b :| Behind(s, e, b);
    assert b !in s.pendq;
  }

  lemma IdleLively(s: State, w: int, t: State)
    requires Inv(s) && IsWorker(s, w, Ready) && FirstPend(s.pendq, s.elems) == |s.pendq|
    requires t == s.(workers := s.workers[w := if s.closing then Exited else Waiting])
    ensures Served(t)
  {
    if s.pendq != [] {
      HeadHeld(s);
      var e := s.busyq[0];
      assert e in s.busyq;
      assert IsWorker(s, s.elems[e].tid, Working(e));
      assert t.workers[s.elems[e].tid].Awake();
    }
  }

  lemma DequeueInv(s: State, k: int, w: int)
    requires Inv(s) && IsWorker(s, w, Ready) && 0 <= k < |s.pendq| && s.elems[s.pendq[k]].status == Pend
    ensures Inv(Dequeued(s, k, w))
  {
    var t := Dequeued(s, k, w);
    DequeuedSorted(s, k, w);
    DequeuedCrew(s, k, w);
    assert t.workers[w].Awake();
  }

  lemma TryInv(s: State, w: int)
    requires Inv(s) && Enabled(s, Try(w))
    ensures Inv(Apply(s, Try(w)))
  {
    var t := Apply(s, Try(w));
    var k := FirstPend(s.pendq, s.elems);
    if k < |s.pendq| {
      DequeueInv(s, k, w);
    } else {
      IdleInv(s, w, t);
    }
  }

  lemma IdleInv(s: State, w: int, t: State)
    requires Inv(s) && IsWorker(s, w, Ready) && FirstPend(s.pendq, s.elems) == |s.pendq|
    requires t == s.(workers := s.workers[w := if s.closing then Exited else Waiting])
    ensures Inv(t)
  {
    IdleLively(s, w, t);
    SameElems(s, t);
    SameCrew(s, t);
  }

  // Workers that hold an element keep it.
  lemma SameCrew(s: State, t: State)
    requires WellSized(s) && WellSized(t) && Crew(s)
    requires forall e :: 0 <= e < MAXREQ ==>
             t.elems[e].InFlight() == s.elems[e].InFlight() && t.elems[e].tid == s.elems[e].tid
    requires forall w :: 0 <= w < NUMTHR && (s.workers[w].Working? || t.workers[w].Working?) ==>
             t.workers[w] == s.workers[w]
    ensures Crew(t)
  {
    forall e | 0 <= e < MAXREQ && t.elems[e].InFlight() ensures IsWorker(t, t.elems[e].tid, Working(e)) {
      assert IsWorker(s, s.elems[e].tid, Working(e));
    }
  }

  lemma SameElems(s: State, t: State)
    requires Sorted(s) && t == s.(workers := t.workers, closing := t.closing) && |t.workers| == NUMTHR
    ensures Sorted(t)
  {
    forall e | 0 <= e < MAXREQ && t.elems[e].status == Block ensures exists b :: Behind(t, e, b) {
      var b :| Behind(s, e, b);
      assert Behind(t, e, b);
    }
  }

  // -- a worker finishes a request

  // Elements only change status between Busy and Done.
  ghost predicate Finishes(s: State, t: State)
    requires WellSized(s)
  {
    && WellSized(t) && t.freeq == s.freeq && t.pendq == s.pendq && t.busyq == s.busyq && t.next == s.next
    && forall e :: 0 <= e < MAXREQ ==>
        t.elems[e] == s.elems[e] || (t.elems[e] == s.elems[e].(status := Done) && s.elems[e].status == Busy)
  }

  lemma FinishSorted(s: State, t: State)
    requires Sorted(s) && Finishes(s, t)
    ensures Sorted(t)
  {
    forall i | 0 <= i < |t.pendq| ensures t.elems[t.pendq[i]].Outstanding() {
      assert t.pendq[i] in s.pendq;
    }
    TicketsShrink(s, t);
    FinishHeld(s, t);
  }

  lemma FinishHeld(s: State, t: State)
    requires WellSized(s) && WellSized(t) && Held(s)
    requires forall e :: 0 <= e < MAXREQ ==>
             t.elems[e] == s.elems[e] || (t.elems[e] == s.elems[e].(status := Done) && s.elems[e].status == Busy)
    ensures Held(t)
  {
    forall e | 0 <= e < MAXREQ && t.elems[e].status == Block ensures exists b :: Behind(t, e, b) {
      var b :| Behind(s, e, b);
      assert Behind(t, e, b);
    }
  }

  // Outstanding elements keep their tickets; some may be gone.
  lemma TicketsShrink(s: State, t: State)
    requires WellSized(s) && WellSized(t) && Tickets(s) && t.next == s.next
    requires forall e :: 0 <= e < MAXREQ && t.elems[e].Outstanding() ==>
               s.elems[e].Outstanding() && t.elems[e].ticket == s.elems[e].ticket && t.elems[e].req == s.elems[e].req
    requires InOrder(t.pendq, s.elems)
    requires forall i :: 0 <= i < |t.pendq| ==> t.elems[t.pendq[i]].Outstanding()
    ensures Tickets(t)
  {
  }

  lemma CutInOrder(q: seq<int>, elems: seq<Elem>, k: int)
    requires (forall i :: 0 <= i < |q| ==> 0 <= q[i] < |elems|) && InOrder(q, elems) && 0 <= k < |q|
    ensures var r := q[..k] + q[k + 1..]; (forall i :: 0 <= i < |r| ==> 0 <= r[i] < |elems|) && InOrder(r, elems)
  {
    var r := q[..k] + q[k + 1..];
    forall i | 0 <= i < |r| ensures r[i] == q[if i < k then i else i + 1] {
    }
  }

  lemma FinishInv(s: State, w: int)
    requires Inv(s) && Enabled(s, Finish(w))
    ensures Inv(Apply(s, Finish(w)))
  {
    var t := Apply(s, Finish(w));
    FinishSorted(s, t);
    SameCrew(s, t);
    assert t.workers[w].Awake();
  }

  // -- blockif_complete

  lemma CompletedPendq(s: State, be: int)
    requires WellSized(s) && Queues(s) && InOrder(s.pendq, s.elems) && 0 <= be < MAXREQ && s.elems[be].Outstanding()
    ensures var q := Completed(s, be).pendq;
            && NoDup(q) && (forall y :: y in q <==> y in s.pendq && y != be)
            && (forall i :: 0 <= i < |q| ==> 0 <= q[i] < MAXREQ) && InOrder(q, s.elems)
  {
    if !s.elems[be].InFlight() {
      var k := WithoutCut(s.pendq, be);
      CutQueue(s.pendq, k);
      CutInOrder(s.pendq, s.elems, k);
    }
  }

  lemma CompletedBusyq(s: State, be: int)
    requires WellSized(s) && Queues(s) && 0 <= be < MAXREQ && s.elems[be].Outstanding()
    ensures var q := Completed(s, be).busyq;
            && NoDup(q) && (forall y :: y in q <==> y in s.busyq && y != be)
            && (forall i :: 0 <= i < |q| ==> 0 <= q[i] < MAXREQ)
  {
    if s.elems[be].InFlight() {
      var k := WithoutCut(s.busyq, be);
      CutQueue(s.busyq, k);
    }
  }

  lemma CompletedFreeq(s: State, be: int)
    requires WellSized(s) && Queues(s) && 0 <= be < MAXREQ && s.elems[be].Outstanding()
    ensures var q := Completed(s, be).freeq;
            && NoDup(q) && (forall y :: y in q <==> y in s.freeq || y == be)
            && (forall i :: 0 <= i < |q| ==> 0 <= q[i] < MAXREQ)
  {
    assert be !in s.freeq;
  }

  // A completed element is free; the others at most go from Block to Pend.
  lemma CompletedElem(s: State, be: int, e: int)
    requires WellSized(s) && Queues(s) && 0 <= be < MAXREQ && s.elems[be].Outstanding() && 0 <= e < MAXREQ
    ensures var t := Completed(s, be);
            && |t.elems| == MAXREQ && (e == be ==> t.elems[e].status == Free)
            && (e != be ==>
                t.elems[e] == s.elems[e] || (s.elems[e].Queued() && t.elems[e] == s.elems[e].(status := Pend)))
  {
  }

  lemma CompletedQueues(s: State, be: int)
    requires WellSized(s) && Queues(s) && Tickets(s) && 0 <= be < MAXREQ && s.elems[be].Outstanding()
    ensures WellSized(Completed(s, be)) && Queues(Completed(s, be))
  {
    var t := Completed(s, be);
    CompletedPendq(s, be);
    CompletedBusyq(s, be);
    CompletedFreeq(s, be);
    forall e | 0 <= e < MAXREQ
      ensures && (e in t.freeq <==> t.elems[e].status == Free) && (e in t.pendq <==> t.elems[e].Queued())
              && (e in t.busyq <==> t.elems[e].InFlight())
    {
      CompletedElem(s, be, e);
    }
  }

  lemma CompletedTickets(s: State, be: int)
    requires WellSized(s) && Queues(s) && Tickets(s) && 0 <= be < MAXREQ && s.elems[be].Outstanding()
    requires WellSized(Completed(s, be)) && Queues(Completed(s, be))
    ensures Tickets(Completed(s, be))
  {
    var t := Completed(s, be);
    CompletedPendq(s, be);
    forall i | 0 <= i < |t.pendq| ensures t.elems[t.pendq[i]].Outstanding() {
      assert t.pendq[i] in t.pendq;
    }
    TicketsShrink(s, t);
  }

  lemma CompletedHeld(s: State, be: int)
    requires WellSized(s) && Queues(s) && Held(s) && 0 <= be < MAXREQ && s.elems[be].Outstanding()
    requires WellSized(Completed(s, be)) && Queues(Completed(s, be))
    ensures Held(Completed(s, be))
  {
    var t := Completed(s, be);
    forall e | 0 <= e < MAXREQ && t.elems[e].status == Block ensures exists b :: Behind(t, e, b) {
      var b :| Behind(s, e, b);
      assert e in t.pendq;
      assert Behind(t, e, b);
    }
  }

  lemma CompletedSorted(s: State, be: int)
    requires Sorted(s) && 0 <= be < MAXREQ && s.elems[be].Outstanding()
    ensures Sorted(Completed(s, be))
  {
    CompletedQueues(s, be);
    CompletedTickets(s, be);
    CompletedHeld(s, be);
  }

  lemma CompleteInv(s: State, w: int)
    requires Inv(s) && Enabled(s, Complete(w))
    ensures Inv(Apply(s, Complete(w)))
  {
    var be := s.workers[w].elem;
    var t := Apply(s, Complete(w));
    CompletedSorted(s, be);
    SameButBooks(Completed(s, be), t);
    CompleteCrew(s, w);
    assert t.workers[w].Awake();
  }

  lemma CompleteCrew(s: State, w: int)
    requires Inv(s) && Enabled(s, Complete(w)) && WellSized(Apply(s, Complete(w)))
    ensures Crew(Apply(s, Complete(w)))
  {
    var be := s.workers[w].elem;
    var t := Apply(s, Complete(w));
    forall e | 0 <= e < MAXREQ && t.elems[e].InFlight() ensures IsWorker(t, t.elems[e].tid, Working(e)) {
      assert e != be && s.elems[e].InFlight();
      assert IsWorker(s, s.elems[e].tid, Working(e));
    }
  }

  lemma SameButBooks(s: State, t: State)
    requires Sorted(s) && |t.workers| == NUMTHR
    requires t == s.(workers := t.workers, called := t.called, done := t.done, dropped := t.dropped)
    ensures Sorted(t)
  {
    forall e | 0 <= e < MAXREQ && t.elems[e].status == Block ensures exists b :: Behind(t, e, b) {
      var b :| Behind(s, e, b);
      assert Behind(t, e, b);
    }
  }

  lemma CancelInv(s: State, id: int)
    requires Inv(s)
    ensures Inv(Apply(s, Cancel(id)))
  {
    var k := FirstWith(s.pendq, s.elems, id);
    if k < |s.pendq| {
      var be, t := s.pendq[k], Apply(s, Cancel(id));
      assert be in s.pendq;
      CompletedSorted(s, be);
      SameButBooks(Completed(s, be), t);
      CancelCrew(s, be, t);
      if !AllExited(s) {
        var w :| 0 <= w < |s.workers| && s.workers[w].Awake();
        assert t.workers[w].Awake();
      }
    }
  }

  lemma CancelCrew(s: State, be: int, t: State)
    requires WellSized(s) && Queues(s) && Crew(s) && be in s.pendq && WellSized(t)
    requires t == Completed(s, be).(dropped := t.dropped)
    ensures Crew(t)
  {
    assert 0 <= be < MAXREQ by { var i :| 0 <= i < |s.pendq| && s.pendq[i] == be; }
    forall e | 0 <= e < MAXREQ && t.elems[e].InFlight() ensures IsWorker(t, t.elems[e].tid, Working(e)) {
      assert s.elems[e].InFlight();
      assert IsWorker(s, s.elems[e].tid, Working(e));
    }
  }

  lemma CloseInv(s: State)
    requires Inv(s) && Enabled(s, Close)
    ensures Inv(Apply(s, Close))
  {
    var t := Apply(s, Close);
    SameElems(s, t);
    SameCrew(s, t);
    if s.pendq != [] {
      assert s.workers[0] != Exited;
      var w :| 0 <= w < |s.workers| && s.workers[w].Awake();
      assert t.workers[w].Awake();
    }
  }

  lemma SpuriousInv(s: State, w: int)
    requires Inv(s) && Enabled(s, Spurious(w))
    ensures Inv(Apply(s, Spurious(w)))
  {
    var t := Apply(s, Spurious(w));
    assert t.workers[w].Awake();
    RewokenInv(s, t);
  }

  lemma StepInv(s: State, a: Action)
    requires Inv(s) && Enabled(s, a)
    ensures Inv(Apply(s, a))
  {
    match a
    case Request(_, _, _) => RequestInv(s, a);
    case Try(w) => TryInv(s, w);
    case Finish(w) => FinishInv(s, w);
    case Complete(w) => CompleteInv(s, w);
    case Cancel(id) => CancelInv(s, id);
    case Close => CloseInv(s);
    case Spurious(w) => SpuriousInv(s, w);
  }

  // ---- every request is accounted for ----------------------------------------------------------

  ghost predicate Holds(s: State, e: int, n: int)
    requires 0 <= e < |s.elems|
  { s.elems[e].Outstanding() && s.elems[e].ticket == n }

  ghost predicate HoldsDone(s: State, e: int, n: int)
    requires 0 <= e < |s.elems|
  { s.elems[e].status == Done && s.elems[e].ticket == n }

  ghost predicate Out(s: State, n: int)
  { exists e :: 0 <= e < |s.elems| && Holds(s, e, n) }

  ghost predicate DoneOut(s: State, n: int)
  { exists e :: 0 <= e < |s.elems| && HoldsDone(s, e, n) }

  function One(b: bool): int { if b then 1 else 0 }

  // Ticket n is outstanding, completed or cancelled, exactly one of them and once;
  // its callback has run once if it is completed or about to be, else not at all.
  ghost predicate Accounted(s: State, n: int)
  {
    && s.done[n] + s.dropped[n] + One(Out(s, n)) == One(0 <= n < s.next)
    && s.called[n] == s.done[n] + One(DoneOut(s, n))
  }

  ghost predicate Books(s: State)
  { forall n {:trigger Accounted(s, n)} :: Accounted(s, n) }

  lemma InitBooks()
    ensures Books(Init())
  {
  }

  // Where no element gains or loses ticket n, its account stands.
  lemma SameAccount(s: State, t: State, n: int)
    requires Accounted(s, n) && |t.elems| == |s.elems| && (0 <= n < t.next <==> 0 <= n < s.next)
    requires t.done[n] == s.done[n] && t.dropped[n] == s.dropped[n] && t.called[n] == s.called[n]
    requires forall e :: 0 <= e < |s.elems| ==>
             Holds(t, e, n) == Holds(s, e, n) && HoldsDone(t, e, n) == HoldsDone(s, e, n)
    ensures Accounted(t, n)
  {
    assert Out(s, n) == Out(t, n);
    assert DoneOut(s, n) == DoneOut(t, n);
  }

  lemma RequestBooks(s: State, a: Action)
    requires Inv(s) && Books(s) && Enabled(s, a) && a.Request?
    ensures Books(Apply(s, a))
  {
    if s.freeq != [] {
      var t, be := Apply(s, a), s.freeq[0];
      assert be in s.freeq;
      forall n ensures Accounted(t, n) {
        assert Accounted(s, n);
        if n == s.next {
          assert Holds(t, be, n);
        } else {
          SameAccount(s, t, n);
        }
      }
    }
  }

  lemma TryBooks(s: State, w: int)
    requires Inv(s) && Books(s) && Enabled(s, Try(w))
    ensures Books(Apply(s, Try(w)))
  {
    var t := Apply(s, Try(w));
    forall n ensures Accounted(t, n) {
      assert Accounted(s, n);
      SameAccount(s, t, n);
    }
  }

  lemma FinishBooks(s: State, w: int)
    requires Inv(s) && Books(s) && Enabled(s, Finish(w))
    ensures Books(Apply(s, Finish(w)))
  {
    var t, be := Apply(s, Finish(w)), s.workers[w].elem;
    forall n ensures Accounted(t, n) {
      assert Accounted(s, n);
      if n == s.elems[be].ticket {
        assert HoldsDone(t, be, n) && Holds(t, be, n) && Holds(s, be, n);
        assert forall e :: 0 <= e < MAXREQ && e != be ==> !Holds(s, e, n);
        assert !DoneOut(s, n);
      } else {
        SameAccount(s, t, n);
      }
    }
  }

  lemma CompletedHolds(s: State, be: int, t: State, n: int, e: int)
    requires WellSized(s) && Queues(s) && Tickets(s) && 0 <= be < MAXREQ && s.elems[be].Outstanding()
    requires t.elems == Completed(s, be).elems && 0 <= e < MAXREQ
    ensures if n == s.elems[be].ticket
            then !Holds(t, e, n) && !HoldsDone(t, e, n) && (e != be ==> !HoldsDone(s, e, n))
            else Holds(t, e, n) == Holds(s, e, n) && HoldsDone(t, e, n) == HoldsDone(s, e, n)
  {
    CompletedElem(s, be, e);
    assert e != be && s.elems[e].Outstanding() ==> s.elems[e].ticket != s.elems[be].ticket;
  }

  // Completing be moves its ticket, and only its ticket, from outstanding to a closed account.
  lemma CompletedAccount(s: State, be: int, t: State, n: int)
    requires WellSized(s) && Queues(s) && Tickets(s) && 0 <= be < MAXREQ && s.elems[be].Outstanding()
    requires Accounted(s, n) && t.elems == Completed(s, be).elems && t.next == s.next
    requires t.called == s.called
    requires t.done[n] + t.dropped[n] == s.done[n] + s.dropped[n] + One(n == s.elems[be].ticket)
    requires t.done[n] == s.done[n] + One(n == s.elems[be].ticket && s.elems[be].status == Done)
    ensures Accounted(t, n)
  {
    forall e | 0 <= e < MAXREQ
      ensures if n == s.elems[be].ticket
              then !Holds(t, e, n) && !HoldsDone(t, e, n) && (e != be ==> !HoldsDone(s, e, n))
              else Holds(t, e, n) == Holds(s, e, n) && HoldsDone(t, e, n) == HoldsDone(s, e, n) {
      CompletedHolds(s, be, t, n, e);
    }
    if n == s.elems[be].ticket {
      TicketClosed(s, be, t, n);
    } else {
      SameAccount(s, t, n);
    }
  }

  lemma TicketClosed(s: State, be: int, t: State, n: int)
    requires |s.elems| == |t.elems| == MAXREQ && 0 <= be < MAXREQ && Holds(s, be, n)
    requires forall e :: 0 <= e < MAXREQ ==> !Holds(t, e, n) && !HoldsDone(t, e, n) && (e != be ==> !HoldsDone(s, e, n))
    ensures Out(s, n) && !Out(t, n) && !DoneOut(t, n) && (DoneOut(s, n) <==> s.elems[be].status == Done)
  {
    assert HoldsDone(s, be, n) <==> s.elems[be].status == Done;
  }

  lemma CompleteBooks(s: State, w: int)
    requires Inv(s) && Books(s) && Enabled(s, Complete(w))
    ensures Books(Apply(s, Complete(w)))
  {
    var t, be := Apply(s, Complete(w)), s.workers[w].elem;
    forall n ensures Accounted(t, n) {
      assert Accounted(s, n);
      CompletedAccount(s, be, t, n);
    }
  }

  lemma CancelBooks(s: State, id: int)
    requires Inv(s) && Books(s)
    ensures Books(Apply(s, Cancel(id)))
  {
    var k := FirstWith(s.pendq, s.elems, id);
    if k < |s.pendq| {
      var t, be := Apply(s, Cancel(id)), s.pendq[k];
      assert be in s.pendq;
      forall n ensures Accounted(t, n) {
        assert Accounted(s, n);
        CompletedAccount(s, be, t, n);
      }
    }
  }

  lemma StepBooks(s: State, a: Action)
    requires Inv(s) && Books(s) && Enabled(s, a)
    ensures Books(Apply(s, a))
  {
    match a
    case Request(_, _, _) => RequestBooks(s, a);
    case Try(w) => TryBooks(s, w);
    case Finish(w) => FinishBooks(s, w);
    case Complete(w) => CompleteBooks(s, w);
    case Cancel(id) => CancelBooks(s, id);
    case _ =>
      forall n ensures Accounted(Apply(s, a), n) { assert Accounted(s, n); SameAccount(s, Apply(s, a), n); }
  }

  // ---- runs ------------------------------------------------------------------------------------

  // The state after the actions, if each was enabled when its turn came.
  ghost function Steps(s0: State, acts: seq<Action>): Option<State>
  {
    if acts == [] then Some(s0)
    else
      var s := Steps(s0, acts[..|acts| - 1]);
      var a := acts[|acts| - 1];
      if s.Some? && WellSized(s.value) && Enabled(s.value, a) then Some(Apply(s.value, a)) else None
  }

  ghost function After(acts: seq<Action>): Option<State> { Steps(Init(), acts) }

  lemma {:induction false} RunInv(acts: seq<Action>)
    ensures After(acts).Some? ==> Inv(After(acts).value) && Books(After(acts).value)
  {
    if acts == [] {
      InitInv();
      InitBooks();
    } else {
      RunInv(acts[..|acts| - 1]);
      var s := After(acts[..|acts| - 1]);
      var a := acts[|acts| - 1];
      if s.Some? && Enabled(s.value, a) {
        StepInv(s.value, a);
        StepBooks(s.value, a);
      }
    }
  }

  // No lost wakeup: with a request pending some worker is awake until all have exited.
  lemma NoLostWakeup(acts: seq<Action>)
    requires After(acts).Some? && !AllExited(After(acts).value)
    ensures var s := After(acts).value;
      s.pendq != [] ==> exists w :: 0 <= w < |s.workers| && !s.workers[w].Waiting? && !s.workers[w].Exited?
  {
    RunInv(acts);
    var s := After(acts).value;
    if s.pendq != [] {
      var w :| 0 <= w < |s.workers| && s.workers[w].Awake();
      assert !s.workers[w].Waiting? && !s.workers[w].Exited?;
    }
  }

  lemma SliceOfSlice(acts: seq<Action>, n: int, i: int)
    requires 0 <= i <= n <= |acts|
    ensures acts[..n][..i] == acts[..i] && acts[..|acts|] == acts
  {
  }

  lemma LastStep(s0: State, acts: seq<Action>, i: int)
    requires 0 <= i < |acts| && Steps(s0, acts[..i + 1]).Some?
    ensures Steps(s0, acts[..i]).Some? && WellSized(Steps(s0, acts[..i]).value)
    ensures Enabled(Steps(s0, acts[..i]).value, acts[i])
    ensures Steps(s0, acts[..i + 1]) == Some(Apply(Steps(s0, acts[..i]).value, acts[i]))
  {
    SliceOfSlice(acts, i + 1, i);
  }

  lemma {:induction false} PrefixFrom(s0: State, acts: seq<Action>, i: int)
    requires Steps(s0, acts).Some? && 0 <= i <= |acts|
    ensures Steps(s0, acts[..i]).Some?
    decreases |acts| - i
  {
    SliceOfSlice(acts, i, i);
    if i < |acts| {
      PrefixFrom(s0, acts, i + 1);
      LastStep(s0, acts, i);
    }
  }

  // The run up to step i, and that step
  lemma Prefix(acts: seq<Action>, i: int)
    requires After(acts).Some? && 0 <= i <= |acts|
    ensures After(acts[..i]).Some? && Inv(After(acts[..i]).value)
    ensures i < |acts| ==> Enabled(After(acts[..i]).value, acts[i])
    ensures i < |acts| ==> After(acts[..i + 1]) == Some(Apply(After(acts[..i]).value, acts[i]))
  {
    PrefixFrom(Init(), acts, i);
    RunInv(acts[..i]);
    if i < |acts| {
      PrefixFrom(Init(), acts, i + 1);
      LastStep(Init(), acts, i);
    }
  }

  // A request is accepted when no worker is left.
  ghost predicate TooLate(s: State, a: Action) { a.Request? && AllExited(s) && s.freeq != [] }

  lemma ExitedIdle(s: State)
    requires AllExited(s)
    ensures !SomeAwake(s)
  {
  }

  lemma StepServed(s: State, a: Action)
    requires Inv(s) && Served(s) && Enabled(s, a)
    ensures Served(Apply(s, a)) <==> !TooLate(s, a)
  {
    if TooLate(s, a) {
      RequestAwake(s, a);
      ExitedIdle(Apply(s, a));
    } else {
      StaysServed(s, a);
    }
  }

  lemma StaysServed(s: State, a: Action)
    requires Inv(s) && Served(s) && Enabled(s, a) && !TooLate(s, a)
    ensures Served(Apply(s, a))
  {
    var t := Apply(s, a);
    match a
    case Try(w) =>
      if FirstPend(s.pendq, s.elems) < |s.pendq| {
        assert t.workers[w].Awake();
      } else {
        IdleLively(s, w, t);
      }
    case Finish(w) => assert t.workers[w].Awake();
    case Complete(w) => assert t.workers[w].Awake();
    case Spurious(w) => assert t.workers[w].Awake();
    case Close => assert forall w :: 0 <= w < |s.workers| && s.workers[w].Awake() ==> t.workers[w].Awake();
    case Request(_, _, _) =>
      if s.freeq != [] {
        RequestAwake(s, a);
      }
    case Cancel(_) => assert t.workers == s.workers;
  }

  ghost predicate ServedAt(acts: seq<Action>, i: int)
  { 0 <= i <= |acts| && After(acts[..i]).Some? && Served(After(acts[..i]).value) }

  ghost predicate TooLateAt(acts: seq<Action>, i: int)
  { 0 <= i < |acts| && After(acts[..i]).Some? && TooLate(After(acts[..i]).value, acts[i]) }

  lemma {:induction false} ServedUpTo(acts: seq<Action>, i: int)
    requires After(acts).Some? && 0 <= i <= |acts| && forall j :: 0 <= j < i ==> !TooLateAt(acts, j)
    ensures ServedAt(acts, i)
    decreases i
  {
    Prefix(acts, i);
    if i > 0 {
      ServedUpTo(acts, i - 1);
      Prefix(acts, i - 1);
      assert !TooLateAt(acts, i - 1);
      StepServed(After(acts[..i - 1]).value, acts[i - 1]);
    }
  }

  // Requests are always served if and only if none is accepted after the last worker exited.
  lemma RunServed(acts: seq<Action>)
    requires After(acts).Some?
    ensures (forall i :: 0 <= i <= |acts| ==> ServedAt(acts, i)) <==>
            (forall i :: 0 <= i < |acts| ==> !TooLateAt(acts, i))
  {
    if forall i :: 0 <= i < |acts| ==> !TooLateAt(acts, i) {
      forall i | 0 <= i <= |acts| ensures ServedAt(acts, i) { ServedUpTo(acts, i); }
    } else {
      var i :| 0 <= i < |acts| && TooLateAt(acts, i);
      Prefix(acts, i);
      if ServedAt(acts, i) {
        StepServed(After(acts[..i]).value, acts[i]);
        assert !ServedAt(acts, i + 1);
      }
    }
  }

  // With nothing in flight the oldest pending request can be dispatched.
  lemma HeadReady(acts: seq<Action>)
    requires After(acts).Some?
    ensures var s := After(acts).value;
            WellSized(s) && (s.pendq != [] && s.busyq == [] ==> s.elems[s.pendq[0]].status == Pend)
  {
    RunInv(acts);
    var s := After(acts).value;
    if s.pendq != [] && s.elems[s.pendq[0]].status != Pend {
      HeadHeld(s);
    }
  }

  lemma BusyAwake(s: State)
    requires Inv(s)
    ensures s.busyq != [] ==> SomeAwake(s)
  {
    if s.busyq != [] {
      assert s.busyq[0] in s.busyq;
      CrewAwake(s, s.busyq[0]);
    }
  }

  // When every worker has exited, and no request came too late, nothing is left, and every
  // accepted request was completed once with one callback, or cancelled once with none.
  lemma CloseDrains(acts: seq<Action>)
    requires After(acts).Some? && AllExited(After(acts).value) && forall i :: 0 <= i < |acts| ==> !TooLateAt(acts, i)
    ensures var s := After(acts).value;
            && s.pendq == [] && s.busyq == []
            && forall n :: 0 <= n < s.next ==>
                 || (s.done[n] == 1 && s.called[n] == 1 && s.dropped[n] == 0)
                 || (s.done[n] == 0 && s.called[n] == 0 && s.dropped[n] == 1)
  {
    RunInv(acts);
    ServedUpTo(acts, |acts|);
    assert acts[..|acts|] == acts;
    var s := After(acts).value;
    ExitedIdle(s);
    AllClosed(s);
  }

  // With nobody awake and nothing pending, every ticket is closed.
  lemma AllClosed(s: State)
    requires Inv(s) && Books(s) && Served(s) && !SomeAwake(s)
    ensures s.pendq == [] && s.busyq == []
    ensures forall n :: 0 <= n < s.next ==>
              || (s.done[n] == 1 && s.called[n] == 1 && s.dropped[n] == 0)
              || (s.done[n] == 0 && s.called[n] == 0 && s.dropped[n] == 1)
  {
    BusyAwake(s);
    forall n | 0 <= n < s.next
      ensures (s.done[n] == 1 && s.called[n] == 1 && s.dropped[n] == 0) ||
              (s.done[n] == 0 && s.called[n] == 0 && s.dropped[n] == 1)
    {
      assert Accounted(s, n);
      assert !Out(s, n);
    }
  }

  lemma Extend(s0: State, acts: seq<Action>, s: State, a: Action)
    requires Steps(s0, acts) == Some(s) && WellSized(s) && Enabled(s, a)
    ensures Steps(s0, acts + [a]) == Some(Apply(s, a))
  {
    assert (acts + [a])[..|acts|] == acts;
  }

  // ---- progress ----------------------------------------------------------------------------------

  // How many steps worker w can take at most without more work
  function Weight(s: State, w: int): int
    requires 0 <= w < |s.workers|
  {
    match s.workers[w]
    case Ready => 1
    case Working(e) => if 0 <= e < |s.elems| && s.elems[e].status == Busy then 3 else 2
    case _ => 0
  }

  function Weights(s: State, n: int): int
    requires 0 <= n <= |s.workers|
  { if n == 0 then 0 else Weights(s, n - 1) + Weight(s, n - 1) }

  // What is left to do: a pending request is dispatched, carried out, completed, and its worker
  // looks for more.
  function Remaining(s: State): int { 4 * |s.pendq| + Weights(s, |s.workers|) }

  predicate WorkerStep(a: Action) { a.Try? || a.Finish? || a.Complete? }

  // What a step can add: a request and the worker it wakes, the workers that close wakes, or
  // one that wakes by itself
  function Credit(a: Action): int
  { match a case Request(_, _, _) => 5 case Close => NUMTHR case Spurious(_) => 1 case _ => 0 }

  function Cost(a: Action): int { if WorkerStep(a) then 1 else 0 }

  // Only worker v changes.
  lemma {:induction false} WeightsOne(s: State, t: State, v: int, n: int)
    requires |t.workers| == |s.workers| && 0 <= v < |s.workers| && 0 <= n <= |s.workers|
    requires forall w :: 0 <= w < |s.workers| && w != v ==> Weight(t, w) == Weight(s, w)
    ensures Weights(t, n) == Weights(s, n) + if v < n then Weight(t, v) - Weight(s, v) else 0
  {
    if n > 0 {
      WeightsOne(s, t, v, n - 1);
    }
  }

  lemma {:induction false} WeightsSame(s: State, t: State, n: int)
    requires |t.workers| == |s.workers| && 0 <= n <= |s.workers|
    requires forall w :: 0 <= w < |s.workers| ==> Weight(t, w) == Weight(s, w)
    ensures Weights(t, n) == Weights(s, n)
  {
    if n > 0 {
      WeightsSame(s, t, n - 1);
    }
  }

  lemma {:induction false} WeightsUp(s: State, t: State, n: int)
    requires |t.workers| == |s.workers| && 0 <= n <= |s.workers|
    requires forall w :: 0 <= w < |s.workers| ==> Weight(t, w) <= Weight(s, w) + 1
    ensures Weights(t, n) <= Weights(s, n) + n
  {
    if n > 0 {
      WeightsUp(s, t, n - 1);
    }
  }

  lemma {:induction false} WeightsPositive(s: State, n: int)
    requires 0 <= n <= |s.workers|
    ensures 0 <= Weights(s, n) <= 3 * n
  {
    if n > 0 {
      WeightsPositive(s, n - 1);
    }
  }

  // Step a wakes worker w, if it waits.
  predicate Wakes(a: Action, w: int) { (a.Request? && a.wake == w) || (a.Spurious? && a.w == w) || a.Close? }

  lemma WorkerKept(s: State, a: Action, w: int)
    requires WellSized(s) && Enabled(s, a) && 0 <= w < NUMTHR && (WorkerStep(a) ==> w != a.w)
    ensures var ws := Apply(s, a).workers;
      |ws| == NUMTHR && (ws[w] == s.workers[w] || (Wakes(a, w) && s.workers[w] == Waiting && ws[w] == Ready))
  {
  }

  // An element in flight keeps its status, unless its own worker takes the step.
  lemma StatusKept(s: State, a: Action, e: int)
    requires Inv(s) && Enabled(s, a) && 0 <= e < MAXREQ && s.elems[e].InFlight()
    requires WorkerStep(a) ==> s.workers[a.w] != Working(e)
    ensures |Apply(s, a).elems| == MAXREQ && Apply(s, a).elems[e].status == s.elems[e].status
  {
    match a
    case Request(_, _, _) => assert s.freeq != [] ==> s.freeq[0] in s.freeq;
    case Complete(w) => CompletedElem(s, s.workers[w].elem, e);
    case Cancel(id) => CancelKeeps(s, id, e);
    case Try(w) => TryKeeps(s, w, e);
    case _ =>
  }

  lemma CancelKeeps(s: State, id: int, e: int)
    requires WellSized(s) && Queues(s) && 0 <= e < MAXREQ && s.elems[e].InFlight()
    ensures |Apply(s, Cancel(id)).elems| == MAXREQ && Apply(s, Cancel(id)).elems[e].status == s.elems[e].status
  {
    var k := FirstWith(s.pendq, s.elems, id);
    if k < |s.pendq| {
      assert s.pendq[k] in s.pendq;
      CompletedElem(s, s.pendq[k], e);
    }
  }

  lemma TryKeeps(s: State, w: int, e: int)
    requires WellSized(s) && Queues(s) && Enabled(s, Try(w)) && 0 <= e < MAXREQ && s.elems[e].InFlight()
    ensures |Apply(s, Try(w)).elems| == MAXREQ && Apply(s, Try(w)).elems[e].status == s.elems[e].status
  {
    var k := FirstPend(s.pendq, s.elems);
    assert k < |s.pendq| ==> s.pendq[k] in s.pendq;
  }

  // A worker's weight depends only on its own element, which no other worker has.
  lemma WeightKept(s: State, a: Action, w: int)
    requires Inv(s) && Enabled(s, a) && 0 <= w < NUMTHR && (WorkerStep(a) ==> w != a.w)
    ensures var t := Apply(s, a);
      |t.workers| == NUMTHR && (Weight(t, w) == Weight(s, w) || (Wakes(a, w) && Weight(t, w) == Weight(s, w) + 1))
  {
    WorkerKept(s, a, w);
    if s.workers[w].Working? {
      var e := s.workers[w].elem;
      assert WorkerStep(a) ==> s.workers[a.w] != Working(e) by {
        assert s.elems[e].InFlight() && s.elems[e].tid == w;
      }
      StatusKept(s, a, e);
    }
  }

  lemma WorkerProgress(s: State, a: Action)
    requires Inv(s) && Enabled(s, a) && WorkerStep(a)
    ensures Remaining(Apply(s, a)) < Remaining(s)
  {
    var t, v := Apply(s, a), a.w;
    StepInv(s, a);
    forall w | 0 <= w < NUMTHR && w != v ensures Weight(t, w) == Weight(s, w) { WeightKept(s, a, w); }
    WeightsOne(s, t, v, NUMTHR);
    match a
    case Try(w) => TryWeight(s, w);
    case Finish(w) => assert Weight(t, v) == 2 && t.pendq == s.pendq;
    case Complete(w) => assert Weight(t, v) == 1 && t.pendq == s.pendq;
  }

  lemma TryWeight(s: State, w: int)
    requires Inv(s) && Enabled(s, Try(w))
    ensures var t := Apply(s, Try(w)); 4 * |t.pendq| + Weight(t, w) < 4 * |s.pendq| + Weight(s, w)
  {
    var k := FirstPend(s.pendq, s.elems);
    if k < |s.pendq| {
      assert s.pendq[k] in s.pendq;
    }
  }

  // Every worker step uses up some of what is left, and every other step adds at most its
  // credit.
  lemma StepProgress(s: State, a: Action)
    requires Inv(s) && Enabled(s, a)
    ensures Remaining(Apply(s, a)) + Cost(a) <= Remaining(s) + Credit(a)
  {
    var t := Apply(s, a);
    StepInv(s, a);
    if WorkerStep(a) {
      WorkerProgress(s, a);
    } else {
      forall w | 0 <= w < NUMTHR ensures Weight(t, w) <= Weight(s, w) + 1 { WeightKept(s, a, w); }
      match a
      case Close => WeightsUp(s, t, NUMTHR);
      case Spurious(v) => OneWoken(s, a, v);
      case Request(_, _, wake) => OneWoken(s, a, if 0 <= wake < NUMTHR then wake else 0);
      case Cancel(id) =>
        forall w | 0 <= w < NUMTHR ensures Weight(t, w) == Weight(s, w) { WeightKept(s, a, w); }
        WeightsSame(s, t, NUMTHR);
        CancelShrinks(s, id);
    }
  }

  lemma OneWoken(s: State, a: Action, v: int)
    requires Inv(s) && Enabled(s, a) && 0 <= v < NUMTHR
    requires (a.Spurious? && a.w == v) || (a.Request? && (0 <= a.wake < NUMTHR ==> a.wake == v))
    ensures |Apply(s, a).workers| == NUMTHR && Weights(Apply(s, a), NUMTHR) <= Weights(s, NUMTHR) + 1
  {
    var t := Apply(s, a);
    WeightKept(s, a, v);
    forall w | 0 <= w < NUMTHR && w != v ensures Weight(t, w) == Weight(s, w) { WeightKept(s, a, w); }
    WeightsOne(s, t, v, NUMTHR);
  }

  lemma CancelShrinks(s: State, id: int)
    requires Inv(s)
    ensures |Apply(s, Cancel(id)).pendq| <= |s.pendq|
  {
    var k := FirstWith(s.pendq, s.elems, id);
    if k < |s.pendq| {
      assert s.pendq[k] in s.pendq;
      var i := WithoutCut(s.pendq, s.pendq[k]);
    }
  }

  function Total(acts: seq<Action>, f: Action -> int): int
  { if acts == [] then 0 else Total(acts[..|acts| - 1], f) + f(acts[|acts| - 1]) }

  // In every run the workers' steps, with what is still left to do, are bounded by the requests
  // and wakeups: they never spin.
  lemma {:induction false} RunProgress(acts: seq<Action>)
    requires After(acts).Some?
    ensures Remaining(After(acts).value) + Total(acts, Cost) <= NUMTHR + Total(acts, Credit)
  {
    if acts == [] {
      WeightsUp(Init().(workers := seq(NUMTHR, i => Exited)), Init(), NUMTHR);
      AllAtRest(Init().(workers := seq(NUMTHR, i => Exited)), NUMTHR);
    } else {
      var n := |acts| - 1;
      Prefix(acts, n);
      assert acts[..n + 1] == acts;
      RunProgress(acts[..n]);
      StepProgress(After(acts[..n]).value, acts[n]);
    }
  }

  lemma {:induction false} AllAtRest(s: State, n: int)
    requires 0 <= n <= |s.workers| && forall w :: 0 <= w < n ==> !s.workers[w].Awake()
    ensures Weights(s, n) == 0
  {
    if n > 0 {
      AllAtRest(s, n - 1);
    }
  }

  // Some worker can take a step.
  ghost predicate CanWork(s: State)
    requires WellSized(s)
  { exists a :: WorkerStep(a) && Enabled(s, a) }

  lemma AwakeCanWork(s: State)
    requires Inv(s)
    ensures CanWork(s) <==> SomeAwake(s)
  {
    if SomeAwake(s) {
      var w :| 0 <= w < |s.workers| && s.workers[w].Awake();
      var a := if s.workers[w] == Ready then Try(w)
               else if s.elems[s.workers[w].elem].status == Busy then Finish(w) else Complete(w);
      assert WorkerStep(a) && Enabled(s, a);
    }
    if a :| WorkerStep(a) && Enabled(s, a) {
      assert s.workers[a.w].Awake();
    }
  }

  // When no worker can take a step, and no request came too late, everything is done.
  lemma QuietIsDone(acts: seq<Action>)
    requires After(acts).Some? && forall i :: 0 <= i < |acts| ==> !TooLateAt(acts, i)
    requires WellSized(After(acts).value) && !CanWork(After(acts).value)
    ensures var s := After(acts).value;
            && s.pendq == [] && s.busyq == []
            && forall n :: 0 <= n < s.next ==>
                 || (s.done[n] == 1 && s.called[n] == 1 && s.dropped[n] == 0)
                 || (s.done[n] == 0 && s.called[n] == 0 && s.dropped[n] == 1)
  {
    RunInv(acts);
    ServedUpTo(acts, |acts|);
    assert acts[..|acts|] == acts;
    AwakeCanWork(After(acts).value);
    AllClosed(After(acts).value);
  }

  lemma OneWorkerStep(s0: State, acts: seq<Action>, s: State) returns (a: Action, t: State)
    requires Steps(s0, acts) == Some(s) && Inv(s) && CanWork(s)
    ensures WorkerStep(a) && Steps(s0, acts + [a]) == Some(t) && Inv(t)
    ensures 0 <= Remaining(t) < Remaining(s)
  {
    a :| WorkerStep(a) && Enabled(s, a);
    t := Apply(s, a);
    WorkerProgress(s, a);
    StepInv(s, a);
    WeightsPositive(t, NUMTHR);
    Extend(s0, acts, s, a);
  }

  ghost predicate AllWorkerSteps(acts: seq<Action>) { forall i :: 0 <= i < |acts| ==> WorkerStep(acts[i]) }

  lemma PutBefore(acts: seq<Action>, a: Action, more: seq<Action>)
    requires WorkerStep(a) && AllWorkerSteps(more)
    ensures acts + ([a] + more) == acts + [a] + more && AllWorkerSteps([a] + more)
  {
  }

  lemma {:induction false} FinishFrom(s0: State, acts: seq<Action>, s: State) returns (more: seq<Action>, t: State)
    requires Steps(s0, acts) == Some(s) && Inv(s)
    ensures Steps(s0, acts + more) == Some(t) && Inv(t) && !CanWork(t)
    ensures AllWorkerSteps(more) && |more| <= Remaining(s)
    decreases Remaining(s)
  {
    if CanWork(s) {
      var a, u := OneWorkerStep(s0, acts, s);
      more, t := FinishFrom(s0, acts + [a], u);
      PutBefore(acts, a, more);
      more := [a] + more;
    } else {
      WeightsPositive(s, NUMTHR);
      more, t := [], s;
      assert acts + [] == acts;
    }
  }

  // From every reachable state the workers alone get there, within what remains to do.
  lemma WorkersFinish(acts: seq<Action>) returns (more: seq<Action>)
    requires After(acts).Some?
    ensures After(acts + more).Some? && WellSized(After(acts + more).value) && !CanWork(After(acts + more).value)
    ensures AllWorkerSteps(more) && |more| <= Remaining(After(acts).value)
  {
    RunInv(acts);
    var t;
    more, t := FinishFrom(Init(), acts, After(acts).value);
  }

  // ---- requests that follow one another ---------------------------------------------------------

  // Outstanding requests end at different blocks.
  ghost predicate DistinctEnds(s: State)
  {
    forall e, f :: 0 <= e < f < |s.elems| && s.elems[e].Outstanding() && s.elems[f].Outstanding() ==>
        s.elems[e].block != s.elems[f].block
  }

  // Whoever was accepted behind an outstanding request is held back.
  ghost predicate Chained(s: State)
    requires WellSized(s)
  { forall e, b :: 0 <= e < MAXREQ && s.elems[e].Outstanding() && Behind(s, e, b) ==> s.elems[e].status == Block }

  // The states of a run, from the first to the last.
  ghost predicate AlwaysDistinct(acts: seq<Action>)
  { forall i :: 0 <= i <= |acts| && After(acts[..i]).Some? ==> DistinctEnds(After(acts[..i]).value) }

  lemma RequestChained(s: State, a: Action)
    requires Inv(s) && Chained(s) && Enabled(s, a) && a.Request? && WellSized(Apply(s, a))
    ensures Chained(Apply(s, a))
  {
    if s.freeq != [] {
      var t, be := Apply(s, a), s.freeq[0];
      assert be in s.freeq;
      forall e, b | 0 <= e < MAXREQ && t.elems[e].Outstanding() && Behind(t, e, b) ensures t.elems[e].status == Block {
        if e == be {
          assert s.elems[b].Outstanding();
          if s.elems[b].Queued() {
            assert b in s.pendq;
            var i :| 0 <= i < |s.pendq| && s.pendq[i] == b;
          } else {
            assert b in s.busyq;
            var i :| 0 <= i < |s.busyq| && s.busyq[i] == b;
          }
        } else {
          assert Behind(s, e, b);
        }
      }
    }
  }

  // Completing be lets e go although another outstanding request, b, ends where e starts.
  ghost predicate Overtakes(s: State, be: int, e: int, b: int)
    requires WellSized(s) && 0 <= be < MAXREQ
  {
    && 0 <= e < MAXREQ && e != be && s.elems[e].Queued() && Behind(s, e, b)
    && b != be && s.elems[b].block == s.elems[be].block
  }

  // Exactly the completions that let someone overtake break the chain.
  lemma CompletedChained(s: State, be: int, t: State)
    requires WellSized(s) && Queues(s) && Chained(s) && 0 <= be < MAXREQ && s.elems[be].Outstanding()
    requires t.elems == Completed(s, be).elems && WellSized(t)
    ensures Chained(t) <==> !exists e, b :: Overtakes(s, be, e, b)
  {
    if e, b :| Overtakes(s, be, e, b) {
      CompletedBehind(s, be, t, e, b);
      assert s.elems[e].status == Block;
      assert t.elems[e].status == Pend && Behind(t, e, b);
    } else {
      forall e, b | 0 <= e < MAXREQ && t.elems[e].Outstanding() && Behind(t, e, b) ensures t.elems[e].status == Block {
        CompletedElem(s, be, e);
        CompletedElem(s, be, b);
        assert Behind(s, e, b);
        assert !Overtakes(s, be, e, b);
      }
    }
  }

  lemma CompletedBehind(s: State, be: int, t: State, e: int, b: int)
    requires WellSized(s) && Queues(s) && 0 <= be < MAXREQ && s.elems[be].Outstanding()
    requires t.elems == Completed(s, be).elems && WellSized(t) && Overtakes(s, be, e, b)
    ensures Behind(t, e, b) && t.elems[e].status == Pend
  {
    CompletedElem(s, be, e);
    CompletedElem(s, be, b);
    assert e in s.pendq;
    if !s.elems[be].InFlight() {
      var k := WithoutCut(s.pendq, be);
      CutQueue(s.pendq, k);
    }
  }

  // Dispatching and finishing release nobody.
  lemma FrameChained(s: State, t: State)
    requires WellSized(s) && WellSized(t) && Chained(s)
    requires forall e :: 0 <= e < MAXREQ ==>
               t.elems[e] == s.elems[e].(status := t.elems[e].status, tid := t.elems[e].tid)
               && (t.elems[e].Outstanding() <==> s.elems[e].Outstanding())
               && (s.elems[e].status == Block ==> t.elems[e].status == Block)
    ensures Chained(t)
  {
    forall e, b | 0 <= e < MAXREQ && t.elems[e].Outstanding() && Behind(t, e, b) ensures t.elems[e].status == Block {
      assert Behind(s, e, b);
    }
  }

  // The step lets somebody overtake.
  ghost predicate LetsOvertake(s: State, a: Action)
    requires WellSized(s)
  {
    match a
    case Complete(w) =>
      && 0 <= w < NUMTHR && s.workers[w].Working? && 0 <= s.workers[w].elem < MAXREQ
      && exists e, b :: Overtakes(s, s.workers[w].elem, e, b)
    case Cancel(id) =>
      var k := FirstWith(s.pendq, s.elems, id);
      k < |s.pendq| && exists e, b :: Overtakes(s, s.pendq[k], e, b)
    case _ => false
  }

  // Whatever the step, it keeps every follower held if and only if it lets nobody overtake.
  lemma StepChained(s: State, a: Action)
    requires Inv(s) && Chained(s) && Enabled(s, a) && WellSized(Apply(s, a))
    ensures Chained(Apply(s, a)) <==> !LetsOvertake(s, a)
  {
    var t := Apply(s, a);
    match a
    case Request(_, _, _) => RequestChained(s, a);
    case Complete(w) => CompletedChained(s, s.workers[w].elem, t);
    case Cancel(id) => CancelChained(s, id);
    case Try(w) => TryChained(s, w);
    case _ => FrameChained(s, t);
  }

  lemma TryChained(s: State, w: int)
    requires Inv(s) && Chained(s) && Enabled(s, Try(w)) && WellSized(Apply(s, Try(w)))
    ensures Chained(Apply(s, Try(w)))
  {
    FrameChained(s, Apply(s, Try(w)));
  }

  lemma CancelChained(s: State, id: int)
    requires Inv(s) && Chained(s) && WellSized(Apply(s, Cancel(id)))
    ensures Chained(Apply(s, Cancel(id))) <==> !LetsOvertake(s, Cancel(id))
  {
    var k := FirstWith(s.pendq, s.elems, id);
    if k < |s.pendq| {
      assert s.pendq[k] in s.pendq;
      CompletedChained(s, s.pendq[k], Apply(s, Cancel(id)));
    }
  }

  ghost predicate ChainedAt(acts: seq<Action>, i: int)
  { 0 <= i <= |acts| && After(acts[..i]).Some? && WellSized(After(acts[..i]).value) && Chained(After(acts[..i]).value) }

  ghost predicate OvertakenAt(acts: seq<Action>, i: int)
  {
    && 0 <= i < |acts| && After(acts[..i]).Some? && WellSized(After(acts[..i]).value)
    && LetsOvertake(After(acts[..i]).value, acts[i])
  }

  ghost predicate NobodyOvertakes(acts: seq<Action>) { forall i :: 0 <= i < |acts| ==> !OvertakenAt(acts, i) }

  lemma {:induction false} ChainedUpTo(acts: seq<Action>, i: int)
    requires After(acts).Some? && 0 <= i <= |acts| && forall j :: 0 <= j < i ==> !OvertakenAt(acts, j)
    ensures ChainedAt(acts, i)
    decreases i
  {
    Prefix(acts, i);
    if i > 0 {
      ChainedUpTo(acts, i - 1);
      Prefix(acts, i - 1);
      assert !OvertakenAt(acts, i - 1);
      StepChained(After(acts[..i - 1]).value, acts[i - 1]);
    }
  }

  // In a run every follower is held back as long as the request it was accepted behind is
  // outstanding if and only if no step lets anybody overtake.
  lemma RunChained(acts: seq<Action>)
    requires After(acts).Some?
    ensures (forall i :: 0 <= i <= |acts| ==> ChainedAt(acts, i)) <==> NobodyOvertakes(acts)
  {
    if NobodyOvertakes(acts) {
      forall i | 0 <= i <= |acts| ensures ChainedAt(acts, i) { ChainedUpTo(acts, i); }
    } else {
      var i :| 0 <= i < |acts| && OvertakenAt(acts, i);
      Prefix(acts, i);
      Prefix(acts, i + 1);
      if ChainedAt(acts, i) {
        StepChained(After(acts[..i]).value, acts[i]);
        assert !ChainedAt(acts, i + 1);
      }
    }
  }

  // Then a worker is never given a request while one it was accepted behind is outstanding.
  lemma DispatchInOrder(acts: seq<Action>, w: int, b: int)
    requires After(acts).Some? && NobodyOvertakes(acts) && WellSized(After(acts).value)
    requires var s := After(acts).value; Enabled(s, Try(w)) && FirstPend(s.pendq, s.elems) < |s.pendq|
    ensures var s := After(acts).value; !Behind(s, s.pendq[FirstPend(s.pendq, s.elems)], b)
  {
    ChainedUpTo(acts, |acts|);
    assert acts[..|acts|] == acts;
    RunInv(acts);
    var s := After(acts).value;
    assert s.pendq[FirstPend(s.pendq, s.elems)] in s.pendq;
  }

  // It is enough that outstanding requests always end at different blocks.
  lemma DistinctEnough(acts: seq<Action>)
    requires After(acts).Some? && AlwaysDistinct(acts)
    ensures NobodyOvertakes(acts)
  {
    forall i | 0 <= i < |acts| ensures !OvertakenAt(acts, i) {
      Prefix(acts, i);
      var s := After(acts[..i]).value;
      assert DistinctEnds(s);
      DistinctStep(s, acts[i]);
    }
  }

  lemma DistinctStep(s: State, a: Action)
    requires Inv(s) && DistinctEnds(s) && Enabled(s, a)
    ensures !LetsOvertake(s, a)
  {
    if a.Cancel? {
      var k := FirstWith(s.pendq, s.elems, a.id);
      assert k < |s.pendq| ==> s.pendq[k] in s.pendq;
    }
  }

  // The facts about a state that the counterexample below needs.
  ghost predicate Scene(s: State, free: seq<int>, pendq: seq<int>)
  {
    && WellSized(s) && !s.closing && s.pendq == pendq && s.busyq == [] && free <= s.freeq
    && forall w :: 0 <= w < NUMTHR ==> s.workers[w] == Ready
  }

  // Accepting one more one-segment write while all workers are looking for work.
  lemma Accept(s: State, free: seq<int>, pendq: seq<int>, be: int, req: Req, len: nat) returns (a: Action)
    requires Scene(s, [be] + free, pendq) && req.lens == [len]
    ensures Enabled(s, a) && Scene(Apply(s, a), free, pendq + [be])
    ensures Apply(s, a).next == s.next + 1
    ensures var status := if EndsAt(pendq, s.elems, req.offset) then Block else Pend;
      Apply(s, a).elems == s.elems[be := Elem(status, Some(req), Write, s.elems[be].tid, req.offset + len, s.next)]
  {
    assert Sum([len]) == len by { assert [len][..0] == [] && [len][0] == len; assert Sum([]) == 0; }
    assert s.freeq[0] == ([be] + free)[0] == be;
    a := Request(req, Write, -1);
    assert free <= s.freeq[1..];
  }

  lemma TwoAccepted(s0: State) returns (acts: seq<Action>, s: State)
    requires Scene(s0, [71, 70, 69], []) && s0.next == 0
    ensures Steps(s0, acts) == Some(s) && Scene(s, [69], [71, 70]) && s.next == 2
    ensures s.elems[71].req == Some(Req(0, 0, [8])) && s.elems[71].status == Pend && s.elems[71].block == 8
    ensures s.elems[70].req == Some(Req(1, 4, [4])) && s.elems[70].status == Pend && s.elems[70].block == 8 &&
            s.elems[70].ticket == 1
  {
    assert [71] + [70, 69] == [71, 70, 69] && [70] + [69] == [70, 69];
    assert [] + [71] == [71] && [71] + [70] == [71, 70];
    var a0 := Accept(s0, [70, 69], [], 71, Req(0, 0, [8]), 8);
    var s1 := Apply(s0, a0);
    var a1 := Accept(s1, [69], [71], 70, Req(1, 4, [4]), 4);
    s := Apply(s1, a1);
    Extend(s0, [], s0, a0);
    Extend(s0, [] + [a0], s1, a1);
    acts := [] + [a0] + [a1];
  }

  lemma ThreeAccepted(s0: State) returns (acts: seq<Action>, s: State)
    requires Scene(s0, [71, 70, 69], []) && s0.next == 0
    ensures Steps(s0, acts) == Some(s) && Scene(s, [], [71, 70, 69])
    ensures s.elems[71].req == Some(Req(0, 0, [8])) && s.elems[71].status == Pend && s.elems[71].block == 8
    ensures s.elems[70].req == Some(Req(1, 4, [4])) && s.elems[70].status == Pend && s.elems[70].block == 8 &&
            s.elems[70].ticket == 1
    ensures s.elems[69].req == Some(Req(2, 8, [8])) && s.elems[69].status == Block && s.elems[69].ticket == 2
  {
    var a2, s2 := TwoAccepted(s0);
    assert [69] + [] == [69] && [71, 70] + [69] == [71, 70, 69];
    assert s2.elems[[71, 70][0]].block == 8;
    var a := Accept(s2, [], [71, 70], 69, Req(2, 8, [8]), 8);
    s := Apply(s2, a);
    Extend(s0, a2, s2, a);
    acts := a2 + [a];
  }

  // Cancelling the first request releases the third.
  lemma FirstCancelled(s: State)
    requires Scene(s, [], [71, 70, 69]) && s.elems[71].req == Some(Req(0, 0, [8])) && s.elems[71].status == Pend
    requires s.elems[71].block == s.elems[69].Offset() != s.elems[70].Offset()
    ensures var t := Apply(s, Cancel(0));
            Scene(t, [], [70, 69]) && t.elems[70] == s.elems[70] && t.elems[69] == s.elems[69].(status := Pend)
  {
    assert FirstWith(s.pendq, s.elems, 0) == 0;
    assert Without([71, 70, 69], 71) == [70, 69];
    var t := Completed(s, 71);
    assert 69 in t.pendq;
  }

  // Without distinct ends it does happen: two requests end at block 8, a third starts
  // there, and the end of the first, here by cancellation, releases the third past the
  // second.
  lemma OvertakenRun() returns (acts: seq<Action>, e: int, b: int)
    ensures After(acts).Some? && WellSized(After(acts).value)
    ensures var s := After(acts).value;
            && Enabled(s, Try(1)) && FirstPend(s.pendq, s.elems) < |s.pendq|
            && e == s.pendq[FirstPend(s.pendq, s.elems)] && Behind(s, e, b)
  {
    var s0 := Init();
    assert Scene(s0, [71, 70, 69], []) by { assert s0.freeq[..3] == [71, 70, 69]; }
    var a3, s3 := ThreeAccepted(s0);
    FirstCancelled(s3);
    var s4 := Apply(s3, Cancel(0));
    Extend(s0, a3, s3, Cancel(0));
    SecondDispatched(s4);
    Extend(s0, a3 + [Cancel(0)], s4, Try(0));
    acts, e, b := a3 + [Cancel(0)] + [Try(0)], 69, 70;
  }

  lemma SecondDispatched(s: State)
    requires Scene(s, [], [70, 69]) && s.elems[70].status == Pend && s.elems[69].status == Pend
    requires s.elems[70].block == s.elems[69].Offset() && s.elems[70].ticket < s.elems[69].ticket
    ensures Enabled(s, Try(0)) && var t := Apply(s, Try(0));
            && WellSized(t) && Enabled(t, Try(1)) && t.pendq == [69] && FirstPend(t.pendq, t.elems) == 0
            && Behind(t, 69, 70)
  {
    assert FirstPend(s.pendq, s.elems) == 0;
    var t := Dequeued(s, 0, 0);
    assert t.pendq == [69] && t.workers[1] == Ready;
    assert FirstPend(t.pendq, t.elems) == 0;
  }

  // -- a submission after close, when all workers have left

  ghost predicate Leaving(s: State, k: int)
  {
    && WellSized(s) && s.closing && s.pendq == [] && s.busyq == [] && s.freeq == Init().freeq
    && forall w :: 0 <= w < NUMTHR ==> s.workers[w] == if w < k then Exited else Ready
  }

  lemma {:induction false} ExitedRun(k: int) returns (acts: seq<Action>)
    requires 0 <= k <= NUMTHR
    ensures After(acts).Some? && Leaving(After(acts).value, k)
  {
    var s0 := Init();
    if k == 0 {
      Extend(s0, [], s0, Close);
      acts := [] + [Close];
    } else {
      var before := ExitedRun(k - 1);
      var s := After(before).value;
      assert FirstPend(s.pendq, s.elems) == 0;
      Extend(s0, before, s, Try(k - 1));
      acts := before + [Try(k - 1)];
    }
  }

  // A request accepted after the last worker has exited stays pending with nobody to serve it.
  lemma StrandedRun() returns (acts: seq<Action>)
    ensures After(acts).Some? && !Served(After(acts).value)
  {
    var before := ExitedRun(NUMTHR);
    var s := After(before).value;
    var a := Request(Req(0, 0, [1]), Write, -1);
    assert s.freeq[0] == MAXREQ - 1;
    RunInv(before);
    Extend(Init(), before, s, a);
    acts := before + [a];
    RequestAwake(s, a);
    ExitedIdle(Apply(s, a));
  }
}
