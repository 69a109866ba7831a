// struct blockif_ctxt with its queues and request elements, updated in place.
module BlockCtxt {
  import opened BlockIf
  import opened Options
  import opened Sequences

  class Ctxt {
    var freeq: seq<int>
    var pendq: seq<int>
    var busyq: seq<int>
    const reqs: array<Elem>
    var closing: bool
    // instrumentation: the next ticket, what the threads are doing, and the record
    var next: int
    ghost var workers: seq<Worker>
    ghost var called: multiset<int>
    ghost var done: multiset<int>
    ghost var dropped: multiset<int>

    ghost function Abs(): State
      reads this, reqs
    { State(freeq, pendq, busyq, reqs[..], workers, closing, next, called, done, dropped) }

    // The queue set-up and thread creation of blockif_open
    constructor ()
      ensures Abs() == Init() && Inv(Abs()) && fresh(reqs)
    {
      freeq, pendq, busyq, closing, next := [], [], [], false, 0;
      workers, called, done, dropped := seq(NUMTHR, i => Ready), multiset{}, multiset{}, multiset{};
      reqs := new Elem[MAXREQ](i => Elem(Free, None, Read, 0, 0, 0));
      new;
      for i := 0 to MAXREQ
        invariant freeq == seq(i, j => i - 1 - j)
        invariant pendq == [] && busyq == [] && !closing && next == 0
        invariant workers == seq(NUMTHR, i => Ready) && called == done == dropped == multiset{}
        invariant forall j :: 0 <= j < MAXREQ ==> reqs[j] == Elem(Free, None, Read, 0, 0, 0)
        modifies this
      {
        freeq := [i] + freeq;
      }
      assert Abs() == Init();
      InitInv();
    }

    // The walks of blockif_enqueue over a queue, for a request that ends at off
    method Scan(q: seq<int>, off: int) returns (found: bool)
      requires forall i :: 0 <= i < |q| ==> 0 <= q[i] < reqs.Length
      ensures found == EndsAt(q, reqs[..], off)
    {
      for i := 0 to |q|
        invariant forall j :: 0 <= j < i ==> reqs[q[j]].block != off
      {
        if reqs[q[i]].block == off {
          return true;
        }
      }
      return false;
    }

    method EndBlock(req: Req, op: BlockOp) returns (off: int)
      ensures off == EndOf(req, op)
    {
      if op == Flush {
        return FLUSH_END;
      }
      off := req.offset;
      for i := 0 to |req.lens|
        invariant off == req.offset + Sum(req.lens[..i])
      {
        assert req.lens[..i + 1][..i] == req.lens[..i];
        off := off + req.lens[i];
      }
      assert req.lens[..|req.lens|] == req.lens;
    }

    // blockif_enqueue
    method Enqueue(req: Req, op: BlockOp) returns (ready: bool)
      requires WellSized(Abs())
      modifies this`freeq, this`pendq, this`next, reqs
      ensures old(freeq == [] || reqs[freeq[0]].status != Free) ==> !ready && Abs() == old(Abs())
      ensures old(freeq != [] && reqs[freeq[0]].status == Free) ==>
                && Abs() == Enqueued(old(Abs()), req, op)
                && ready == (Abs().elems[old(freeq)[0]].status == Pend)
    {
      if freeq == [] || reqs[freeq[0]].status != Free {
        return false;
      }
      var be := freeq[0];
      var off := EndBlock(req, op);
      var held := Scan(pendq, req.offset);
      if !held {
        held := Scan(busyq, req.offset);
      }
      Append(be, Elem(if held then Block else Pend, Some(req), op, reqs[be].tid, off, next));
      return !held;
    }

    // The head of the free queue is filled in and goes to the end of the pending queue.
    method Append(be: int, e: Elem)
      requires WellSized(Abs()) && freeq != [] && be == freeq[0]
      modifies this`freeq, this`pendq, this`next, reqs
      ensures var s := old(Abs());
        Abs() == s.(freeq := s.freeq[1..], pendq := s.pendq + [be], elems := s.elems[be := e], next := s.next + 1)
    {
      freeq := freeq[1..];
      reqs[be] := e;
      next := next + 1;
      pendq := pendq + [be];
    }

    // blockif_dequeue, by worker w
    method Dequeue(w: int) returns (be: int)
      requires WellSized(Abs()) && 0 <= w < NUMTHR
      modifies this`pendq, this`busyq, this`workers, reqs
      ensures var k := FirstPend(old(pendq), old(reqs[..]));
              if k < |old(pendq)| then be == old(pendq)[k] && Abs() == Dequeued(old(Abs()), k, w)
              else be == -1 && Abs() == old(Abs())
    {
      var k := 0;
      while k < |pendq| && reqs[pendq[k]].status != Pend
        invariant 0 <= k <= |pendq| && k <= FirstPend(pendq, reqs[..])
      {
        k := k + 1;
      }
      if k == |pendq| {
        return -1;
      }
      be := pendq[k];
      pendq := pendq[..k] + pendq[k + 1..];
      reqs[be] := reqs[be].(status := Busy, tid := w);
      busyq := busyq + [be];
      workers := workers[w := Working(be)];
    }

    // The walk of blockif_complete over the pending queue, which releases what starts at off
    method Unblock(q: seq<int>, off: int)
      requires forall i :: 0 <= i < |q| ==> 0 <= q[i] < reqs.Length
      modifies reqs
      ensures reqs[..] == Unblocked(old(reqs[..]), q, off)
    {
      for i := 0 to |q|
        invariant forall e :: 0 <= e < reqs.Length ==>
                    reqs[e] == if e in q[..i] && old(reqs[e]).Offset() == off
                               then old(reqs[e]).(status := Pend) else old(reqs[e])
      {
        if reqs[q[i]].Offset() == off {
          reqs[q[i]] := reqs[q[i]].(status := Pend);
        }
        assert q[..i + 1] == q[..i] + [q[i]];
      }
      assert q[..|q|] == q;
    }

    // blockif_complete
    method Complete(be: int)
      requires WellSized(Abs()) && 0 <= be < MAXREQ
      modifies this`pendq, this`busyq, this`freeq, reqs
      ensures Abs() == Completed(old(Abs()), be)
    {
      if reqs[be].status == Done || reqs[be].status == Busy {
        busyq := Without(busyq, be);
      } else {
        pendq := Without(pendq, be);
      }
      WithoutSub(old(pendq), be);
      Unblock(pendq, reqs[be].block);
      reqs[be] := Freed(reqs[be]);
      freeq := freeq + [be];
    }

    // blockif_request; wake is the waiting worker the signal reaches, -1 if there is none
    method Submit(req: Req, op: BlockOp, ghost wake: int) returns (accepted: bool)
      requires Inv(Abs()) && Enabled(Abs(), Request(req, op, wake))
      modifies this`freeq, this`pendq, this`next, this`workers, reqs
      ensures Abs() == Apply(old(Abs()), Request(req, op, wake)) && Inv(Abs())
      ensures accepted == (old(freeq) != [])
    {
      StepInv(Abs(), Request(req, op, wake));
      if freeq == [] {
        return false;
      }
      assert freeq[0] in Abs().freeq;
      var ready := Enqueue(req, op);
      if ready && wake != -1 {
        workers := workers[wake := Ready];
      }
      return true;
    }

    // One pass of worker w through the loop of blockif_thr, up to the unlock
    method TryWork(w: int) returns (be: int)
      requires Inv(Abs()) && Enabled(Abs(), Try(w))
      modifies this`pendq, this`busyq, this`workers, reqs
      ensures Abs() == Apply(old(Abs()), Try(w)) && Inv(Abs())
    {
      StepInv(Abs(), Try(w));
      be := Dequeue(w);
      if be == -1 {
        workers := workers[w := if closing then Exited else Waiting];
      }
    }

    // The end of blockif_proc
    method FinishWork(w: int, be: int)
      requires Inv(Abs()) && Enabled(Abs(), Finish(w)) && workers[w] == Working(be)
      modifies this`called, reqs
      ensures Abs() == Apply(old(Abs()), Finish(w)) && Inv(Abs())
    {
      StepInv(Abs(), Finish(w));
      called := called + multiset{reqs[be].ticket};
      reqs[be] := reqs[be].(status := Done);
    }

    method CompleteWork(w: int, be: int)
      requires Inv(Abs()) && Enabled(Abs(), Action.Complete(w)) && workers[w] == Working(be)
      modifies this`pendq, this`busyq, this`freeq, this`workers, this`done, reqs
      ensures Abs() == Apply(old(Abs()), Action.Complete(w)) && Inv(Abs())
    {
      StepInv(Abs(), Action.Complete(w));
      done := done + multiset{reqs[be].ticket};
      Complete(be);
      workers := workers[w := Ready];
    }

    // blockif_cancel: 0 if a pending request was dropped, -EBUSY (here -16) if it is in
    // flight, -1 if it is unknown
    method CancelRequest(id: int) returns (err: int)
      requires Inv(Abs())
      modifies this`pendq, this`busyq, this`freeq, this`dropped, reqs
      ensures Abs() == Apply(old(Abs()), Cancel(id)) && Inv(Abs())
      ensures err == if FirstWith(old(pendq), old(reqs[..]), id) < |old(pendq)| then 0
                     else if FirstWith(old(busyq), old(reqs[..]), id) < |old(busyq)| then -16 else -1
    {
      StepInv(Abs(), Cancel(id));
      var k := Seek(pendq, id);
      if k < |pendq| {
        var be := pendq[k];
        assert be in pendq;
        dropped := dropped + multiset{reqs[be].ticket};
        Complete(be);
        return 0;
      }
      k := Seek(busyq, id);
      return if k < |busyq| then -16 else -1;
    }

    // The walks of blockif_cancel over a queue, for the element of a request
    method Seek(q: seq<int>, id: int) returns (k: int)
      requires forall i :: 0 <= i < |q| ==> 0 <= q[i] < reqs.Length
      ensures k == FirstWith(q, reqs[..], id)
    {
      k := 0;
      while k < |q| && !(reqs[q[k]].req.Some? && reqs[q[k]].req.value.id == id)
        invariant 0 <= k <= |q| && k <= FirstWith(q, reqs[..], id)
      {
        k := k + 1;
      }
    }

    // blockif_close, up to the joins
    method CloseCtxt()
      requires Inv(Abs()) && !closing
      modifies this`closing, this`workers
      ensures Abs() == Apply(old(Abs()), Close) && Inv(Abs())
    {
      StepInv(Abs(), Close);
      closing := true;
      workers := Broadcast(workers);
    }
  }
}
