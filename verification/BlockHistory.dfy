// The block scheduler of devicemodel/hw/block_if.c, told from the requests it accepted: where
// they end, who waits for whom, and who goes next.
module BlockHistory {
  import opened BlockIf
  import opened Options
  import opened Sequences

  datatype Asked = Asked(req: Req, op: BlockOp)

  // The requests accepted so far; the ticket of a request is its place among them.
  ghost function Accepted(acts: seq<Action>): seq<Asked>
  {
    if acts == [] then []
    else
      var n, before := |acts| - 1, After(acts[..|acts| - 1]);
      if acts[n].Request? && before.Some? && before.value.freeq != []
      then Accepted(acts[..n]) + [Asked(acts[n].req, acts[n].op)]
      else Accepted(acts[..n])
  }

  // The block behind the last one of a request; a flush counts as ending at 128.
  function End(r: Asked): int
  { if r.op == Flush then 128 else r.req.offset + Sum(r.req.lens) }

  // The length of a request is that of its segments together.
  lemma {:induction false} Lengths(a: seq<nat>, b: seq<nat>, n: nat)
    ensures Sum([]) == 0 && Sum([n]) == n && Sum(a + b) == Sum(a) + Sum(b)
    decreases |b|
  {
    assert [n][..0] == [];
    if b == [] {
      assert a + b == a;
    } else {
      var m := |b| - 1;
      Lengths(a, b[..m], n);
      assert (a + b)[..|a + b| - 1] == a + b[..m];
    }
  }

  // ---- what the elements remember ------------------------------------------------------------

  ghost predicate Remembers(s: State, asked: seq<Asked>, e: int)
    requires 0 <= e < |s.elems|
  {
    var el := s.elems[e];
    el.Outstanding() ==>
      && 0 <= el.ticket < |asked| && el.req == Some(asked[el.ticket].req) && el.op == asked[el.ticket].op
      && el.block == End(asked[el.ticket])
  }

  ghost predicate AllRemember(s: State, asked: seq<Asked>)
  { s.next == |asked| && |s.elems| == MAXREQ && forall e :: 0 <= e < MAXREQ ==> Remembers(s, asked, e) }

  // An element that is still outstanding is the same request.
  ghost predicate SameRequest(s: State, t: State, e: int)
    requires 0 <= e < |s.elems| && e < |t.elems|
  {
    t.elems[e].Outstanding() ==>
      && s.elems[e].Outstanding() && t.elems[e].req == s.elems[e].req && t.elems[e].op == s.elems[e].op
      && t.elems[e].ticket == s.elems[e].ticket && t.elems[e].block == s.elems[e].block
  }

  lemma StepSame(s: State, a: Action, e: int)
    requires Inv(s) && Enabled(s, a) && 0 <= e < MAXREQ
    requires a.Request? ==> s.freeq == [] || e != s.freeq[0]
    ensures |Apply(s, a).elems| == MAXREQ && SameRequest(s, Apply(s, a), e)
  {
    match a
    case Complete(w) => CompletedElem(s, s.workers[w].elem, e);
    case Cancel(id) => CancelSame(s, id, e);
    case Try(w) => TrySame(s, w, e);
    case _ =>
  }

  lemma CancelSame(s: State, id: int, e: int)
    requires WellSized(s) && Queues(s) && 0 <= e < MAXREQ
    ensures |Apply(s, Cancel(id)).elems| == MAXREQ && SameRequest(s, Apply(s, Cancel(id)), e)
  {
    var k := FirstWith(s.pendq, s.elems, id);
    if k < |s.pendq| {
      assert s.pendq[k] in s.pendq;
      CompletedElem(s, s.pendq[k], e);
    }
  }

  lemma TrySame(s: State, w: int, e: int)
    requires WellSized(s) && Queues(s) && Enabled(s, Try(w)) && 0 <= e < MAXREQ
    ensures |Apply(s, Try(w)).elems| == MAXREQ && SameRequest(s, Apply(s, Try(w)), e)
  {
    var k := FirstPend(s.pendq, s.elems);
    assert k < |s.pendq| ==> s.pendq[k] in s.pendq;
  }

  lemma StepNext(s: State, a: Action)
    requires WellSized(s) && Enabled(s, a)
    ensures Apply(s, a).next == s.next + if a.Request? && s.freeq != [] then 1 else 0
  {
  }

  lemma StepRemembers(s: State, a: Action, asked: seq<Asked>)
    requires Inv(s) && Enabled(s, a) && AllRemember(s, asked)
    ensures AllRemember(Apply(s, a),
                        if a.Request? && s.freeq != [] then asked + [Asked(a.req, a.op)] else asked)
  {
    StepNext(s, a);
    StepInv(s, a);
    var t := Apply(s, a);
    var asked' := if a.Request? && s.freeq != [] then asked + [Asked(a.req, a.op)] else asked;
    forall e | 0 <= e < MAXREQ ensures Remembers(t, asked', e) {
      if a.Request? && s.freeq != [] && e == s.freeq[0] {
        NewRemembers(s, a);
      } else {
        StepSame(s, a, e);
        assert Remembers(s, asked, e);
      }
    }
  }

  lemma NewRemembers(s: State, a: Action)
    requires WellSized(s) && Enabled(s, a) && a.Request? && s.freeq != []
    ensures var el := Apply(s, a).elems[s.freeq[0]];
      el.ticket == s.next && el.req == Some(a.req) && el.op == a.op && el.block == End(Asked(a.req, a.op))
  {
  }

  // In every reachable state an outstanding element holds the request that was accepted with
  // its ticket, and ends where that request ends.
  lemma {:induction false} RunRemembers(acts: seq<Action>)
    requires After(acts).Some?
    ensures AllRemember(After(acts).value, Accepted(acts))
  {
    if acts != [] {
      var n := |acts| - 1;
      Prefix(acts, n);
      assert acts[..n + 1] == acts;
      RunRemembers(acts[..n]);
      StepRemembers(After(acts[..n]).value, acts[n], Accepted(acts[..n]));
    }
  }

  // A request is refused if and only if 72 are outstanding.
  lemma FullMeans(acts: seq<Action>)
    requires After(acts).Some?
    ensures var s := After(acts).value;
      |s.elems| == 72 && (s.freeq == [] <==> forall e :: 0 <= e < 72 ==> s.elems[e].Outstanding())
  {
    RunInv(acts);
    var s := After(acts).value;
    if s.freeq != [] {
      assert s.freeq[0] in s.freeq;
      assert !s.elems[s.freeq[0]].Outstanding();
    } else {
      forall e | 0 <= e < 72 ensures s.elems[e].Outstanding() { assert e !in s.freeq; }
    }
  }

  // ---- who waits for whom --------------------------------------------------------------------

  // The request with ticket m starts where that of the outstanding element b ends, which was
  // accepted earlier.
  ghost predicate WaitsFor(s: State, asked: seq<Asked>, m: int, b: int)
  {
    && 0 <= m < |asked| && 0 <= b < |s.elems| && s.elems[b].Outstanding() && 0 <= s.elems[b].ticket < m
    && End(asked[s.elems[b].ticket]) == asked[m].req.offset
  }

  lemma BehindIsWaiting(s: State, asked: seq<Asked>, e: int, b: int)
    requires WellSized(s) && AllRemember(s, asked) && 0 <= e < MAXREQ && s.elems[e].Outstanding()
    ensures Behind(s, e, b) <==> WaitsFor(s, asked, s.elems[e].ticket, b)
  {
    assert Remembers(s, asked, e);
    assert 0 <= b < MAXREQ ==> Remembers(s, asked, b);
  }

  // Where followers are held, an outstanding request is blocked if and only if it has somebody
  // to wait for.
  lemma BlockedIs(s: State, asked: seq<Asked>, e: int)
    requires WellSized(s) && Held(s) && AllRemember(s, asked) && 0 <= e < MAXREQ && s.elems[e].Outstanding()
    ensures s.elems[e].status == Block ==> exists b :: WaitsFor(s, asked, s.elems[e].ticket, b)
    ensures Chained(s) && (exists b :: WaitsFor(s, asked, s.elems[e].ticket, b)) ==> s.elems[e].status == Block
  {
    if s.elems[e].status == Block {
      var b :| Behind(s, e, b);
      BehindIsWaiting(s, asked, e, b);
    } else if Chained(s) && exists b :: WaitsFor(s, asked, s.elems[e].ticket, b) {
      var b :| WaitsFor(s, asked, s.elems[e].ticket, b);
      BehindIsWaiting(s, asked, e, b);
    }
  }

  // A blocked request always has somebody to wait for.  While nobody overtakes, the converse
  // holds too: whoever starts where an outstanding request accepted earlier ends is blocked,
  // hence neither dispatchable nor in flight.
  lemma BlockedExactly(acts: seq<Action>, e: int)
    requires After(acts).Some? && 0 <= e < |After(acts).value.elems| && After(acts).value.elems[e].Outstanding()
    ensures var s := After(acts).value;
      && (s.elems[e].status == Block ==> exists b :: WaitsFor(s, Accepted(acts), s.elems[e].ticket, b))
      && (NobodyOvertakes(acts) && (exists b :: WaitsFor(s, Accepted(acts), s.elems[e].ticket, b)) ==>
          s.elems[e].status == Block)
  {
    RunInv(acts);
    RunRemembers(acts);
    if NobodyOvertakes(acts) {
      ChainedUpTo(acts, |acts|);
      SliceOfSlice(acts, 0, 0);
    }
    BlockedIs(After(acts).value, Accepted(acts), e);
  }

  // ---- who goes next -------------------------------------------------------------------------

  lemma FirstIsOldest(s: State, f: int)
    requires WellSized(s) && InOrder(s.pendq, s.elems) && f in s.pendq && 0 <= f < MAXREQ
    requires s.elems[f].status == Pend
    ensures var k := FirstPend(s.pendq, s.elems);
      k < |s.pendq| && s.elems[s.pendq[k]].ticket <= s.elems[f].ticket
  {
    var i :| 0 <= i < |s.pendq| && s.pendq[i] == f;
    var k := FirstPend(s.pendq, s.elems);
    assert k <= i;
  }

  // A worker that looks for work gets a dispatchable request that is at least as old as any
  // other, if there is one; else it waits, or exits when the context is closing.
  lemma OldestFirst(s: State, w: int)
    requires Inv(s) && Enabled(s, Try(w))
    ensures var t := Apply(s, Try(w));
      if exists f :: 0 <= f < MAXREQ && s.elems[f].status == Pend then
        exists e :: && 0 <= e < MAXREQ && s.elems[e].status == Pend && t.workers == s.workers[w := Working(e)]
                    && t.elems == s.elems[e := s.elems[e].(status := Busy, tid := w)]
                    && forall f :: 0 <= f < MAXREQ && s.elems[f].status == Pend ==>
                         s.elems[e].ticket <= s.elems[f].ticket
      else
        t == s.(workers := s.workers[w := if s.closing then Exited else Waiting])
  {
    var k := FirstPend(s.pendq, s.elems);
    if k == |s.pendq| {
      forall f | 0 <= f < MAXREQ && s.elems[f].status == Pend ensures false { FirstIsOldest(s, f); }
    } else {
      var e := s.pendq[k];
      assert e in s.pendq;
      forall f | 0 <= f < MAXREQ && s.elems[f].status == Pend ensures s.elems[e].ticket <= s.elems[f].ticket {
        FirstIsOldest(s, f);
      }
    }
  }

  // The request that element e holds is pending and has that identity.
  ghost predicate Cancellable(s: State, asked: seq<Asked>, id: int, e: int)
  {
    && 0 <= e < |s.elems| && s.elems[e].Queued() && 0 <= s.elems[e].ticket < |asked|
    && asked[s.elems[e].ticket].req.id == id
  }

  lemma FirstIsOldestWith(s: State, asked: seq<Asked>, id: int, f: int)
    requires WellSized(s) && InOrder(s.pendq, s.elems) && f in s.pendq
    requires AllRemember(s, asked) && Cancellable(s, asked, id, f)
    ensures var k := FirstWith(s.pendq, s.elems, id);
      k < |s.pendq| && s.elems[s.pendq[k]].ticket <= s.elems[f].ticket
  {
    assert Remembers(s, asked, f);
    var i :| 0 <= i < |s.pendq| && s.pendq[i] == f;
    var k := FirstWith(s.pendq, s.elems, id);
    assert k <= i;
  }

  // Cancelling an identity drops the oldest pending request that has it.
  lemma OldestCancelled(s: State, asked: seq<Asked>, id: int, f: int) returns (e: int)
    requires WellSized(s) && Queues(s) && InOrder(s.pendq, s.elems) && AllRemember(s, asked)
    requires Cancellable(s, asked, id, f)
    ensures Cancellable(s, asked, id, e) && s.elems[e].ticket <= s.elems[f].ticket
    ensures Apply(s, Cancel(id)).dropped == s.dropped + multiset{s.elems[e].ticket}
  {
    assert f in s.pendq;
    FirstIsOldestWith(s, asked, id, f);
    e := s.pendq[FirstWith(s.pendq, s.elems, id)];
    assert e in s.pendq && Remembers(s, asked, e);
  }

  // Cancelling an identity that no pending request has changes nothing.
  lemma NothingElseCancelled(s: State, asked: seq<Asked>, id: int) returns (e: int)
    requires WellSized(s) && Queues(s) && AllRemember(s, asked) && Apply(s, Cancel(id)) != s
    ensures Cancellable(s, asked, id, e)
  {
    e := s.pendq[FirstWith(s.pendq, s.elems, id)];
    assert e in s.pendq && Remembers(s, asked, e);
  }

  // The request that element e holds is being carried out and has that identity.
  ghost predicate InHands(s: State, asked: seq<Asked>, id: int, e: int)
  {
    && 0 <= e < |s.elems| && s.elems[e].InFlight() && 0 <= s.elems[e].ticket < |asked|
    && asked[s.elems[e].ticket].req.id == id
  }

  // The two searches of blockif_cancel find a request with the identity if and only if there
  // is one, pending or in a worker's hands.
  lemma SearchesFind(s: State, asked: seq<Asked>, id: int)
    requires WellSized(s) && Queues(s) && AllRemember(s, asked)
    ensures FirstWith(s.pendq, s.elems, id) < |s.pendq| <==> exists e :: Cancellable(s, asked, id, e)
    ensures FirstWith(s.busyq, s.elems, id) < |s.busyq| <==> exists e :: InHands(s, asked, id, e)
  {
    var k, l := FirstWith(s.pendq, s.elems, id), FirstWith(s.busyq, s.elems, id);
    if k < |s.pendq| {
      assert s.pendq[k] in s.pendq && Remembers(s, asked, s.pendq[k]);
      assert Cancellable(s, asked, id, s.pendq[k]);
    }
    if e :| Cancellable(s, asked, id, e) {
      assert e in s.pendq && Remembers(s, asked, e);
    }
    if l < |s.busyq| {
      assert s.busyq[l] in s.busyq && Remembers(s, asked, s.busyq[l]);
      assert InHands(s, asked, id, s.busyq[l]);
    }
    if e :| InHands(s, asked, id, e) {
      assert e in s.busyq && Remembers(s, asked, e);
    }
  }
}
