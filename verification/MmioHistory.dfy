// What the answers of the MMIO registry of devicemodel/core/mem.c say about one another, told
// from the calls alone.
module MmioHistory {
  import opened Mmio
  import opened Options
  import opened RbShape

  // Call i put q into the tree.
  ghost predicate Adds(ops: seq<Op>, answers: seq<Answer>, i: int, fb: bool, q: MemRange)
  {
    && 0 <= i < |ops| && i < |answers| && answers[i] == Status(0)
    && ops[i].Register? && ops[i].toFallback == fb && ops[i].range == q
  }

  // Call i took the range that starts at this base out of the tree.
  ghost predicate Removes(ops: seq<Op>, answers: seq<Answer>, i: int, fb: bool, base: int)
  {
    && 0 <= i < |ops| && i < |answers| && answers[i] == Status(0)
    && ops[i].Unregister? && ops[i].fromFallback == fb && ops[i].range.base == base
  }

  predicate Empty(q: MemRange) { q.base > q.End() }

  // Call i put q into the tree, and none up to call n took it out.
  ghost predicate LiveSince(ops: seq<Op>, answers: seq<Answer>, i: int, n: int, fb: bool, q: MemRange)
  {
    && 0 <= i < n && Adds(ops, answers, i, fb, q)
    && (Empty(q) || forall j :: i < j < n ==> !Removes(ops, answers, j, fb, q.base))
  }

  ghost predicate Live(ops: seq<Op>, answers: seq<Answer>, n: int, fb: bool, q: MemRange)
  { exists i :: LiveSince(ops, answers, i, n, fb, q) }

  // ---- the laws of the answers ---------------------------------------------------------------

  // A range is accepted if and only if memory is there and nothing live in its tree is in the
  // way.
  ghost predicate RegisterLaw(ops: seq<Op>, answers: seq<Answer>, i: int)
    requires 0 <= i < |ops| == |answers| && ops[i].Register?
  {
    var r, fb := ops[i].range, ops[i].toFallback;
    && (answers[i] == Status(0) || answers[i] == Status(-1))
    && (answers[i] == Status(0) <==>
        ops[i].mallocOk && forall q :: Live(ops, answers, i, fb, q) ==> !Clash(q, r) && !Covers(q, r.base))
  }

  ghost predicate Matches(q: MemRange, p: MemRange)
  {
    && q.base == p.base && q.size == p.size && q.flags & 0x4 == 0
    && forall k :: 0 <= k < 80 ==> CharAt(q.name, k) == CharAt(p.name, k)
  }

  // A request is answered 0 if and only if a live range of its tree has its base and size, its
  // name up to 80 characters, and is not immutable.
  ghost predicate UnregisterLaw(ops: seq<Op>, answers: seq<Answer>, i: int)
    requires 0 <= i < |ops| == |answers| && ops[i].Unregister?
  {
    var p, fb := ops[i].range, ops[i].fromFallback;
    && (answers[i] == Status(0) || answers[i] == Status(-1))
    && (answers[i] == Status(0) <==> exists q :: Live(ops, answers, i, fb, q) && !Empty(q) && Matches(q, p))
  }

  // An access selects the live range of register_mem that holds the address; if there is
  // none, that of register_mem_fallback.
  ghost predicate AccessLaw(ops: seq<Op>, answers: seq<Answer>, i: int)
    requires 0 <= i < |ops| == |answers| && ops[i].Access?
  {
    var addr := ops[i].addr;
    && answers[i].Selected?
    && forall q :: answers[i].entry == Some(q) <==>
         || (Live(ops, answers, i, false, q) && Covers(q, addr))
         || (Live(ops, answers, i, true, q) && Covers(q, addr)
             && forall r :: Live(ops, answers, i, false, r) ==> !Covers(r, addr))
  }

  ghost predicate Lawful(ops: seq<Op>, answers: seq<Answer>, i: int)
    requires 0 <= i < |ops| == |answers|
  {
    match ops[i]
    case Register(_, _, _) => RegisterLaw(ops, answers, i)
    case Unregister(_, _) => UnregisterLaw(ops, answers, i)
    case Access(_) => AccessLaw(ops, answers, i)
  }

  // ---- names and addresses -------------------------------------------------------------------

  // The character at a position, none from the terminator on
  function CharAt(s: string, k: int): Option<char> { if 0 <= k < |s| then Some(s[k]) else None }

  lemma SameNameMeans(a: string, b: string)
    ensures SameName(a, b) <==> forall k :: 0 <= k < 80 ==> CharAt(a, k) == CharAt(b, k)
  {
    var x, y := if |a| <= 80 then a else a[..80], if |b| <= 80 then b else b[..80];
    if SameName(a, b) {
      forall k | 0 <= k < 80 ensures CharAt(a, k) == CharAt(b, k) {
        assert k < |x| ==> x[k] == y[k];
      }
    }
    if forall k :: 0 <= k < 80 ==> CharAt(a, k) == CharAt(b, k) {
      assert |x| == |y| by {
        assert |x| < |y| ==> CharAt(a, |x|) == CharAt(b, |x|);
        assert |y| < |x| ==> CharAt(a, |y|) == CharAt(b, |y|);
      }
      forall k | 0 <= k < |x| ensures x[k] == y[k] { assert CharAt(a, k) == CharAt(b, k); }
      assert x == y;
    }
  }

  // A range holds the addresses from its base on, as many as its size.
  lemma CoversMeans(r: MemRange, addr: int)
    requires r.Proper() && r.size > 0
    ensures Covers(r, addr) <==> r.base <= addr < r.base + r.size
  {
  }

  // Ranges that are not empty clash if and only if they share an address.
  lemma ClashMeans(r: MemRange, q: MemRange)
    requires !Empty(r) && !Empty(q)
    ensures Clash(r, q) <==> exists a :: Covers(r, a) && Covers(q, a)
  {
    if Clash(r, q) {
      var a := if r.base < q.base then q.base else r.base;
      assert Covers(r, a) && Covers(q, a);
    }
  }

  // ---- the sets of the specification are the live ranges -------------------------------------

  function InTree(st: Spec, fb: bool): set<MemRange> { if fb then st.fallback else st.root }

  ghost function State(ops: seq<Op>): Spec { SpecRun(Spec({}, {}), ops).0 }

  ghost function Answers(ops: seq<Op>): seq<Answer> { SpecRun(Spec({}, {}), ops).1 }

  lemma {:induction false} Prefix(ops: seq<Op>, n: int)
    requires 0 <= n <= |ops|
    ensures |Answers(ops)| == |ops| && Answers(ops[..n]) == Answers(ops)[..n]
    decreases |ops|
  {
    if ops != [] {
      var m := |ops| - 1;
      Prefix(ops[..m], if n < m then n else m);
      if n == |ops| {
        assert ops[..n] == ops;
      } else {
        assert ops[..m][..n] == ops[..n];
      }
    }
  }

  lemma StepIs(ops: seq<Op>, i: int)
    requires 0 <= i < |ops|
    ensures |Answers(ops)| == |ops| && (State(ops[..i + 1]), Answers(ops)[i]) == SpecStep(State(ops[..i]), ops[i])
  {
    Prefix(ops, i + 1);
    Prefix(ops[..i + 1], i);
    assert ops[..i + 1][..i] == ops[..i];
    assert Answers(ops[..i + 1])[i] == Answers(ops)[i];
  }

  lemma HolderOf(s: set<MemRange>, q: MemRange)
    requires Disjoint(s) && q in s && !Empty(q)
    ensures Holder(s, q.base) == Some(q)
  {
    var h := Holder(s, q.base);
    assert Covers(q, q.base);
    assert h.Some? && h.value != q ==> Clash(h.value, q);
  }

  // What one call does to membership, by its answer
  lemma StepMember(ops: seq<Op>, i: int, fb: bool, q: MemRange)
    requires 0 <= i < |ops|
    ensures |Answers(ops)| == |ops|
    ensures q in InTree(State(ops[..i + 1]), fb) <==>
            || Adds(ops, Answers(ops), i, fb, q)
            || (q in InTree(State(ops[..i]), fb) && (Empty(q) || !Removes(ops, Answers(ops), i, fb, q.base)))
  {
    StepIs(ops, i);
    var st := State(ops[..i]);
    RunDisjoint(Spec({}, {}), ops[..i]);
    if ops[i].Unregister? && ops[i].fromFallback == fb && q in InTree(st, fb) && !Empty(q) {
      HolderOf(InTree(st, fb), q);
    }
  }

  lemma LiveStep(ops: seq<Op>, answers: seq<Answer>, n: int, fb: bool, q: MemRange)
    requires 0 < n
    ensures Live(ops, answers, n, fb, q) <==>
            || Adds(ops, answers, n - 1, fb, q)
            || (Live(ops, answers, n - 1, fb, q) && (Empty(q) || !Removes(ops, answers, n - 1, fb, q.base)))
  {
    if Adds(ops, answers, n - 1, fb, q) {
      assert LiveSince(ops, answers, n - 1, n, fb, q);
    }
    if Live(ops, answers, n, fb, q) && !Adds(ops, answers, n - 1, fb, q) {
      var i :| LiveSince(ops, answers, i, n, fb, q);
      assert LiveSince(ops, answers, i, n - 1, fb, q);
    }
    if Live(ops, answers, n - 1, fb, q) && (Empty(q) || !Removes(ops, answers, n - 1, fb, q.base)) {
      var i :| LiveSince(ops, answers, i, n - 1, fb, q);
      assert LiveSince(ops, answers, i, n, fb, q);
    }
  }

  // A range is in a tree if and only if it was registered there and not unregistered since.
  lemma {:induction false} Membership(ops: seq<Op>, n: int, fb: bool, q: MemRange)
    requires 0 <= n <= |ops|
    ensures q in InTree(State(ops[..n]), fb) <==> Live(ops, Answers(ops), n, fb, q)
    decreases n
  {
    if n > 0 {
      Membership(ops, n - 1, fb, q);
      StepMember(ops, n - 1, fb, q);
      LiveStep(ops, Answers(ops), n, fb, q);
    }
  }

  // ---- every call is lawful ------------------------------------------------------------------

  lemma RegisterIsLawful(ops: seq<Op>, i: int)
    requires 0 <= i < |ops| == |Answers(ops)| && ops[i].Register?
    ensures RegisterLaw(ops, Answers(ops), i)
  {
    var r, fb, s := ops[i].range, ops[i].toFallback, InTree(State(ops[..i]), ops[i].toFallback);
    StepIs(ops, i);
    forall q ensures q in s <==> Live(ops, Answers(ops), i, fb, q) { Membership(ops, i, fb, q); }
    assert Room(s, r) <==> forall q :: Live(ops, Answers(ops), i, fb, q) ==> !Clash(q, r) && !Covers(q, r.base) by {
      if Room(s, r) {
        forall q | Live(ops, Answers(ops), i, fb, q) ensures !Clash(q, r) && !Covers(q, r.base) { assert q in s; }
      }
    }
  }

  lemma UnregisterIsLawful(ops: seq<Op>, i: int)
    requires 0 <= i < |ops| == |Answers(ops)| && ops[i].Unregister?
    ensures UnregisterLaw(ops, Answers(ops), i)
  {
    var p, fb, s := ops[i].range, ops[i].fromFallback, InTree(State(ops[..i]), ops[i].fromFallback);
    StepIs(ops, i);
    RunDisjoint(Spec({}, {}), ops[..i]);
    var h := Holder(s, p.base);
    if h.Some? {
      SameNameMeans(h.value.name, p.name);
      Membership(ops, i, fb, h.value);
    }
    forall q | Live(ops, Answers(ops), i, fb, q) && !Empty(q) && Matches(q, p)
      ensures h == Some(q) && Removable(q, p)
    {
      Membership(ops, i, fb, q);
      HolderOf(s, q);
      SameNameMeans(q.name, p.name);
    }
  }

  lemma AccessIsLawful(ops: seq<Op>, i: int)
    requires 0 <= i < |ops| == |Answers(ops)| && ops[i].Access?
    ensures AccessLaw(ops, Answers(ops), i)
  {
    var addr, st := ops[i].addr, State(ops[..i]);
    StepIs(ops, i);
    forall q ensures q in st.root <==> Live(ops, Answers(ops), i, false, q) { Membership(ops, i, false, q); }
    forall q ensures q in st.fallback <==> Live(ops, Answers(ops), i, true, q) { Membership(ops, i, true, q); }
    forall q ensures Answers(ops)[i].entry == Some(q) <==>
         || (Live(ops, Answers(ops), i, false, q) && Covers(q, addr))
         || (Live(ops, Answers(ops), i, true, q) && Covers(q, addr)
             && forall r :: Live(ops, Answers(ops), i, false, r) ==> !Covers(r, addr))
    {
      RunSelects(ops[..i], addr, q);
      assert (forall r :: r in st.root ==> !Covers(r, addr)) <==>
             (forall r :: Live(ops, Answers(ops), i, false, r) ==> !Covers(r, addr));
    }
  }

  // The hinted pair of red-black trees answers every history of calls lawfully.
  method Serve(ops: seq<Op>) returns (answers: seq<Answer>)
    requires forall i :: 0 <= i < |ops| && ops[i].Register? ==> ops[i].range.Proper()
    ensures |answers| == |ops| && forall i :: 0 <= i < |ops| ==> Lawful(ops, answers, i)
  {
    answers := Replay(ops);
    Prefix(ops, 0);
    forall i | 0 <= i < |ops| ensures Lawful(ops, answers, i) {
      match ops[i]
      case Register(_, _, _) => RegisterIsLawful(ops, i);
      case Unregister(_, _) => UnregisterIsLawful(ops, i);
      case Access(_) => AccessIsLawful(ops, i);
    }
  }
}
