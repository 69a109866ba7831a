// The MMIO range registry of devicemodel/core/mem.c: two red-black trees of
// disjoint ranges behind a one-entry lookup hint.
module Mmio {
  import opened Options
  import opened RbShape
  import RbTree

  const MEMNAMESZ := 80
  const MEM_F_IMMUTABLE: bv32 := 0x4

  predicate Covers(r: MemRange, addr: int) { r.base <= addr <= r.End() }

  // The ranges share an address, or an empty one lies strictly inside the other.
  predicate Clash(r: MemRange, q: MemRange)
  { r.base <= q.End() && q.base <= r.End() }

  // No range of s stands in the way of r: none clashes with it or holds its first address.
  ghost predicate Room(s: set<MemRange>, r: MemRange)
  { forall q :: q in s ==> !Clash(q, r) && !Covers(q, r.base) }

  // strncmp(a, b, MEMNAMESZ) == 0
  predicate SameName(a: string, b: string)
  {
    (if |a| <= MEMNAMESZ then a else a[..MEMNAMESZ]) == (if |b| <= MEMNAMESZ then b else b[..MEMNAMESZ])
  }

  // The registered range q may be unregistered by the request r.
  predicate Removable(q: MemRange, r: MemRange)
  { SameName(q.name, r.name) && q.base == r.base && q.size == r.size && q.flags & MEM_F_IMMUTABLE == 0 }

  // ---- specification: a plain set of ranges per tree ------------------------------

  datatype Spec = Spec(root: set<MemRange>, fallback: set<MemRange>)

  datatype Op =
    | Register(toFallback: bool, range: MemRange, mallocOk: bool)
    | Unregister(fromFallback: bool, range: MemRange)
    | Access(addr: int)

  datatype Answer = Status(err: int) | Selected(entry: Option<MemRange>)

  ghost function Holder(s: set<MemRange>, addr: int): (r: Option<MemRange>)
    ensures r.Some? ==> r.value in s && Covers(r.value, addr)
    ensures r.None? ==> forall q :: q in s ==> !Covers(q, addr)
  {
    if exists q :: q in s && Covers(q, addr) then (var q :| q in s && Covers(q, addr); Some(q)) else None
  }

  ghost function AddTo(s: set<MemRange>, r: MemRange, mallocOk: bool): (set<MemRange>, int)
  {
    if mallocOk && Room(s, r) then (s + {r}, 0) else (s, -1)
  }

  ghost function RemoveFrom(s: set<MemRange>, r: MemRange): (set<MemRange>, int)
  {
    var q := Holder(s, r.base);
    if q.Some? && Removable(q.value, r) then (s - {q.value}, 0) else (s, -1)
  }

  ghost function SpecStep(st: Spec, op: Op): (Spec, Answer)
  {
    match op
    case Register(fb, r, ok) =>
      if fb then (var (s, e) := AddTo(st.fallback, r, ok); (st.(fallback := s), Status(e)))
      else (var (s, e) := AddTo(st.root, r, ok); (st.(root := s), Status(e)))
    case Unregister(fb, r) =>
      if fb then (var (s, e) := RemoveFrom(st.fallback, r); (st.(fallback := s), Status(e)))
      else (var (s, e) := RemoveFrom(st.root, r); (st.(root := s), Status(e)))
    case Access(a) =>
      var q := Holder(st.root, a);
      (st, Selected(if q.Some? then q else Holder(st.fallback, a)))
  }

  ghost function SpecRun(st: Spec, ops: seq<Op>): (Spec, seq<Answer>)
  {
    if ops == [] then (st, [])
    else
      var (st1, as1) := SpecRun(st, ops[..|ops| - 1]);
      var (st2, a) := SpecStep(st1, ops[|ops| - 1]);
      (st2, as1 + [a])
  }

  // ---- the nodes of a tree as a set of ranges ----------------------------------------

  // The node holds the bounds of its range.
  predicate SaneNode(n: Node) { n.base == n.param.base && n.end == n.param.End() }

  ghost predicate Sane(order: seq<Node>)
  { Spread(order) && forall i :: 0 <= i < |order| ==> SaneNode(order[i]) }

  ghost function Ranges(order: seq<Node>): set<MemRange>
  { set i | 0 <= i < |order| :: order[i].param }

  lemma HolderIs(order: seq<Node>, n: Node, addr: int)
    requires Sane(order) && n in order && Overlaps(n, addr, addr)
    ensures Holder(Ranges(order), addr) == Some(n.param)
  {
    var i :| 0 <= i < |order| && order[i] == n;
    var s := Ranges(order);
    assert order[i].param in s && Covers(n.param, addr);
    var q := Holder(s, addr);
    assert q.Some?;
    var j :| 0 <= j < |order| && order[j].param == q.value;
    assert i == j;
  }

  lemma HolderIsNone(order: seq<Node>, addr: int)
    requires Sane(order) && forall i :: 0 <= i < |order| ==> !Overlaps(order[i], addr, addr)
    ensures Holder(Ranges(order), addr) == None
  {
  }

  lemma RangesInsert(order: seq<Node>, elm: Node, pos: int)
    requires 0 <= pos <= |order|
    ensures Ranges(order[..pos] + [elm] + order[pos..]) == Ranges(order) + {elm.param}
  {
    var t := order[..pos] + [elm] + order[pos..];
    assert t[pos] == elm;
    forall i | 0 <= i < |order| ensures order[i].param in Ranges(t) {
      assert t[if i < pos then i else i + 1] == order[i];
    }
    forall j | 0 <= j < |t| ensures t[j].param in Ranges(order) + {elm.param} {
      assert j != pos ==> t[j] == order[if j < pos then j else j - 1];
    }
  }

  lemma RangesRemove(order: seq<Node>, i: int)
    requires Sane(order) && 0 <= i < |order| && order[i].base <= order[i].end
    ensures Ranges(order[..i] + order[i + 1..]) == Ranges(order) - {order[i].param}
    ensures Sane(order[..i] + order[i + 1..])
  {
    var t := order[..i] + order[i + 1..];
    forall j | 0 <= j < |t| ensures t[j] == order[if j < i then j else j + 1] {
    }
    forall q | q in Ranges(order) && q != order[i].param ensures q in Ranges(t) {
      var k :| 0 <= k < |order| && order[k].param == q;
      assert t[if k < i then k else k - 1] == order[k];
    }
  }

  lemma KeptOrder(order: seq<Node>, i: int)
    requires 0 <= i < |order|
    ensures forall n :: n in order && n != order[i] ==> n in order[..i] + order[i + 1..]
  {
    var t := order[..i] + order[i + 1..];
    forall n | n in order && n != order[i] ensures n in t {
      var k :| 0 <= k < |order| && order[k] == n;
      assert t[if k < i then k else k - 1] == n;
    }
  }

  lemma RoomTaken(order: seq<Node>, n: Node, mrp: Node, last: int)
    requires Sane(order) && n in order && SaneNode(mrp)
    requires (last == mrp.base || last == mrp.end) && Overlaps(n, mrp.base, last)
    ensures !Room(Ranges(order), mrp.param)
  {
    var i :| 0 <= i < |order| && order[i] == n;
    assert order[i].param in Ranges(order) && SaneNode(n);
    assert Clash(n.param, mrp.param) || Covers(n.param, mrp.param.base);
  }

  lemma RoomFree(order: seq<Node>, mrp: Node)
    requires Sane(order) && SaneNode(mrp)
    requires forall i :: 0 <= i < |order| ==> !Overlaps(order[i], mrp.base, mrp.base)
    requires forall i :: 0 <= i < |order| ==> !Overlaps(order[i], mrp.base, mrp.end)
    ensures Room(Ranges(order), mrp.param)
  {
    forall q | q in Ranges(order) ensures !Clash(q, mrp.param) && !Covers(q, mrp.param.base) {
      var i :| 0 <= i < |order| && order[i].param == q;
      assert SaneNode(order[i]);
    }
  }

  lemma SaneInsert(order: seq<Node>, mrp: Node, pos: int)
    requires Sane(order) && SaneNode(mrp) && 0 <= pos <= |order| && Spread(order[..pos] + [mrp] + order[pos..])
    ensures Sane(order[..pos] + [mrp] + order[pos..])
  {
    var t := order[..pos] + [mrp] + order[pos..];
    forall i | 0 <= i < |t| ensures SaneNode(t[i]) {
      assert i != pos ==> t[i] == order[if i < pos then i else i - 1];
    }
  }

  lemma EndsLate(r: MemRange)
    requires r.Proper()
    ensures r.base <= r.End() + 1
  {
  }

  // For a range that is not empty, room means no shared address.
  lemma RoomMeans(s: set<MemRange>, r: MemRange)
    requires r.base <= r.End()
    ensures Room(s, r) <==> forall q :: q in s ==> !Clash(q, r)
  {
  }

  class Registry {
    var root: RbTree.Head
    var fallback: RbTree.Head
    var hint: Node?

    ghost predicate Valid()
      reads this, root, fallback, root.mem.Keys, fallback.mem.Keys
    {
      && root != fallback && root.mem.Keys !! fallback.mem.Keys
      && root.Valid() && Sane(root.order)
      && fallback.Valid() && Sane(fallback.order)
      && (hint != null ==> hint in root.order)
    }

    ghost function Abs(): Spec
      reads this, root, fallback
    { Spec(Ranges(root.order), Ranges(fallback.order)) }

    // Whatever was registered and unregistered, both trees are at most 2 lg(n + 1) high.
    lemma Shallow()
      requires Valid()
      ensures var t := root.T();
              (t.root != null ==> t.root in t.mem) && Pow2(t.Height(t.root)) <= (|t.order| + 1) * (|t.order| + 1)
      ensures var t := fallback.T();
              (t.root != null ==> t.root in t.mem) && Pow2(t.Height(t.root)) <= (|t.order| + 1) * (|t.order| + 1)
    {
      root.T().HeightBound();
      fallback.T().HeightBound();
    }

    // init_mem, the first time it runs
    constructor ()
      ensures Valid() && Abs() == Spec({}, {}) && fresh(root) && fresh(fallback)
      ensures root.mem == map[] && fallback.mem == map[]
    {
      root := new RbTree.Head();
      fallback := new RbTree.Head();
      hint := null;
    }

    // emulate_mem up to the choice of the range
    method Select(addr: int) returns (entry: Option<MemRange>)
      requires Valid()
      modifies this`hint
      ensures Valid() && (Abs(), Selected(entry)) == SpecStep(old(Abs()), Access(addr))
    {
      if hint != null && addr >= hint.base && addr <= hint.end {
        HolderIs(root.order, hint, addr);
        return Some(hint.param);
      }
      var found := root.Find(addr, addr);
      if found != null {
        HolderIs(root.order, found, addr);
        hint := found;
        return Some(found.param);
      }
      HolderIsNone(root.order, addr);
      found := fallback.Find(addr, addr);
      if found != null {
        HolderIs(fallback.order, found, addr);
        return Some(found.param);
      }
      HolderIsNone(fallback.order, addr);
      return None;
    }

    // mmio_rb_add, once no range holds the first address
    static method AddNode(t: RbTree.Head, mrp: Node) returns (err: int)
      requires t.Valid() && Sane(t.order) && mrp !in t.mem && SaneNode(mrp) && mrp.base <= mrp.end + 1
      requires forall i :: 0 <= i < |t.order| ==> !Overlaps(t.order[i], mrp.base, mrp.base)
      modifies t, t.mem.Keys, mrp
      ensures t.Valid() && Sane(t.order) && t.mem.Keys <= old(t.mem.Keys) + {mrp}
      ensures forall n :: n in old(t.order) ==> n in t.order
      ensures (Ranges(t.order), err) == AddTo(old(Ranges(t.order)), mrp.param, true)
    {
      ghost var order := t.order;
      var overlap, pos := t.Insert(mrp);
      if overlap == null {
        RangesInsert(order, mrp, pos);
        SaneInsert(order, mrp, pos);
        RoomFree(order, mrp);
        err := 0;
      } else {
        RoomTaken(order, overlap, mrp, mrp.end);
        err := -1;
      }
    }

    // register_mem_int
    static method RegisterIn(t: RbTree.Head, r: MemRange, mallocOk: bool) returns (err: int)
      requires t.Valid() && Sane(t.order) && r.Proper()
      modifies t, t.mem.Keys
      ensures t.Valid() && Sane(t.order) && fresh(t.mem.Keys - old(t.mem.Keys))
      ensures forall n :: n in old(t.order) ==> n in t.order
      ensures (Ranges(t.order), err) == AddTo(old(Ranges(t.order)), r, mallocOk)
    {
      err := -1;
      if mallocOk {
        var mrp := new Node(r);
        EndsLate(r);
        var entry := t.Find(r.base, r.base);
        if entry == null {
          err := AddNode(t, mrp);
        } else {
          RoomTaken(t.order, entry, mrp, r.base);
        }
      }
    }

    // unregister_mem_int, without the flush of the hint
    static method UnregisterIn(t: RbTree.Head, r: MemRange) returns (err: int, gone: Node?)
      requires t.Valid() && Sane(t.order)
      modifies t, t.mem.Keys
      ensures t.Valid() && Sane(t.order) && t.mem.Keys <= old(t.mem.Keys)
      ensures forall n :: n in old(t.order) && n != gone ==> n in t.order
      ensures (Ranges(t.order), err) == RemoveFrom(old(Ranges(t.order)), r)
    {
      gone := null;
      var entry := t.Find(r.base, r.base);
      if entry == null {
        HolderIsNone(t.order, r.base);
        return -1, null;
      }
      HolderIs(t.order, entry, r.base);
      if !Removable(entry.param, r) {
        return -1, null;
      }
      RemoveNode(t, entry);
      return 0, entry;
    }

    // RB_REMOVE of a node that was found takes exactly its range out.
    static method RemoveNode(t: RbTree.Head, entry: Node)
      requires t.Valid() && Sane(t.order) && entry in t.order && entry.base <= entry.end
      modifies t, t.mem.Keys
      ensures t.Valid() && Sane(t.order) && t.mem.Keys <= old(t.mem.Keys)
      ensures forall n :: n in old(t.order) && n != entry ==> n in t.order
      ensures Ranges(t.order) == old(Ranges(t.order)) - {entry.param}
    {
      ghost var order, i := t.order, t.mem[entry].idx;
      t.Remove(entry);
      RangesRemove(order, i);
      KeptOrder(order, i);
    }

    // register_mem, register_mem_fallback
    method Register(toFallback: bool, r: MemRange, mallocOk: bool) returns (err: int)
      requires Valid() && r.Proper()
      modifies root, fallback, root.mem.Keys, fallback.mem.Keys
      ensures Valid() && (Abs(), Status(err)) == SpecStep(old(Abs()), Op.Register(toFallback, r, mallocOk))
      ensures fresh(root.mem.Keys - old(root.mem.Keys)) && fresh(fallback.mem.Keys - old(fallback.mem.Keys))
    {
      if toFallback {
        err := RegisterIn(fallback, r, mallocOk);
      } else {
        err := RegisterIn(root, r, mallocOk);
      }
    }

    // unregister_mem
    method UnregisterRoot(r: MemRange) returns (err: int)
      requires Valid()
      modifies root, root.mem.Keys, this`hint
      ensures Valid() && (Abs(), Status(err)) == SpecStep(old(Abs()), Op.Unregister(false, r))
      ensures root.mem.Keys <= old(root.mem.Keys)
    {
      var gone;
      err, gone := UnregisterIn(root, r);
      Flush(gone);
    }

    // unregister_mem_fallback
    method UnregisterFallback(r: MemRange) returns (err: int)
      requires Valid()
      modifies fallback, fallback.mem.Keys, this`hint
      ensures Valid() && (Abs(), Status(err)) == SpecStep(old(Abs()), Op.Unregister(true, r))
      ensures fallback.mem.Keys <= old(fallback.mem.Keys)
    {
      var gone;
      err, gone := UnregisterIn(fallback, r);
      Flush(gone);
    }

    // The hint must not outlive its node.
    method Flush(gone: Node?)
      modifies this`hint
      ensures hint == if gone != null && old(hint) == gone then null else old(hint)
    {
      if gone != null && hint == gone {
        hint := null;
      }
    }

    method Unregister(fromFallback: bool, r: MemRange) returns (err: int)
      requires Valid()
      modifies root, fallback, root.mem.Keys, fallback.mem.Keys, this`hint
      ensures Valid() && (Abs(), Status(err)) == SpecStep(old(Abs()), Op.Unregister(fromFallback, r))
      ensures root.mem.Keys <= old(root.mem.Keys) && fallback.mem.Keys <= old(fallback.mem.Keys)
    {
      if fromFallback {
        err := UnregisterFallback(r);
      } else {
        err := UnregisterRoot(r);
      }
    }
  }

  // One call, whichever it is.
  method Call(reg: Registry, op: Op) returns (a: Answer)
    requires reg.Valid() && (op.Register? ==> op.range.Proper())
    modifies reg`hint, reg.root, reg.fallback, reg.root.mem.Keys, reg.fallback.mem.Keys
    ensures reg.Valid() && (reg.Abs(), a) == SpecStep(old(reg.Abs()), op)
    ensures fresh(reg.root.mem.Keys - old(reg.root.mem.Keys)) &&
            fresh(reg.fallback.mem.Keys - old(reg.fallback.mem.Keys))
  {
    match op {
      case Register(fb, r, ok) =>
        var err := reg.Register(fb, r, ok);
        a := Status(err);
      case Unregister(fb, r) =>
        var err := reg.Unregister(fb, r);
        a := Status(err);
      case Access(addr) =>
        var entry := reg.Select(addr);
        a := Selected(entry);
    }
  }

  ghost predicate Disjoint(s: set<MemRange>)
  { forall q, r :: q in s && r in s && q != r ==> !Clash(q, r) }

  // Unregistering undoes a registration if and only if the range is not empty and not
  // immutable.
  lemma Undone(s: set<MemRange>, r: MemRange)
    requires r.Proper() && Room(s, r)
    ensures AddTo(s, r, true) == (s + {r}, 0)
    ensures RemoveFrom(s + {r}, r) == (s, 0) <==> r.base <= r.End() && r.flags & MEM_F_IMMUTABLE == 0
  {
    var q := Holder(s + {r}, r.base);
    if r.base <= r.End() {
      assert r in s + {r} && Covers(r, r.base);
      assert q.Some? && q.value == r;
    }
  }

  // An empty range that is registered is selected by no address and removed by no call.
  lemma EmptyStays(s: set<MemRange>, r: MemRange, q: MemRange, addr: int)
    requires r in s && r.base > r.End()
    ensures Holder(s, addr) != Some(r) && r in RemoveFrom(s, q).0
  {
  }

  lemma EmptyNotUndone()
    ensures var r := MemRange("", 0, 16, 0);
      r.Proper() && Room({}, r) && RemoveFrom({r}, r) == ({r}, -1)
  {
    var r := MemRange("", 0, 16, 0);
    Undone({}, r);
    assert {} + {r} == {r};
    EmptyStays({r}, r, r, 16);
    assert RemoveFrom({r}, r).0 != {};
  }

  // Whatever is registered, unregistered and looked up, neither tree ever holds
  // two ranges that share an address.
  lemma {:induction false} RunDisjoint(st: Spec, ops: seq<Op>)
    requires Disjoint(st.root) && Disjoint(st.fallback)
    ensures var st' := SpecRun(st, ops).0; Disjoint(st'.root) && Disjoint(st'.fallback)
  {
    if ops != [] {
      RunDisjoint(st, ops[..|ops| - 1]);
    }
  }

  // So an access selects the one root range that holds the address; if there is
  // none, the one fallback range; if there is none either, nothing.
  lemma RunSelects(ops: seq<Op>, addr: int, q: MemRange)
    ensures var st := SpecRun(Spec({}, {}), ops).0;
            SpecStep(st, Access(addr)).1 == Selected(Some(q)) <==>
              || (q in st.root && Covers(q, addr))
              || (q in st.fallback && Covers(q, addr) && forall r :: r in st.root ==> !Covers(r, addr))
  {
    RunDisjoint(Spec({}, {}), ops);
    var st := SpecRun(Spec({}, {}), ops).0;
    var a, b := Holder(st.root, addr), Holder(st.fallback, addr);
    assert a.Some? && q in st.root && Covers(q, addr) ==> a.value == q by {
      assert a.Some? && q in st.root && Covers(q, addr) && a.value != q ==> Clash(a.value, q);
    }
    assert b.Some? && q in st.fallback && Covers(q, addr) ==> b.value == q by {
      assert b.Some? && q in st.fallback && Covers(q, addr) && b.value != q ==> Clash(b.value, q);
    }
  }

  // One more call of the history
  method Continue(reg: Registry, ops: seq<Op>, i: int, before: seq<Answer>) returns (answers: seq<Answer>)
    requires 0 <= i < |ops| && (ops[i].Register? ==> ops[i].range.Proper())
    requires reg.Valid() && (reg.Abs(), before) == SpecRun(Spec({}, {}), ops[..i])
    modifies reg`hint, reg.root, reg.fallback, reg.root.mem.Keys, reg.fallback.mem.Keys
    ensures reg.Valid() && (reg.Abs(), answers) == SpecRun(Spec({}, {}), ops[..i + 1])
    ensures fresh(reg.root.mem.Keys - old(reg.root.mem.Keys)) &&
            fresh(reg.fallback.mem.Keys - old(reg.fallback.mem.Keys))
  {
    assert ops[..i + 1][..i] == ops[..i];
    var a := Call(reg, ops[i]);
    answers := before + [a];
  }

  // The first n calls of a history
  method ReplayOn(reg: Registry, ops: seq<Op>, n: int) returns (answers: seq<Answer>)
    requires 0 <= n <= |ops| && reg.Valid() && reg.Abs() == Spec({}, {})
    requires forall i :: 0 <= i < n && ops[i].Register? ==> ops[i].range.Proper()
    modifies reg`hint, reg.root, reg.fallback, reg.root.mem.Keys, reg.fallback.mem.Keys
    ensures reg.Valid() && (reg.Abs(), answers) == SpecRun(Spec({}, {}), ops[..n])
    ensures fresh(reg.root.mem.Keys - old(reg.root.mem.Keys)) &&
            fresh(reg.fallback.mem.Keys - old(reg.fallback.mem.Keys))
    decreases n
  {
    answers := [];
    if n > 0 {
      answers := ReplayOn(reg, ops, n - 1);
      answers := Continue(reg, ops, n - 1, answers);
    }
  }

  // Every history of calls on the hinted pair of red-black trees gets the answers
  // of the plain sets.
  method Replay(ops: seq<Op>) returns (answers: seq<Answer>)
    requires forall i :: 0 <= i < |ops| && ops[i].Register? ==> ops[i].range.Proper()
    ensures answers == SpecRun(Spec({}, {}), ops).1
  {
    var reg := new Registry();
    answers := ReplayOn(reg, ops, |ops|);
    assert ops[..|ops|] == ops;
  }
}
