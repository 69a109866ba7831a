// The shape of the red-black trees that devicemodel/include/tree.h builds: what a well-formed
// tree is, and what each rewriting step of insertion and removal does to it.  A tree is taken
// as a value here, a map from nodes to the contents of their fields, together with the
// sequence of nodes it stands for; RbTree changes the fields of real nodes in place.
module RbShape {
  datatype Color = Red | Black

  datatype Side = L | R {
    function Flip(): Side { if this == L then R else L }
  }

  // What register_mem is given.  The last address is computed in 64 bits, so an empty range at
  // address 0 ends at the top; any other empty range ends before it begins.
  datatype MemRange = MemRange(name: string, flags: bv32, base: int, size: int) {
    function End(): int { if base + size == 0 then 0xFFFF_FFFF_FFFF_FFFF else base + size - 1 }

    // 64-bit fields, and the range does not wrap around
    predicate Proper() { 0 <= base && 0 <= size && base + size <= 0x1_0000_0000_0000_0000 }
  }

  class Node {
    const param: MemRange
    const base: int
    const end: int
    var left: Node?
    var right: Node?
    var parent: Node?
    var color: Color

    constructor (param: MemRange)
      ensures this.param == param && base == param.base && end == param.End()
    {
      this.param, base, end := param, param.base, param.End();
      left, right, parent, color := null, null, null, Red;
    }

    function Kid(s: Side): Node?
      reads this
    { if s == L then left else right }
  }

  // What a node holds, and where it stands: its subtree covers lo..hi of the sequence, the node
  // itself is at idx, and bh black nodes lie on every way down, the node included.
  datatype Cell = Cell(left: Node?, right: Node?, parent: Node?, color: Color,
                       lo: int, idx: int, hi: int, bh: int)
  {
    function Kid(s: Side): Node? { if s == L then left else right }
    function With(s: Side, k: Node?): Cell { if s == L then this.(left := k) else this.(right := k) }
    function From(s: Side): int { if s == L then lo else idx + 1 }
    function To(s: Side): int { if s == L then idx else hi }
    // Positions after a new node was placed at pos, next to the node at place.
    function Up(place: int, pos: int): Cell {
      this.(lo := if lo > place then lo + 1 else lo,
            hi := if hi > place then hi + 1 else hi,
            idx := if idx >= pos then idx + 1 else idx)
    }
    // Positions after the node at pos went away.
    function Down(pos: int): Cell {
      this.(lo := Cut(lo, pos), hi := Cut(hi, pos), idx := Cut(idx, pos))
    }

    lemma DownSpan(pos: int, d: Side)
      requires idx != pos
      ensures Down(pos).From(d) == Cut(From(d), pos) && Down(pos).To(d) == Cut(To(d), pos)
    {
    }
  }

  function Cut(v: int, pos: int): int { if v > pos then v - 1 else v }

  type Mem = map<Node, Cell>

  // What may be wrong while the colours are repaired: elm and its parent are both red, or the
  // subtree low on one side of par is one black node short.
  datatype Flaw =
    | Fine
    | RedRed(elm: Node)
    | Short(par: Node?, side: Side, low: Node?)
  {
    function Lack(): Side { if Short? then side else L }
    predicate At(n: Node) { Short? && n == par }
  }

  // A rotation of elm towards side s: tmp is the kid that comes up, b the
  // grandkid that changes hands, p the parent above.  The pair ends up with
  // the given colours and black heights.
  datatype Turn = Turn(elm: Node, s: Side, tmp: Node, b: Node?, p: Node?,
                       ec: Color, eh: int, tc: Color, th: int)

  // mmio_rb_range_compare
  function Compare(base: int, end: int, b: Node): int
  { if end < b.base then -1 else if base > b.end then 1 else 0 }

  predicate Overlaps(n: Node, base: int, end: int)
  { base <= n.end && n.base <= end }

  // A sequence of ranges, empty ones among them, in ascending order, no two of which touch the
  // same address.
  ghost predicate Spread(order: seq<Node>)
  {
    && (forall i :: 0 <= i < |order| ==> order[i].base <= order[i].end + 1)
    && (forall i, j :: 0 <= i < j < |order| ==> order[i].end < order[j].base)
  }

  // Everything left of lo is below [base, end], everything from hi on above it.
  ghost predicate Between(order: seq<Node>, lo: int, hi: int, base: int, end: int)
  {
    && 0 <= lo <= hi <= |order|
    && (forall i :: 0 <= i < lo ==> order[i].end < base)
    && (forall i :: hi <= i < |order| ==> end < order[i].base)
  }

  lemma SpreadInsert(order: seq<Node>, elm: Node, pos: int)
    requires Spread(order) && elm.base <= elm.end + 1 && Between(order, pos, pos, elm.base, elm.end)
    ensures Spread(order[..pos] + [elm] + order[pos..])
  {
    var s := order[..pos] + [elm] + order[pos..];
    forall i, j | 0 <= i < j < |s| ensures s[i].end < s[j].base {
      var a, b := if i < pos then i else i - 1, if j < pos then j else j - 1;
      assert i != pos ==> s[i] == order[a];
      assert j != pos ==> s[j] == order[b];
    }
  }

  datatype Tree = Tree(root: Node?, mem: Mem, order: seq<Node>) {

    // The kid of n on side s points back and covers its part of the sequence.
    ghost predicate KidOk(n: Node, s: Side)
      requires n in mem
    {
      var c := mem[n];
      var k := c.Kid(s);
      if k == null then c.From(s) == c.To(s)
      else k in mem && mem[k].parent == n && mem[k].lo == c.From(s) && mem[k].hi == c.To(s)
    }

    ghost predicate Placed(n: Node)
      requires n in mem
    {
      var c := mem[n];
      0 <= c.lo <= c.idx < c.hi <= |order| && order[c.idx] == n
    }

    ghost predicate Hung(n: Node)
      requires n in mem
    {
      var c := mem[n];
      if c.parent == null then n == root && c.lo == 0 && c.hi == |order|
      else c.parent in mem && (mem[c.parent].left == n || mem[c.parent].right == n)
    }

    ghost predicate Linked(n: Node)
    {
      n in mem && Placed(n) && KidOk(n, L) && KidOk(n, R) && Hung(n)
    }

    ghost predicate Ordered()
    {
      && (forall i :: 0 <= i < |order| ==> order[i] in mem && mem[order[i]].idx == i)
      && (root == null ==> order == [])
      && (root != null ==> root in mem && mem[root].parent == null)
    }

    ghost function BH(k: Node?): int
    { if k != null && k in mem then mem[k].bh else 0 }

    ghost predicate IsRed(k: Node?)
    { k != null && k in mem && mem[k].color == Red }

    ghost predicate IsBlack(k: Node?)
    { k != null && k in mem && mem[k].color == Black }

    ghost predicate Excused(n: Node, k: Node?, f: Flaw)
    {
      match f
      case Fine => false
      case RedRed(e) => k == e
      case Short(_, _, e) => k == e || n == e
    }

    ghost predicate NoRedKid(n: Node)
      requires n in mem
    { !IsRed(mem[n].left) && !IsRed(mem[n].right) }

    // n is painted correctly, no red-red edge leaves it, and it is missing as
    // much under f' as under f.
    ghost predicate Quiet(n: Node, f: Flaw, f': Flaw)
    {
      && Painted(n, f)
      && (mem[n].color == Red ==> NoRedKid(n))
      && f.At(n) == f'.At(n) && (f.At(n) ==> f.side == f'.side)
    }

    // Black heights agree at n and no red-red edge leaves it, but for the flaw.
    ghost predicate Painted(n: Node, f: Flaw)
    {
      && n in mem
      && var c := mem[n];
      && BH(c.Kid(f.Lack())) + (if f.At(n) then 1 else 0) == BH(c.Kid(f.Lack().Flip()))
      && 0 <= c.bh == BH(c.Kid(f.Lack().Flip())) + (if c.color == Black then 1 else 0)
      && (c.color == Red && IsRed(c.left) ==> Excused(n, c.left, f))
      && (c.color == Red && IsRed(c.right) ==> Excused(n, c.right, f))
    }

    // A red-black tree, but for the flaw; the colour of the root is left open.
    ghost predicate Sound(f: Flaw)
    {
      && Ordered()
      && (forall n {:trigger Linked(n)} :: n in mem ==> Linked(n))
      && (forall n {:trigger Painted(n, f)} :: n in mem ==> Painted(n, f))
    }

    // ---- rotation -------------------------------------------------------

    ghost predicate Around(r: Turn)
    {
      && Linked(r.elm) && mem[r.elm].Kid(r.s.Flip()) == r.tmp && mem[r.elm].parent == r.p
      && Linked(r.tmp) && mem[r.tmp].Kid(r.s) == r.b
      && (r.b != null ==> Linked(r.b))
      && (r.p != null ==> Linked(r.p))
    }

    ghost predicate Spun(r: Turn, t: Tree)
    {
      && r.elm in mem && r.tmp in mem
      && t.order == order
      && t.mem.Keys == mem.Keys
      && (var e, c := mem[r.elm], mem[r.tmp];
          && t.mem[r.elm] == e.With(r.s.Flip(), r.b).(parent := r.tmp, color := r.ec, bh := r.eh,
                                                      lo := if r.s == L then e.lo else c.idx + 1,
                                                      hi := if r.s == L then c.idx else e.hi)
          && t.mem[r.tmp] == c.With(r.s, r.elm).(parent := r.p, color := r.tc, bh := r.th,
                                                 lo := e.lo, hi := e.hi))
      && (r.b != null ==> r.b in mem && t.mem[r.b] == mem[r.b].(parent := r.elm))
      && (if r.p == null then t.root == r.tmp
          else && t.root == root && r.p in mem
               && t.mem[r.p] == mem[r.p].With(if mem[r.p].left == r.elm then L else R, r.tmp))
      && (forall n :: n in mem && n != r.elm && n != r.tmp && n != r.b && n != r.p ==> t.mem[n] == mem[n])
    }

    ghost predicate Apart(r: Turn)
    {
      && r.elm in mem && r.tmp in mem && r.elm != r.tmp
      && (r.b != null ==> r.b in mem && r.b != r.elm && r.b != r.tmp && r.b != r.p)
      && (r.p != null ==> r.p in mem && r.p != r.elm && r.p != r.tmp)
    }

    lemma AroundApart(r: Turn)
      requires Around(r)
      ensures Apart(r)
    {
      assert KidOk(r.elm, r.s.Flip()) && KidOk(r.tmp, r.s);
      if r.p != null {
        assert KidOk(r.p, L) && KidOk(r.p, R);
      }
    }

    function SideOf(p: Node?, k: Node): Side
    { if p != null && p in mem && mem[p].left == k then L else R }

    // Below p, or at the root, now takes the place of was.
    ghost function Rehung(p: Node?, was: Node, now: Node?): Tree
      requires p != null ==> p in mem
    { if p == null then this.(root := now) else this.(mem := mem[p := mem[p].With(SideOf(p, was), now)]) }

    ghost function Reparented(k: Node?, p: Node?): Tree
      requires k != null ==> k in mem
    { if k == null then this else this.(mem := mem[k := mem[k].(parent := p)]) }

    ghost function Rekidded(n: Node, s: Side, k: Node?): Tree
      requires n in mem
    { this.(mem := mem[n := mem[n].With(s, k)]) }

    // The link updates of the rotation macros, in their order.
    ghost function SpinLinks(r: Turn): Tree
      requires Apart(r)
    {
      Rekidded(r.elm, r.s.Flip(), r.b).Reparented(r.b, r.elm).Reparented(r.tmp, r.p)
        .Rehung(r.p, r.elm, r.tmp).Rekidded(r.tmp, r.s, r.elm).Reparented(r.elm, r.tmp)
    }

    // The positions the rotated pair covers.
    ghost function Respanned(r: Turn): Tree
      requires r.elm in mem && r.tmp in mem
    {
      var e, c := mem[r.elm], mem[r.tmp];
      this.(mem := mem[r.tmp := c.(lo := e.lo, hi := e.hi)]
                      [r.elm := e.(lo := if r.s == L then e.lo else c.idx + 1, hi := if r.s == L then c.idx else e.hi)])
    }

    ghost function Spin(r: Turn): Tree
      requires Apart(r)
    { SpinLinks(r).Respanned(r) }

    lemma SpinSpun(r: Turn)
      requires Apart(r)
      requires r.ec == mem[r.elm].color && r.eh == mem[r.elm].bh && r.tc == mem[r.tmp].color && r.th == mem[r.tmp].bh
      ensures Spun(r, Spin(r))
    {
    }

    lemma SpunLinkedPair(r: Turn, t: Tree)
      requires Around(r) && Spun(r, t)
      ensures t.Linked(r.elm) && t.Linked(r.tmp)
    {
    }

    lemma SpunLinkedRim(r: Turn, t: Tree)
      requires Around(r) && Spun(r, t)
      ensures r.b != null ==> t.Linked(r.b)
      ensures r.p != null ==> t.Linked(r.p)
    {
    }

    lemma SpunLinkedFar(r: Turn, t: Tree, n: Node)
      requires Around(r) && Spun(r, t)
      requires Linked(n) && n != r.elm && n != r.tmp && n != r.b && n != r.p
      ensures t.Linked(n)
    {
    }

    lemma SpunLinked(r: Turn, t: Tree, n: Node)
      requires Around(r) && Spun(r, t) && Linked(n)
      ensures t.Linked(n)
    {
      if n == r.elm || n == r.tmp {
        SpunLinkedPair(r, t);
      } else if n == r.b || n == r.p {
        SpunLinkedRim(r, t);
      } else {
        SpunLinkedFar(r, t, n);
      }
    }

    // Seen from above, the kid on side d still has the same colour and black height.
    ghost predicate SameKid(t: Tree, n: Node, d: Side)
      requires n in mem && n in t.mem
    {
      && t.BH(t.mem[n].Kid(d)) == BH(mem[n].Kid(d))
      && t.IsRed(t.mem[n].Kid(d)) == IsRed(mem[n].Kid(d))
    }

    lemma SamePainted(t: Tree, n: Node, f: Flaw, f': Flaw)
      requires n in mem && n in t.mem && t.mem[n].color == mem[n].color && t.mem[n].bh == mem[n].bh
      requires SameKid(t, n, L) && SameKid(t, n, R)
      requires Quiet(n, f, f')
      ensures t.Painted(n, f')
      ensures t.mem[n].color == Red ==> t.NoRedKid(n)
    {
    }

    lemma SpunKid(r: Turn, t: Tree, n: Node, d: Side)
      requires Around(r) && Spun(r, t) && r.tc == mem[r.elm].color && r.th == mem[r.elm].bh
      requires Linked(n) && n != r.elm && n != r.tmp
      ensures t.mem[n].color == mem[n].color && t.mem[n].bh == mem[n].bh
      ensures SameKid(t, n, d)
    {
      if n == r.p {
        SpunKidOfTop(r, t, d);
      } else {
        assert KidOk(n, d);
        assert mem[n].Kid(d) != r.elm && mem[n].Kid(d) != r.tmp;
        assert t.mem[n].Kid(d) == mem[n].Kid(d);
      }
    }

    lemma SpunKidOfTop(r: Turn, t: Tree, d: Side)
      requires Around(r) && Spun(r, t) && r.tc == mem[r.elm].color && r.th == mem[r.elm].bh
      requires r.p != null && r.p != r.elm && r.p != r.tmp
      ensures t.mem[r.p].color == mem[r.p].color && t.mem[r.p].bh == mem[r.p].bh
      ensures SameKid(t, r.p, d)
    {
      assert KidOk(r.p, d);
    }

    // A rotation that leaves the top of the rotated subtree with the colour
    // and black height it had is invisible to the rest of the tree.
    lemma SpunPaintedFar(r: Turn, t: Tree, n: Node, f: Flaw, f': Flaw)
      requires Around(r) && Spun(r, t) && r.tc == mem[r.elm].color && r.th == mem[r.elm].bh
      requires Linked(n) && n != r.elm && n != r.tmp
      requires Quiet(n, f, f')
      ensures t.Painted(n, f')
    {
      SpunKid(r, t, n, L);
      SpunKid(r, t, n, R);
      SamePainted(t, n, f, f');
    }

    // The kids of the rotated pair, and what they look like from above.
    lemma SpunInside(r: Turn, t: Tree)
      requires Around(r) && Spun(r, t)
      ensures var a, d := mem[r.elm].Kid(r.s), mem[r.tmp].Kid(r.s.Flip());
              && t.mem[r.elm].Kid(r.s) == a && t.mem[r.elm].Kid(r.s.Flip()) == r.b
              && t.mem[r.tmp].Kid(r.s) == r.elm && t.mem[r.tmp].Kid(r.s.Flip()) == d
              && t.BH(a) == BH(a) && t.IsRed(a) == IsRed(a)
              && t.BH(r.b) == BH(r.b) && t.IsRed(r.b) == IsRed(r.b)
              && t.BH(d) == BH(d) && t.IsRed(d) == IsRed(d)
              && t.mem[r.elm].color == r.ec && t.mem[r.elm].bh == r.eh
              && t.mem[r.tmp].color == r.tc && t.mem[r.tmp].bh == r.th
    {
    }

    // When the numbers add up, the rotated pair is painted correctly.
    lemma SpunPaintedPair(r: Turn, t: Tree, f: Flaw)
      requires Around(r) && Spun(r, t)
      requires var a := mem[r.elm].Kid(r.s);
               && BH(a) + (if f.At(r.elm) then 1 else 0) == BH(r.b)
               && 0 <= r.eh == BH(r.b) + (if r.ec == Black then 1 else 0)
               && (r.ec == Red ==> !IsRed(a) && !IsRed(r.b))
      requires var d := mem[r.tmp].Kid(r.s.Flip());
               && r.eh == BH(d)
               && r.th == BH(d) + (if r.tc == Black then 1 else 0)
               && (r.tc == Red ==> !IsRed(d) && (r.ec == Red ==> Excused(r.tmp, r.elm, f)))
      requires !f.At(r.tmp) && (f.At(r.elm) ==> f.side == r.s)
      ensures t.Painted(r.elm, f) && t.Painted(r.tmp, f)
    {
      SpunInside(r, t);
      PairPainted(r, t, mem[r.elm].Kid(r.s), mem[r.tmp].Kid(r.s.Flip()), f);
    }

    static lemma PairPainted(r: Turn, t: Tree, a: Node?, d: Node?, f: Flaw)
      requires r.elm in t.mem && r.tmp in t.mem
      requires t.mem[r.elm].Kid(r.s) == a && t.mem[r.elm].Kid(r.s.Flip()) == r.b
      requires t.mem[r.tmp].Kid(r.s) == r.elm && t.mem[r.tmp].Kid(r.s.Flip()) == d
      requires t.mem[r.elm].color == r.ec && t.mem[r.elm].bh == r.eh
      requires t.mem[r.tmp].color == r.tc && t.mem[r.tmp].bh == r.th
      requires t.BH(a) + (if f.At(r.elm) then 1 else 0) == t.BH(r.b)
      requires 0 <= r.eh == t.BH(r.b) + (if r.ec == Black then 1 else 0)
      requires r.ec == Red ==> !t.IsRed(a) && !t.IsRed(r.b)
      requires r.eh == t.BH(d) && r.th == t.BH(d) + (if r.tc == Black then 1 else 0)
      requires r.tc == Red ==> !t.IsRed(d) && (r.ec == Red ==> t.Excused(r.tmp, r.elm, f))
      requires !f.At(r.tmp) && (f.At(r.elm) ==> f.side == r.s)
      ensures t.Painted(r.elm, f) && t.Painted(r.tmp, f)
    {
    }

    lemma SpunShape(r: Turn, t: Tree)
      requires Ordered() && (forall n {:trigger Linked(n)} :: n in mem ==> Linked(n))
      requires Around(r) && Spun(r, t)
      ensures t.Ordered() && (forall n {:trigger t.Linked(n)} :: n in t.mem ==> t.Linked(n))
    {
      forall n | n in t.mem ensures t.Linked(n) {
        assert Linked(n);
        SpunLinked(r, t, n);
      }
    }

    // A whole rotation step: sound before, sound after with the new flaw.
    lemma SpunSound(r: Turn, t: Tree, f: Flaw, f': Flaw)
      requires Ordered() && (forall n {:trigger Linked(n)} :: n in mem ==> Linked(n))
      requires Around(r) && Spun(r, t)
      requires r.tc == mem[r.elm].color && r.th == mem[r.elm].bh
      requires t.Painted(r.elm, f') && t.Painted(r.tmp, f')
      requires forall n {:trigger Quiet(n, f, f')} :: n in mem && n != r.elm && n != r.tmp ==> Quiet(n, f, f')
      ensures t.Sound(f')
    {
      SpunShape(r, t);
      forall n | n in t.mem ensures t.Painted(n, f') {
        if n != r.elm && n != r.tmp {
          assert Linked(n) && Quiet(n, f, f');
          SpunPaintedFar(r, t, n, f, f');
        }
      }
    }

    lemma PairCoated(r: Turn)
      requires Apart(r)
      ensures var t := Coated(r.tmp, r.tc, r.th).Coated(r.elm, r.ec, r.eh);
              Repainted({r.elm, r.tmp}, t) && t.Apart(r)
              && t.mem[r.elm] == mem[r.elm].(color := r.ec, bh := r.eh)
              && t.mem[r.tmp] == mem[r.tmp].(color := r.tc, bh := r.th)
    {
    }

    // A rotation keeps the colour of the root.
    lemma SpunRoot(r: Turn, t: Tree)
      requires Around(r) && Spun(r, t) && r.tc == mem[r.elm].color
      requires root != null ==> root in mem && mem[root].parent == null
      ensures t.IsRed(t.root) == IsRed(root)
    {
      assert Hung(r.elm);
      if r.p != null && root != null {
        assert KidOk(r.elm, r.s.Flip()) && KidOk(r.tmp, r.s);
      }
    }

    // Recolouring the pair first and then rotating it.
    lemma PaintThenSpin(t1: Tree, r: Turn, t: Tree)
      requires r.elm in mem && r.tmp in mem && Repainted({r.elm, r.tmp}, t1)
      requires r.p != r.tmp && r.b != r.elm && r.p != r.elm && r.b != r.tmp
      requires t1.Spun(r, t)
      ensures Spun(r, t)
    {
    }

    lemma FineIsRedRed(e: Node)
      requires Sound(Fine)
      ensures Sound(RedRed(e))
    {
      forall n | n in mem ensures Painted(n, RedRed(e)) {
        assert Painted(n, Fine);
      }
    }

    // ---- insertion: the two rotations of RB_INSERT_COLOR -----------------

    ghost predicate Doubled(g: Node, p: Node, e: Node)
    {
      && Linked(e) && Linked(p) && Linked(g)
      && mem[e].parent == p && mem[p].parent == g
      && mem[e].color == Red && mem[p].color == Red && mem[g].color == Black
    }

    // In a tree whose only red-red edge runs from p to e, every other node is clean.
    lemma CleanBut(e: Node, n: Node)
      requires Painted(n, RedRed(e)) && Linked(n) && e in mem && mem[e].parent != n
      ensures mem[n].color == Red ==> NoRedKid(n)
    {
    }

    ghost function InnerTurn(g: Node, p: Node, e: Node, s: Side): Turn
      requires p in mem && e in mem
    { Turn(p, s, e, mem[e].Kid(s), g, Red, mem[p].bh, Red, mem[e].bh) }

    // What the loop of RB_INSERT_COLOR keeps: elm is red, and the only red-red
    // edge there can be is the one above elm.
    ghost predicate Rising(elm: Node)
    {
      && Sound(RedRed(elm)) && Linked(elm) && mem[elm].color == Red
      && root != null && (IsRed(root) ==> root == elm)
    }

    // How far elm can still climb.
    ghost function Climb(elm: Node): int
      requires elm in mem
    { if IsRed(mem[elm].parent) then 1 + |order| - (mem[elm].hi - mem[elm].lo) else 0 }

    // Where the loop of RB_INSERT_COLOR runs there is a black grandparent.
    lemma RisingUp(elm: Node, parent: Node)
      requires Rising(elm) && mem[elm].parent == parent && mem[parent].color == Red
      ensures var g := mem[parent].parent; g != null && Doubled(g, parent, elm)
    {
      assert Linked(elm) && Linked(parent) && Hung(parent);
      assert elm != root;
      var g := mem[parent].parent;
      assert Linked(g) && Painted(g, RedRed(elm));
      assert KidOk(elm, L) && KidOk(elm, R) && KidOk(parent, L) && KidOk(parent, R);
    }

    lemma UncleLinked(g: Node, s: Side)
      requires forall n {:trigger Linked(n)} :: n in mem ==> Linked(n)
      requires g in mem
      ensures mem[g].Kid(s.Flip()) != null ==> Linked(mem[g].Kid(s.Flip()))
    {
      assert Linked(g);
      assert KidOk(g, s.Flip());
    }

    lemma InnerAround(g: Node, p: Node, e: Node, s: Side)
      requires Sound(RedRed(e)) && Doubled(g, p, e) && mem[p].Kid(s.Flip()) == e
      ensures Around(InnerTurn(g, p, e, s)) && Apart(InnerTurn(g, p, e, s))
    {
      var b := mem[e].Kid(s);
      assert KidOk(e, s);
      assert b != null ==> Linked(b);
      AroundApart(InnerTurn(g, p, e, s));
    }

    // After the inner rotation e and p have changed places below g.
    lemma InnerAfter(g: Node, p: Node, e: Node, s: Side, t: Tree)
      requires Doubled(g, p, e) && mem[p].Kid(s.Flip()) == e && mem[g].Kid(s) == p
      requires Around(InnerTurn(g, p, e, s)) && Apart(InnerTurn(g, p, e, s)) && Spun(InnerTurn(g, p, e, s), t)
      requires t.Linked(g) && t.Linked(p) && t.Linked(e)
      ensures t.Doubled(g, e, p) && t.mem[e].Kid(s) == p
      ensures t.mem[g].Kid(s) == e && t.mem[g].Kid(s.Flip()) == mem[g].Kid(s.Flip())
      ensures mem[g].Kid(s.Flip()) != null && mem[g].Kid(s.Flip()) in mem ==>
              t.mem[mem[g].Kid(s.Flip())].color == mem[mem[g].Kid(s.Flip())].color
    {
      assert KidOk(g, L) && KidOk(g, R);
    }

    lemma InnerSound(g: Node, p: Node, e: Node, s: Side, t: Tree)
      requires Sound(RedRed(e)) && Doubled(g, p, e) && mem[p].Kid(s.Flip()) == e
      requires Spun(InnerTurn(g, p, e, s), t)
      ensures t.Sound(RedRed(p))
    {
      var r := InnerTurn(g, p, e, s);
      InnerAround(g, p, e, s);
      assert Painted(p, RedRed(e)) && Painted(e, RedRed(e));
      SpunPaintedPair(r, t, RedRed(p));
      forall n | n in mem && n != p && n != e ensures Quiet(n, RedRed(e), RedRed(p)) {
        assert Linked(n) && Painted(n, RedRed(e));
        CleanBut(e, n);
      }
      SpunSound(r, t, RedRed(e), RedRed(p));
    }

    ghost function OuterTurn(g: Node, p: Node, s: Side): Turn
      requires g in mem && p in mem
    { Turn(g, s.Flip(), p, mem[p].Kid(s.Flip()), mem[g].parent, Red, mem[g].bh - 1, Black, mem[g].bh) }

    lemma OuterAround(g: Node, p: Node, e: Node, s: Side)
      requires Sound(RedRed(e)) && Doubled(g, p, e) && mem[g].Kid(s) == p
      ensures Around(OuterTurn(g, p, s)) && Apart(OuterTurn(g, p, s))
    {
      var r := OuterTurn(g, p, s);
      assert KidOk(p, s.Flip());
      assert r.b != null ==> Linked(r.b);
      assert r.p != null ==> Linked(r.p);
      AroundApart(r);
    }

    lemma OuterSound(g: Node, p: Node, e: Node, s: Side, t: Tree)
      requires Sound(RedRed(e)) && Doubled(g, p, e) && mem[p].Kid(s) == e
      requires mem[g].Kid(s) == p && !IsRed(mem[g].Kid(s.Flip()))
      requires Spun(OuterTurn(g, p, s), t)
      ensures t.Sound(Fine)
    {
      var r := OuterTurn(g, p, s);
      OuterAround(g, p, e, s);
      assert Painted(p, RedRed(e)) && Painted(e, RedRed(e)) && Painted(g, RedRed(e));
      SpunPaintedPair(r, t, Fine);
      forall n | n in mem && n != p && n != g ensures Quiet(n, RedRed(e), Fine) {
        assert Linked(n) && Painted(n, RedRed(e));
        CleanBut(e, n);
      }
      SpunSound(r, t, RedRed(e), Fine);
    }

    lemma OuterAfter(g: Node, p: Node, e: Node, s: Side, t: Tree)
      requires Doubled(g, p, e) && mem[g].Kid(s) == p && mem[p].Kid(s) == e
      requires Around(OuterTurn(g, p, s)) && Apart(OuterTurn(g, p, s)) && Spun(OuterTurn(g, p, s), t)
      ensures t.mem[p].color == Black && t.mem[e].color == Red && t.mem[e].parent == p
    {
      assert KidOk(p, L) && KidOk(p, R);
      assert KidOk(g, L) && KidOk(g, R);
    }

    // ---- repainting without moving anything -------------------------------

    ghost predicate Repainted(xs: set<Node>, t: Tree)
    {
      && t.root == root && t.order == order && t.mem.Keys == mem.Keys
      && forall n :: n in mem ==>
           t.mem[n] == if n in xs then mem[n].(color := t.mem[n].color, bh := t.mem[n].bh) else mem[n]
    }

    ghost function Coated(n: Node, c: Color, bh: int): Tree
      requires n in mem
    { this.(mem := mem[n := mem[n].(color := c, bh := bh)]) }

    lemma RepaintedShape(xs: set<Node>, t: Tree)
      requires Ordered() && (forall n {:trigger Linked(n)} :: n in mem ==> Linked(n))
      requires Repainted(xs, t)
      ensures t.Ordered() && (forall n {:trigger t.Linked(n)} :: n in t.mem ==> t.Linked(n))
    {
      forall n | n in t.mem ensures t.Linked(n) {
        assert Linked(n);
      }
    }

    // A repainted kid is seen only by its parent.
    lemma RepaintedKid(xs: set<Node>, t: Tree, n: Node, d: Side)
      requires Repainted(xs, t) && Linked(n)
      requires forall x :: x in xs ==> x in mem && mem[x].parent != n
      ensures SameKid(t, n, d) && t.mem[n].Kid(d) == mem[n].Kid(d)
    {
      assert KidOk(n, d);
    }

    lemma RepaintedFar(xs: set<Node>, t: Tree, n: Node, f: Flaw, f': Flaw)
      requires Repainted(xs, t) && Linked(n) && n !in xs
      requires Quiet(n, f, f')
      requires forall x :: x in xs ==> x in mem && mem[x].parent != n
      ensures t.Painted(n, f')
      ensures t.mem[n].color == Red ==> t.NoRedKid(n)
    {
      RepaintedKid(xs, t, n, L);
      RepaintedKid(xs, t, n, R);
      SamePainted(t, n, f, f');
    }

    // A node n whose kids keep their looks and which itself changes from red to
    // black gains one in black height.
    lemma Blackened(xs: set<Node>, t: Tree, n: Node, f: Flaw, f': Flaw)
      requires Repainted(xs, t) && Linked(n) && Painted(n, f) && !f.At(n) && !f'.At(n)
      requires forall x :: x in xs ==> x in mem && mem[x].parent != n
      requires t.mem[n].color == Black && t.mem[n].bh == mem[n].bh + (if mem[n].color == Red then 1 else 0)
      ensures t.Painted(n, f')
    {
      RepaintedKid(xs, t, n, L);
      RepaintedKid(xs, t, n, R);
    }

    // Insertion, red uncle: parent and uncle turn black, the grandparent turns
    // red and becomes the lower end of the only possible red-red edge.
    ghost predicate Flipped(g: Node, p: Node, u: Node, t: Tree)
    {
      && Repainted({g, p, u}, t)
      && g in mem && t.mem[g].color == Red && t.mem[g].bh == mem[g].bh
      && p in mem && t.mem[p].color == Black && t.mem[p].bh == mem[p].bh + 1
      && u in mem && t.mem[u].color == Black && t.mem[u].bh == mem[u].bh + 1
    }

    lemma CoatsFlip(g: Node, p: Node, u: Node)
      requires g in mem && p in mem && u in mem && g != p && g != u && p != u
      ensures Flipped(g, p, u,
                      Coated(u, Black, mem[u].bh + 1).Coated(p, Black, mem[p].bh + 1).Coated(g, Red, mem[g].bh))
    {
    }

    ghost predicate Family(g: Node, p: Node, u: Node, e: Node, s: Side)
    {
      && Doubled(g, p, e) && Linked(u) && IsRed(u)
      && mem[g].Kid(s) == p && mem[g].Kid(s.Flip()) == u
    }

    lemma FlipTop(g: Node, p: Node, u: Node, e: Node, s: Side, t: Tree)
      requires Painted(g, RedRed(e)) && Family(g, p, u, e, s) && Flipped(g, p, u, t)
      ensures t.Painted(g, RedRed(g))
    {
    }

    lemma FlipAbove(g: Node, p: Node, u: Node, e: Node, s: Side, t: Tree, n: Node)
      requires Painted(g, RedRed(e)) && Family(g, p, u, e, s) && Flipped(g, p, u, t)
      requires mem[g].parent == n && n != p && n != u && Linked(n) && Painted(n, RedRed(e))
      ensures t.Painted(n, RedRed(g))
    {
      assert KidOk(n, L) && KidOk(n, R);
    }

    lemma FamilyLinked(g: Node, p: Node, u: Node, e: Node, s: Side)
      requires Sound(RedRed(e)) && Family(g, p, u, e, s)
      ensures mem[g].parent != null ==> Linked(mem[g].parent)
    {
      assert Linked(g);
    }

    lemma FamilyApart(g: Node, p: Node, u: Node, e: Node, s: Side)
      requires Family(g, p, u, e, s) && (mem[g].parent != null ==> Linked(mem[g].parent))
      ensures g != p && g != u && p != u && mem[g].parent != p && mem[g].parent != u
    {
      assert KidOk(g, L) && KidOk(g, R);
      assert KidOk(p, L) && KidOk(p, R);
      assert KidOk(u, L) && KidOk(u, R);
    }

    lemma FlipSound(g: Node, p: Node, u: Node, e: Node, s: Side, t: Tree)
      requires Sound(RedRed(e)) && Family(g, p, u, e, s) && Flipped(g, p, u, t)
      ensures t.Sound(RedRed(g))
    {
      RepaintedShape({g, p, u}, t);
      assert mem[g].parent != null ==> Linked(mem[g].parent);
      FamilyApart(g, p, u, e, s);
      forall n | n in t.mem ensures t.Painted(n, RedRed(g)) {
        assert Linked(n) && Painted(n, RedRed(e)) && Painted(g, RedRed(e));
        if n == g {
          FlipTop(g, p, u, e, s, t);
        } else if n == p || n == u {
          Blackened({g, p, u}, t, n, RedRed(e), RedRed(g));
        } else if n == mem[g].parent {
          FlipAbove(g, p, u, e, s, t, n);
        } else {
          CleanBut(e, n);
          RepaintedFar({g, p, u}, t, n, RedRed(e), RedRed(g));
        }
      }
    }

    lemma FlipClimbs(g: Node, p: Node, u: Node, e: Node, s: Side, t: Tree)
      requires Rising(e) && Family(g, p, u, e, s) && Flipped(g, p, u, t) && t.Sound(RedRed(g))
      ensures t.Rising(g) && t.Climb(g) < Climb(e)
    {
      assert t.Linked(g);
      assert KidOk(g, s);
      assert KidOk(p, L) && KidOk(p, R);
    }

    // The end of RB_INSERT_COLOR: no red-red edge is left, the root turns black.
    lemma RootSound(e: Node, t: Tree)
      requires Sound(RedRed(e)) && e in mem && root != null
      requires mem[e].parent == null || (mem[e].parent in mem && mem[mem[e].parent].color == Black)
      requires Repainted({root}, t)
      requires t.mem[root].color == Black && t.mem[root].bh == mem[root].bh + (if mem[root].color == Red then 1 else 0)
      ensures t.Sound(Fine)
    {
      RepaintedShape({root}, t);
      forall n | n in t.mem ensures t.Painted(n, Fine) {
        assert Linked(n) && Painted(n, RedRed(e));
        if n == root {
          Blackened({root}, t, n, RedRed(e), Fine);
        } else {
          assert mem[n].color == Red ==> NoRedKid(n);
          RepaintedFar({root}, t, n, RedRed(e), Fine);
        }
      }
    }

    // ---- removal: RB_REMOVE_COLOR -----------------------------------------

    // The subtree low on side s of par is one black node short; w is its sibling.
    ghost predicate Lacking(par: Node, s: Side, low: Node?, w: Node)
    {
      && Sound(Short(par, s, low)) && !IsRed(low) && 0 <= BH(low)
      && Linked(par) && Painted(par, Short(par, s, low))
      && mem[par].Kid(s) == low && mem[par].Kid(s.Flip()) == w
      && Linked(w) && Painted(w, Short(par, s, low))
    }

    // The sibling of a short subtree exists.
    lemma SiblingExists(par: Node, s: Side, low: Node?)
      requires Sound(Short(par, s, low)) && par in mem && mem[par].Kid(s) == low
      ensures mem[par].Kid(s.Flip()) != null
      ensures !IsRed(low) ==> Lacking(par, s, low, mem[par].Kid(s.Flip()))
    {
      assert Linked(par) && Painted(par, Short(par, s, low));
      assert KidOk(par, L) && KidOk(par, R);
      if low != null {
        assert Painted(low, Short(par, s, low));
      }
      var w := mem[par].Kid(s.Flip());
      assert w != null;
      assert Linked(w) && Painted(w, Short(par, s, low));
    }

    lemma QuietWhileBlack(f: Flaw, n: Node)
      requires f.Short? && !IsRed(f.low) && Painted(n, f)
      ensures Quiet(n, f, f)
    {
    }

    // What the loop of RB_REMOVE_COLOR keeps: low, on side s of par, is one black
    // node short and everything else is in order.
    ghost predicate Sinking(par: Node?, s: Side, low: Node?)
    {
      && Sound(Short(par, s, low))
      && (if par == null then low == root else par in mem && mem[par].Kid(s) == low)
      && (low != null ==> Linked(low) && mem[low].parent == par)
      && (IsRed(root) ==> root == low)
    }

    // What taking out a node of the given colour leaves behind: a black node is missing, or
    // nothing is.
    ghost predicate TakenOut(par: Node?, s: Side, low: Node?, color: Color)
    { if color == Black then Sinking(par, s, low) else Sound(Fine) && !IsRed(root) }

    ghost function Width(k: Node?): int
    { if k == null || k !in mem then 0 else mem[k].hi - mem[k].lo }

    ghost function Left(par: Node?, low: Node?): int
    { if par == null then 0 else 1 + |order| - Width(low) }

    // A tree without flaw is short nowhere.
    lemma FineIsShort()
      requires Sound(Fine) && !IsRed(root)
      ensures Sinking(null, L, root)
    {
      assert root != null ==> Linked(root);
      forall n | n in mem ensures Painted(n, Short(null, L, root)) {
        assert Painted(n, Fine);
      }
    }

    // The side of par the shortage is on, read off the links as the code does.
    lemma SinkingSide(par: Node, s: Side, low: Node?)
      requires Sinking(par, s, low)
      ensures mem[par].left == low ==> s == L
      ensures mem[par].left != low ==> s == R
    {
      SiblingExists(par, s, low);
      assert Linked(par);
      assert KidOk(par, L) && KidOk(par, R);
    }

    lemma SinkingTop(par: Node?, s: Side, low: Node?)
      requires Sinking(par, s, low) && low == null == root
      ensures par == null
    {
      assert par != null ==> Linked(par);
    }

    // A tree with nothing left in it needs no colour.
    lemma SunkEmpty(s: Side)
      requires Sinking(null, s, null)
      ensures Sound(Fine) && !IsRed(root)
    {
      forall n ensures n !in mem {
        assert n in mem ==> Linked(n);
      }
    }

    ghost function RedSibling(par: Node, s: Side, w: Node): Turn
      requires par in mem && w in mem
    { Turn(par, s, w, mem[w].Kid(s), mem[par].parent, Red, mem[par].bh - 1, Black, mem[par].bh) }

    lemma RedSiblingAround(par: Node, s: Side, low: Node?, w: Node)
      requires Lacking(par, s, low, w) && mem[w].color == Red
      ensures Around(RedSibling(par, s, w)) && Apart(RedSibling(par, s, w)) && mem[par].color == Black
    {
      var r := RedSibling(par, s, w);
      assert KidOk(w, s) && KidOk(par, L) && KidOk(par, R);
      assert r.b != null ==> Linked(r.b);
      assert r.p != null ==> Linked(r.p);
      AroundApart(r);
    }

    lemma RedSiblingAfter(par: Node, s: Side, low: Node?, w: Node, t: Tree)
      requires Sinking(par, s, low) && Lacking(par, s, low, w) && mem[w].color == Red
      requires Around(RedSibling(par, s, w)) && Apart(RedSibling(par, s, w)) && mem[par].color == Black
      requires Spun(RedSibling(par, s, w), t) && t.Sound(Short(par, s, low))
      ensures t.Sinking(par, s, low) && t.Width(low) == Width(low) && !t.IsRed(low) &&
              t.IsBlack(t.mem[par].Kid(s.Flip()))
    {
      var r := RedSibling(par, s, w);
      SpunRoot(r, t);
      SpunInside(r, t);
      assert KidOk(w, L) && KidOk(w, R) && KidOk(par, L) && KidOk(par, R);
      if low != null {
        assert low != w && low != r.b && low != r.p && low != par by { assert Linked(low); }
        assert t.mem[low] == mem[low];
        assert t.Linked(low);
      }
      t.SiblingExists(par, s, low);
    }

    lemma RedSiblingSound(par: Node, s: Side, low: Node?, w: Node, t: Tree)
      requires Lacking(par, s, low, w) && mem[w].color == Red
      requires Spun(RedSibling(par, s, w), t)
      ensures t.Sound(Short(par, s, low))
    {
      var f := Short(par, s, low);
      var r := RedSibling(par, s, w);
      assert r.b != null ==> Linked(r.b);
      assert r.p != null ==> Linked(r.p);
      assert KidOk(par, L) && KidOk(par, R);
      SpunPaintedPair(r, t, f);
      forall n | n in mem && n != par && n != w ensures Quiet(n, f, f) {
        assert Painted(n, f);
        QuietWhileBlack(f, n);
      }
      SpunSound(r, t, f, f);
    }

    ghost function InnerNephew(par: Node, s: Side, w: Node, v: Node): Turn
      requires w in mem && v in mem
    { Turn(w, s.Flip(), v, mem[v].Kid(s.Flip()), par, Red, mem[w].bh - 1, Black, mem[w].bh) }

    lemma InnerNephewAround(par: Node, s: Side, low: Node?, w: Node, v: Node)
      requires Lacking(par, s, low, w) && mem[w].Kid(s) == v
      ensures Around(InnerNephew(par, s, w, v)) && Apart(InnerNephew(par, s, w, v))
    {
      var r := InnerNephew(par, s, w, v);
      assert KidOk(w, L) && KidOk(w, R) && KidOk(par, L) && KidOk(par, R);
      assert Linked(v);
      assert KidOk(v, s.Flip());
      assert r.b != null ==> Linked(r.b);
      AroundApart(r);
    }

    // Now the sibling is v, black, with the red w as its outer kid.
    lemma InnerNephewAfter(par: Node, s: Side, low: Node?, w: Node, v: Node, t: Tree)
      requires Sinking(par, s, low) && Lacking(par, s, low, w) && mem[w].color == Black && mem[w].Kid(s) == v
      requires Around(InnerNephew(par, s, w, v)) && Apart(InnerNephew(par, s, w, v))
      requires Spun(InnerNephew(par, s, w, v), t) && t.Sound(Short(par, s, low))
      ensures t.Sinking(par, s, low) && !t.IsRed(low) && t.mem[par].Kid(s.Flip()) == v
      ensures t.mem[v].color == Black && t.mem[v].Kid(s.Flip()) == w && t.IsRed(w)
    {
      var r := InnerNephew(par, s, w, v);
      SpunRoot(r, t);
      assert KidOk(w, L) && KidOk(w, R) && KidOk(par, L) && KidOk(par, R) && KidOk(v, L) && KidOk(v, R);
      if low != null {
        assert low != w && low != v && low != r.b && low != par by { assert Linked(low); }
        assert t.mem[low] == mem[low];
        assert t.Linked(low);
      }
    }

    lemma InnerNephewSound(par: Node, s: Side, low: Node?, w: Node, v: Node, t: Tree)
      requires Lacking(par, s, low, w) && mem[w].color == Black
      requires mem[w].Kid(s) == v && IsRed(v) && !IsRed(mem[w].Kid(s.Flip()))
      requires Spun(InnerNephew(par, s, w, v), t)
      ensures t.Sound(Short(par, s, low))
    {
      var f := Short(par, s, low);
      var r := InnerNephew(par, s, w, v);
      assert Linked(v) && Painted(v, f);
      assert r.b != null ==> Linked(r.b);
      assert KidOk(par, L) && KidOk(par, R);
      assert KidOk(w, L) && KidOk(w, R);
      SpunPaintedPair(r, t, f);
      forall n | n in mem && n != w && n != v ensures Quiet(n, f, f) {
        assert Painted(n, f);
        QuietWhileBlack(f, n);
      }
      SpunSound(r, t, f, f);
    }

    ghost function OuterNephew(par: Node, s: Side, w: Node): Turn
      requires par in mem && w in mem
    { Turn(par, s, w, mem[w].Kid(s), mem[par].parent, Black, mem[w].bh, mem[par].color, mem[par].bh) }

    // The red outer nephew v turns black first (t1), then par is rotated.
    lemma OuterNephewQuiet(par: Node, s: Side, low: Node?, w: Node, v: Node, t1: Tree, n: Node)
      requires Lacking(par, s, low, w) && mem[w].color == Black && mem[w].Kid(s.Flip()) == v && IsRed(v)
      requires Repainted({v}, t1) && t1.mem[v].color == Black && t1.mem[v].bh == mem[v].bh + 1
      requires n in t1.mem && n != par && n != w
      ensures t1.Quiet(n, Short(par, s, low), Fine)
    {
      var f := Short(par, s, low);
      assert Linked(v) && Painted(v, f) && KidOk(w, L) && KidOk(w, R);
      assert Linked(n) && Painted(n, f);
      OuterNephewRest(f, w, v, t1, n);
    }

    lemma OuterNephewSound(par: Node, s: Side, low: Node?, w: Node, v: Node, t1: Tree, t: Tree)
      requires Lacking(par, s, low, w) && mem[w].color == Black
      requires mem[w].Kid(s.Flip()) == v && IsRed(v)
      requires Repainted({v}, t1) && t1.mem[v].color == Black && t1.mem[v].bh == mem[v].bh + 1
      requires t1.Spun(OuterNephew(par, s, w), t)
      ensures t.Sound(Fine)
    {
      var f := Short(par, s, low);
      var r := OuterNephew(par, s, w);
      assert Linked(v) && Painted(v, f);
      RepaintedShape({v}, t1);
      assert t1.Linked(par) && t1.Linked(w);
      assert r.b != null ==> t1.Linked(r.b);
      assert r.p != null ==> t1.Linked(r.p);
      assert KidOk(par, L) && KidOk(par, R) && KidOk(w, L) && KidOk(w, R);
      OuterNephewPair(par, s, low, w, v, t1, t);
      forall n | n in t1.mem && n != par && n != w ensures t1.Quiet(n, f, Fine) {
        OuterNephewQuiet(par, s, low, w, v, t1, n);
      }
      t1.SpunSound(r, t, f, Fine);
    }

    lemma OuterNephewEnds(par: Node, s: Side, low: Node?, w: Node, v: Node, t1: Tree, t: Tree)
      requires Sinking(par, s, low) && Lacking(par, s, low, w) && mem[w].color == Black
      requires mem[w].Kid(s.Flip()) == v && IsRed(v)
      requires Repainted({v}, t1) && t1.mem[v].color == Black && t1.mem[v].bh == mem[v].bh + 1
      requires t1.Spun(OuterNephew(par, s, w), t)
      ensures t.Sound(Fine) && !t.IsRed(t.root)
    {
      OuterNephewSound(par, s, low, w, v, t1, t);
      OuterNephewRoot(par, s, low, w, v, t1, t);
    }

    lemma OuterNephewRoot(par: Node, s: Side, low: Node?, w: Node, v: Node, t1: Tree, t: Tree)
      requires Sinking(par, s, low) && Lacking(par, s, low, w) && mem[w].Kid(s.Flip()) == v
      requires Repainted({v}, t1) && t1.Spun(OuterNephew(par, s, w), t)
      ensures !t.IsRed(t.root)
    {
      OuterNephewAround(par, s, low, w, v, t1);
      assert root != null ==> Linked(root);
      t1.SpunRoot(OuterNephew(par, s, w), t);
    }

    lemma OuterNephewAround(par: Node, s: Side, low: Node?, w: Node, v: Node, t1: Tree)
      requires Lacking(par, s, low, w) && mem[w].Kid(s.Flip()) == v
      requires Repainted({v}, t1)
      ensures t1.Around(OuterNephew(par, s, w)) && t1.Apart(OuterNephew(par, s, w))
      ensures (IsRed(root) ==> root == low) ==> !t1.IsRed(t1.root)
    {
      var r := OuterNephew(par, s, w);
      assert KidOk(w, L) && KidOk(w, R) && KidOk(par, L) && KidOk(par, R);
      RepaintedShape({v}, t1);
      assert t1.Linked(par) && t1.Linked(w);
      assert r.b != null ==> t1.Linked(r.b);
      assert r.p != null ==> t1.Linked(r.p);
      t1.AroundApart(r);
    }

    lemma OuterNephewRest(f: Flaw, w: Node, v: Node, t1: Tree, n: Node)
      requires f.Short? && !IsRed(f.low) && v in mem && mem[v].parent == w
      requires Repainted({v}, t1) && IsRed(v) && t1.mem[v].color == Black && t1.mem[v].bh == mem[v].bh + 1
      requires Linked(n) && Painted(n, f) && n != w && !f.At(n)
      ensures t1.Quiet(n, f, Fine)
    {
      if n == v {
        Blackened({v}, t1, n, f, f);
      } else {
        QuietWhileBlack(f, n);
        RepaintedFar({v}, t1, n, f, f);
      }
    }

    lemma OuterNephewPair(par: Node, s: Side, low: Node?, w: Node, v: Node, t1: Tree, t: Tree)
      requires Lacking(par, s, low, w) && mem[w].color == Black
      requires mem[w].Kid(s.Flip()) == v && IsRed(v) && Painted(v, Short(par, s, low))
      requires Repainted({v}, t1) && t1.mem[v].color == Black && t1.mem[v].bh == mem[v].bh + 1
      requires t1.Around(OuterNephew(par, s, w)) && t1.Spun(OuterNephew(par, s, w), t)
      ensures t.Painted(par, Fine) && t.Painted(w, Fine)
    {
      assert KidOk(par, L) && KidOk(par, R) && KidOk(w, L) && KidOk(w, R);
      t1.SpunPaintedPair(OuterNephew(par, s, w), t, Fine);
    }

    // Both nephews are black: the sibling turns red and the shortage moves up.
    ghost predicate Reddened(par: Node, w: Node, t: Tree)
    {
      && Repainted({par, w}, t)
      && par in mem && t.mem[par].color == mem[par].color && t.mem[par].bh == mem[par].bh - 1
      && w in mem && t.mem[w].color == Red && t.mem[w].bh == mem[w].bh - 1
    }

    lemma CoatsRedden(par: Node, w: Node)
      requires par in mem && w in mem && par != w
      ensures Reddened(par, w, Coated(w, Red, mem[w].bh - 1).Coated(par, mem[par].color, mem[par].bh - 1))
    {
    }

    lemma ReddenedNear(par: Node, s: Side, low: Node?, w: Node, t: Tree)
      requires Lacking(par, s, low, w) && mem[w].color == Black && NoRedKid(w)
      requires Reddened(par, w, t)
      ensures var pp := mem[par].parent; t.Painted(par, Short(pp, SideOf(pp, par), par))
    {
      assert KidOk(par, L) && KidOk(par, R) && KidOk(w, L) && KidOk(w, R);
    }

    lemma ReddenedSibling(par: Node, s: Side, low: Node?, w: Node, t: Tree, f: Flaw)
      requires Lacking(par, s, low, w) && mem[w].color == Black && NoRedKid(w)
      requires Reddened(par, w, t) && !f.At(w)
      ensures t.Painted(w, f)
    {
      assert KidOk(par, L) && KidOk(par, R) && KidOk(w, L) && KidOk(w, R);
      RepaintedKid({par, w}, t, w, L);
      RepaintedKid({par, w}, t, w, R);
    }

    lemma ReddenedAbove(par: Node, s: Side, low: Node?, w: Node, t: Tree, pp: Node)
      requires Lacking(par, s, low, w) && mem[w].color == Black
      requires Reddened(par, w, t) && mem[par].parent == pp && Linked(pp) && Painted(pp, Short(par, s, low))
      ensures t.Painted(pp, Short(pp, SideOf(pp, par), par))
    {
      assert KidOk(pp, L) && KidOk(pp, R) && KidOk(w, L) && KidOk(w, R);
    }

    lemma ReddenedSound(par: Node, s: Side, low: Node?, w: Node, t: Tree)
      requires Lacking(par, s, low, w) && mem[w].color == Black && NoRedKid(w)
      requires Reddened(par, w, t)
      ensures var pp := mem[par].parent; t.Sound(Short(pp, SideOf(pp, par), par))
      ensures var pp := mem[par].parent; pp != null ==> pp in t.mem && t.mem[pp].Kid(SideOf(pp, par)) == par
    {
      var f, pp := Short(par, s, low), mem[par].parent;
      var f' := Short(pp, SideOf(pp, par), par);
      RepaintedShape({par, w}, t);
      assert pp != w by { assert pp != null ==> Linked(pp); assert KidOk(w, L) && KidOk(w, R); }
      ReddenedNear(par, s, low, w, t);
      ReddenedSibling(par, s, low, w, t, f');
      forall n | n in t.mem ensures t.Painted(n, f') {
        assert Linked(n) && Painted(n, f);
        if n == par || n == w {
        } else if n == pp {
          ReddenedAbove(par, s, low, w, t, n);
        } else {
          QuietWhileBlack(f, n);
          RepaintedFar({par, w}, t, n, f, f');
        }
      }
    }

    lemma ReddenedRises(par: Node, s: Side, low: Node?, w: Node, t: Tree)
      requires Sinking(par, s, low) && Lacking(par, s, low, w) && Reddened(par, w, t)
      requires var pp := mem[par].parent; t.Sound(Short(pp, SideOf(pp, par), par))
      ensures var pp := mem[par].parent; t.Sinking(pp, SideOf(pp, par), par) && t.Left(pp, par) < Left(par, low)
      ensures var pp := mem[par].parent; t.SideOf(pp, par) == SideOf(pp, par)
    {
      assert t.Linked(par);
      assert KidOk(par, L) && KidOk(par, R) && Linked(par);
      if low != null { assert Linked(low); }
      assert mem[par].parent != null ==> Linked(mem[par].parent);
    }

    // The end of RB_REMOVE_COLOR: low is red or is the root, and turns black.
    lemma PaidSound(par: Node?, s: Side, low: Node, t: Tree)
      requires Sound(Short(par, s, low)) && low in mem && mem[low].parent == par
      requires par != null ==> mem[low].color == Red && par in mem && mem[par].Kid(s) == low
      requires Repainted({low}, t)
      requires t.mem[low].color == Black && t.mem[low].bh == mem[low].bh + (if mem[low].color == Red then 1 else 0)
      ensures t.Sound(Fine)
    {
      var f := Short(par, s, low);
      RepaintedShape({low}, t);
      forall n | n in t.mem ensures t.Painted(n, Fine) {
        assert Linked(n) && Painted(n, f) && Linked(low);
        if n == low {
          Blackened({low}, t, n, f, Fine);
        } else if n == par {
          assert KidOk(n, L) && KidOk(n, R);
        } else {
          assert KidOk(n, L) && KidOk(n, R);
          RepaintedFar({low}, t, n, f, Fine);
        }
      }
    }

    // ---- linking a new leaf -------------------------------------------------

    ghost predicate Grown(par: Node, s: Side, elm: Node, t: Tree)
    {
      && elm !in mem && par in mem && mem[par].Kid(s) == null
      && var place := mem[par].idx; var pos := if s == L then place else place + 1;
      && 0 <= pos <= |order|
      && t.root == root && t.order == order[..pos] + [elm] + order[pos..]
      && t.mem.Keys == mem.Keys + {elm}
      && t.mem[elm] == Cell(null, null, par, Red, pos, pos, pos + 1, 0)
      && (forall n :: n in mem ==>
            t.mem[n] == if n == par then mem[n].Up(place, pos).With(s, elm) else mem[n].Up(place, pos))
    }

    // elm has its place next to par, but par does not point to it yet.
    ghost function Shifted(elm: Node, par: Node, s: Side): Tree
      requires par in mem && Placed(par)
    {
      var place := mem[par].idx;
      var pos := if s == L then place else place + 1;
      Tree(root, (map n | n in mem :: mem[n].Up(place, pos))[elm := Cell(null, null, par, Red, pos, pos, pos + 1, 0)],
           order[..pos] + [elm] + order[pos..])
    }

    lemma ShiftedGrown(elm: Node, par: Node, s: Side)
      requires par in mem && Placed(par) && mem[par].Kid(s) == null && elm !in mem
      ensures Grown(par, s, elm, Shifted(elm, par, s).Rekidded(par, s, elm))
    {
    }

    lemma GrownParent(par: Node, s: Side, elm: Node, t: Tree)
      requires Linked(par) && Grown(par, s, elm, t)
      ensures t.Linked(par)
    {
    }

    lemma GrownKid(par: Node, s: Side, elm: Node, t: Tree, n: Node, d: Side)
      requires Linked(par) && Grown(par, s, elm, t) && Linked(n) && n != par
      ensures t.KidOk(n, d)
    {
      assert KidOk(n, d);
    }

    lemma GrownLinked(par: Node, s: Side, elm: Node, t: Tree, n: Node)
      requires Linked(par) && Grown(par, s, elm, t) && Linked(n) && n != par
      ensures t.Linked(n)
    {
      GrownKid(par, s, elm, t, n, L);
      GrownKid(par, s, elm, t, n, R);
    }

    lemma GrownLeaf(par: Node, s: Side, elm: Node, t: Tree)
      requires Linked(par) && Grown(par, s, elm, t)
      ensures t.Linked(elm) && t.Painted(elm, RedRed(elm))
    {
    }

    lemma GrownPainted(par: Node, s: Side, elm: Node, t: Tree, n: Node)
      requires Linked(par) && Grown(par, s, elm, t) && Linked(n) && Painted(n, Fine)
      ensures t.Painted(n, RedRed(elm))
    {
    }

    lemma GrownOrdered(par: Node, s: Side, elm: Node, t: Tree)
      requires Ordered() && Linked(par) && Grown(par, s, elm, t)
      ensures t.Ordered()
    {
      forall i | 0 <= i < |t.order| ensures t.order[i] in t.mem && t.mem[t.order[i]].idx == i {
        var place := mem[par].idx; var pos := if s == L then place else place + 1;
        assert t.order[i] == if i < pos then order[i] else if i == pos then elm else order[i - 1];
      }
    }

    lemma GrownSound(par: Node, s: Side, elm: Node, t: Tree)
      requires Sound(Fine) && Grown(par, s, elm, t)
      ensures t.Sound(RedRed(elm))
    {
      assert Linked(par);
      GrownLeaf(par, s, elm, t);
      GrownOrdered(par, s, elm, t);
      forall n | n in t.mem ensures t.Linked(n) {
        if n == par { GrownParent(par, s, elm, t); }
        else if n != elm { assert Linked(n); GrownLinked(par, s, elm, t, n); }
      }
      forall n | n in t.mem ensures t.Painted(n, RedRed(elm)) {
        if n != elm { assert Linked(n) && Painted(n, Fine); GrownPainted(par, s, elm, t, n); }
      }
    }

    // A freshly linked leaf is where RB_INSERT_COLOR can start.
    lemma GrownRises(par: Node, s: Side, elm: Node, t: Tree)
      requires Sound(Fine) && !IsRed(root) && Grown(par, s, elm, t) && t.Sound(RedRed(elm))
      ensures t.Rising(elm)
    {
      assert t.Linked(elm);
      assert Linked(par);
      if root == null { EmptyTree(); }
    }

    lemma SingleRises(elm: Node)
      requires this == Tree(elm, map[elm := Cell(null, null, null, Red, 0, 0, 1, 0)], [elm])
      ensures Rising(elm)
    {
      assert Linked(elm) && Painted(elm, RedRed(elm));
    }

    ghost predicate Spans(k: Node?, lo: int, hi: int)
    { if k == null then lo == hi else k in mem && mem[k].lo == lo && mem[k].hi == hi }

    lemma RootSpans()
      requires Sound(Fine)
      ensures Spans(root, 0, |order|)
    {
      if root != null { assert Linked(root); }
    }

    lemma EmptyTree()
      requires Sound(Fine) && root == null
      ensures mem == map[] && order == []
    {
      forall n ensures n !in mem {
        assert n in mem ==> Linked(n);
      }
    }

    // One step of a search: what the comparison rules out, and what the kids span.
    lemma Step(n: Node, lo: int, hi: int, base: int, end: int)
      requires Linked(n) && Spans(n, lo, hi) && Spread(order) && Between(order, lo, hi, base, end) && base <= end + 1
      ensures Spans(mem[n].left, lo, mem[n].idx) && Spans(mem[n].right, mem[n].idx + 1, hi)
      ensures end < n.base ==> Between(order, lo, mem[n].idx, base, end)
      ensures base > n.end ==> Between(order, mem[n].idx + 1, hi, base, end)
      ensures lo <= mem[n].idx < hi && n in order
    {
      assert KidOk(n, L) && KidOk(n, R);
    }

    // ---- unlinking a node with at most one kid ---------------------------------

    ghost predicate Spliced(y: Node, x: Node?, p: Node?, t: Tree)
    {
      && y in mem && mem[y].parent == p && 0 <= mem[y].idx < |order|
      && ((mem[y].left == null && x == mem[y].right) || (mem[y].right == null && x == mem[y].left))
      && var i := mem[y].idx;
      && t.root == (if p == null then x else root)
      && t.order == order[..i] + order[i + 1..]
      && t.mem.Keys == mem.Keys - {y}
      && (p != null ==> p in mem)
      && (forall n :: n in mem && n != y ==>
            t.mem[n] == if n == x then mem[n].Down(i).(parent := p)
                        else if n == p then mem[n].Down(i).With(SideOf(p, y), x)
                        else mem[n].Down(i))
    }

    ghost function Dropped(y: Node): Tree
      requires y in mem && 0 <= mem[y].idx < |order|
    {
      var i := mem[y].idx;
      Tree(root, map n | n in mem && n != y :: mem[n].Down(i), order[..i] + order[i + 1..])
    }

    lemma DroppedSpliced(y: Node, x: Node?, p: Node?)
      requires y in mem && mem[y].parent == p && 0 <= mem[y].idx < |order|
      requires (mem[y].left == null && x == mem[y].right) || (mem[y].right == null && x == mem[y].left)
      requires x != null ==> x in mem && x != y && x != p
      requires p != null ==> p in mem && p != y
      ensures Spliced(y, x, p, Reparented(x, p).Rehung(p, y, x).Dropped(y))
    {
    }

    // A node is neither its own kid nor its own parent.
    lemma KidApart(y: Node, x: Node?)
      requires Linked(y) && (x == mem[y].left || x == mem[y].right)
      requires mem[y].parent != null ==> Linked(mem[y].parent)
      ensures x != null ==> x in mem && x != y && x != mem[y].parent
      ensures mem[y].parent != null ==> mem[y].parent in mem && mem[y].parent != y
      ensures 0 <= mem[y].idx < |order|
    {
      assert KidOk(y, L) && KidOk(y, R);
      var p := mem[y].parent;
      if p != null { assert KidOk(p, L) && KidOk(p, R); }
    }

    lemma SplicedIdx(y: Node, x: Node?, p: Node?, t: Tree, n: Node)
      requires Spliced(y, x, p, t) && n in mem && n != y
      ensures n in t.mem && var c := mem[n].Down(mem[y].idx);
              t.mem[n].idx == c.idx && t.mem[n].lo == c.lo && t.mem[n].hi == c.hi
    {
    }

    lemma SplicedPlaced(y: Node, x: Node?, p: Node?, t: Tree, n: Node)
      requires Linked(y) && Spliced(y, x, p, t) && Linked(n) && n != y
      ensures t.Placed(n)
    {
      var i, c := mem[y].idx, mem[n];
      assert c.idx != i;
      assert c.hi - c.lo >= 2 || !(c.lo <= i < c.hi);
      SplicedIdx(y, x, p, t, n);
      assert t.order[t.mem[n].idx] == order[c.idx];
    }

    // The kid that y leaves behind.
    lemma SplicedHeir(y: Node, x: Node?, p: Node, t: Tree)
      requires Linked(y) && Spliced(y, x, p, t) && Linked(p)
      requires x != null ==> Linked(x)
      ensures t.KidOk(p, SideOf(p, y))
    {
      var i, d := mem[y].idx, SideOf(p, y);
      assert KidOk(p, d) && mem[p].Kid(d) == y;
      mem[p].DownSpan(i, d);
      assert KidOk(y, L) && KidOk(y, R);
      assert x != p;
    }

    lemma SplicedKid(y: Node, x: Node?, p: Node?, t: Tree, n: Node, d: Side)
      requires Linked(y) && Spliced(y, x, p, t) && Linked(n) && n != y && mem[n].Kid(d) != y
      ensures t.KidOk(n, d)
    {
      var i, k := mem[y].idx, mem[n].Kid(d);
      assert KidOk(n, d);
      mem[n].DownSpan(i, d);
      assert t.mem[n].Kid(d) == k;
      if k != null {
        assert k != x;
        assert t.mem[k].lo == Cut(mem[k].lo, i) && t.mem[k].hi == Cut(mem[k].hi, i);
      }
    }

    lemma SplicedHungHeir(y: Node, x: Node, p: Node?, t: Tree)
      requires Linked(y) && Spliced(y, x, p, t) && Linked(x)
      requires p != null ==> Linked(p)
      ensures t.Hung(x)
    {
      assert KidOk(y, L) && KidOk(y, R);
      if p != null {
        assert p != y && p != x by { assert KidOk(p, L) && KidOk(p, R); }
      }
    }

    lemma SplicedHung(y: Node, x: Node?, p: Node?, t: Tree, n: Node)
      requires Linked(y) && Spliced(y, x, p, t) && Linked(n) && n != y && n != x
      requires mem[n].parent != null ==> Linked(mem[n].parent)
      ensures t.Hung(n)
    {
      var q := mem[n].parent;
      if q != null {
        assert q != y && q in t.mem;
        SplicedHungBelow(y, x, p, t, n, q, SideOf(q, n));
      }
    }

    lemma SplicedHungBelow(y: Node, x: Node?, p: Node?, t: Tree, n: Node, q: Node, d: Side)
      requires Linked(y) && Spliced(y, x, p, t) && q in mem && q != y
      requires mem[q].Kid(d) == n && n != y
      requires q == p ==> mem[q].Kid(SideOf(q, y)) == y
      ensures t.mem[q].Kid(d) == n
    {
    }

    lemma SplicedKidOk(y: Node, x: Node?, p: Node?, t: Tree, n: Node, d: Side)
      requires Linked(y) && Spliced(y, x, p, t) && Linked(n) && n != y
      requires x != null ==> Linked(x)
      ensures t.KidOk(n, d)
    {
      assert KidOk(n, d);
      if mem[n].Kid(d) == y {
        SplicedHeir(y, x, n, t);
      } else {
        SplicedKid(y, x, p, t, n, d);
      }
    }

    lemma SplicedLinked(y: Node, x: Node?, p: Node?, t: Tree, n: Node)
      requires Linked(y) && Spliced(y, x, p, t) && Linked(n) && n != y
      requires x != null ==> Linked(x)
      requires p != null ==> Linked(p)
      requires mem[n].parent != null ==> Linked(mem[n].parent)
      ensures t.Linked(n)
    {
      SplicedPlaced(y, x, p, t, n);
      SplicedKidOk(y, x, p, t, n, L);
      SplicedKidOk(y, x, p, t, n, R);
      if n == x { SplicedHungHeir(y, x, p, t); } else { SplicedHung(y, x, p, t, n); }
    }

    lemma SplicedOrdered(y: Node, x: Node?, p: Node?, t: Tree)
      requires Ordered() && Linked(y) && Spliced(y, x, p, t)
      requires x != null ==> Linked(x)
      ensures t.Ordered()
    {
      assert KidOk(y, L) && KidOk(y, R);
      forall j | 0 <= j < |t.order| ensures t.order[j] in t.mem && t.mem[t.order[j]].idx == j {
        var i := mem[y].idx;
        var n := if j < i then order[j] else order[j + 1];
        assert t.order[j] == n;
        SplicedIdx(y, x, p, t, n);
      }
    }

    // What removing y leaves behind: a missing black node, if y was black.
    function Loss(y: Node, x: Node?, p: Node?): Flaw
      requires y in mem
    { if mem[y].color == Black then Short(p, SideOf(p, y), x) else Fine }

    lemma SplicedKidLooks(y: Node, x: Node?, p: Node?, t: Tree, n: Node, d: Side)
      requires Linked(y) && Spliced(y, x, p, t) && Linked(n) && n != y && mem[n].Kid(d) != y
      ensures SameKid(t, n, d)
    {
      assert KidOk(n, d);
      assert t.mem[n].Kid(d) == mem[n].Kid(d);
    }

    lemma SplicedPaintedTop(y: Node, x: Node?, p: Node, t: Tree)
      requires Linked(y) && Spliced(y, x, p, t) && Linked(p) && Painted(p, Fine) && Painted(y, Fine)
      requires x != null ==> Linked(x)
      ensures t.Painted(p, Loss(y, x, p))
    {
      var d := SideOf(p, y);
      assert KidOk(p, L) && KidOk(p, R) && KidOk(y, L) && KidOk(y, R);
      SplicedKidLooks(y, x, p, t, p, d.Flip());
      assert t.mem[p].Kid(d) == x && t.BH(x) == BH(x) == 0 && t.IsRed(x) == IsRed(x);
      assert IsRed(y) ==> !IsRed(x);
    }

    lemma SplicedPainted(y: Node, x: Node?, p: Node?, t: Tree, n: Node)
      requires Linked(y) && Spliced(y, x, p, t) && Linked(n) && n != y && n != p && Painted(n, Fine)
      ensures t.Painted(n, Loss(y, x, p))
    {
      assert KidOk(n, L) && KidOk(n, R);
      SplicedKidLooks(y, x, p, t, n, L);
      SplicedKidLooks(y, x, p, t, n, R);
      SamePainted(t, n, Fine, Loss(y, x, p));
    }

    lemma SplicedSound(y: Node, x: Node?, p: Node?, t: Tree)
      requires Sound(Fine) && Spliced(y, x, p, t)
      ensures t.Sound(Loss(y, x, p))
    {
      assert Linked(y) && Painted(y, Fine);
      assert KidOk(y, L) && KidOk(y, R);
      assert x != null ==> Linked(x);
      assert p != null ==> Linked(p);
      SplicedOrdered(y, x, p, t);
      forall n | n in t.mem ensures t.Linked(n) {
        assert Linked(n);
        assert mem[n].parent != null ==> Linked(mem[n].parent);
        SplicedLinked(y, x, p, t, n);
      }
      forall n | n in t.mem ensures t.Painted(n, Loss(y, x, p)) {
        assert Linked(n) && Painted(n, Fine);
        if n == p { SplicedPaintedTop(y, x, p, t); } else { SplicedPainted(y, x, p, t, n); }
      }
    }

    // After the splice RB_REMOVE_COLOR can start, if y was black.
    lemma SplicedSinks(y: Node, x: Node?, p: Node?, t: Tree)
      requires Sound(Fine) && !IsRed(root) && Spliced(y, x, p, t) && t.Sound(Loss(y, x, p))
      ensures mem[y].color == Black ==> t.Sinking(p, SideOf(p, y), x)
      ensures mem[y].color == Red ==> !t.IsRed(t.root)
    {
      assert Linked(y) && Painted(y, Fine);
      assert KidOk(y, L) && KidOk(y, R);
      assert x != null ==> Linked(x) && t.Linked(x);
      assert p != null ==> Linked(p);
      SplicedRoot(y, x, p, t);
    }

    lemma SplicedRoot(y: Node, x: Node?, p: Node?, t: Tree)
      requires Ordered() && Linked(y) && Spliced(y, x, p, t) && !IsRed(root)
      ensures p != null ==> !t.IsRed(t.root)
    {
      assert p != null ==> root != y;
    }

    // ---- putting y in the place of o -----------------------------------------

    ghost predicate Swapped(o: Node, y: Node, t: Tree)
    {
      && o in mem && y !in mem && 0 <= mem[o].idx < |order|
      && t.root == (if mem[o].parent == null then y else root)
      && t.order == order[mem[o].idx := y]
      && t.mem.Keys == mem.Keys - {o} + {y}
      && t.mem[y] == mem[o]
      && (forall n :: n in mem && n != o ==> t.mem[n] == Renamed(o, y, mem[n]))
    }

    ghost function As(o: Node, y: Node, k: Node?): Node? { if k == o then y else k }

    ghost function Renamed(o: Node, y: Node, c: Cell): Cell
    { c.(left := As(o, y, c.left), right := As(o, y, c.right), parent := As(o, y, c.parent)) }

    ghost function RenamedFlaw(o: Node, y: Node, f: Flaw): Flaw
    { if f.Short? then Short(As(o, y, f.par), f.side, As(o, y, f.low)) else f }

    // y stands beside o, with the same links.
    ghost function Beside(o: Node, y: Node): Tree
      requires o in mem && 0 <= mem[o].idx < |order|
    { Tree(root, mem[y := mem[o]], order[mem[o].idx := y]) }

    ghost function Without(o: Node): Tree
    { this.(mem := mem - {o}) }

    ghost function SwapSteps(o: Node, y: Node): Tree
      requires o in mem && y !in mem && 0 <= mem[o].idx < |order|
      requires mem[o].left != null ==> mem[o].left in mem
      requires mem[o].right != null ==> mem[o].right in mem
      requires mem[o].parent != null ==> mem[o].parent in mem
    {
      Beside(o, y).Rehung(mem[o].parent, o, y).Reparented(mem[o].left, y).Reparented(mem[o].right, y).Without(o)
    }

    // After y was hung up in the place of o, kids are renamed.
    lemma SwapStepsKids(o: Node, y: Node, n: Node)
      requires Linked(o) && y !in mem && Linked(n) && n != o
      requires mem[o].parent != null ==> Linked(mem[o].parent)
      ensures var t := Beside(o, y).Rehung(mem[o].parent, o, y);
              && t.mem.Keys == mem.Keys + {y}
              && t.mem[n] == mem[n].(left := As(o, y, mem[n].left), right := As(o, y, mem[n].right))
    {
      assert KidOk(n, L) && KidOk(n, R);
    }

    lemma SwapStepsCell(o: Node, y: Node, n: Node)
      requires Linked(o) && y !in mem && Linked(n) && n != o
      requires mem[o].parent != null ==> Linked(mem[o].parent)
      requires mem[n].parent != null ==> Linked(mem[n].parent)
      ensures n in SwapSteps(o, y).mem && SwapSteps(o, y).mem[n] == Renamed(o, y, mem[n])
    {
      assert KidOk(o, L) && KidOk(o, R);
      SwapStepsKids(o, y, n);
      assert mem[n].parent == o <==> n == mem[o].left || n == mem[o].right by { assert Hung(n); }
    }

    lemma SwapStepsSwapped(o: Node, y: Node)
      requires o in mem && y !in mem
      requires forall m {:trigger Linked(m)} :: m in mem ==> Linked(m)
      ensures Linked(o) && Swapped(o, y, SwapSteps(o, y))
    {
      assert Linked(o);
      assert KidOk(o, L) && KidOk(o, R) && Hung(o);
      assert mem[o].parent != null ==> Linked(mem[o].parent);
      var t := SwapSteps(o, y);
      assert t.mem.Keys == mem.Keys - {o} + {y};
      forall n | n in mem && n != o ensures t.mem[n] == Renamed(o, y, mem[n]) {
        assert Linked(n);
        assert mem[n].parent != null ==> Linked(mem[n].parent);
        SwapStepsCell(o, y, n);
      }
    }

    // Renaming does not change what a node looks like.
    lemma SwappedCell(o: Node, y: Node, t: Tree, n: Node)
      requires Linked(o) && Linked(n) && Swapped(o, y, t)
      requires forall m {:trigger Linked(m)} :: m in mem ==> Linked(m)
      ensures As(o, y, n) in t.mem && t.mem[As(o, y, n)] == Renamed(o, y, mem[n])
    {
      assert KidOk(o, L) && KidOk(o, R);
    }

    lemma SwappedLinked(o: Node, y: Node, t: Tree, n: Node)
      requires Linked(o) && Linked(n) && Swapped(o, y, t)
      requires forall m {:trigger Linked(m)} :: m in mem ==> Linked(m)
      ensures t.Linked(As(o, y, n))
    {
      SwappedCell(o, y, t, n);
      assert KidOk(n, L) && KidOk(n, R);
    }

    lemma SwappedLooks(o: Node, y: Node, t: Tree, k: Node?)
      requires Swapped(o, y, t) && k != y
      ensures t.BH(As(o, y, k)) == BH(k) && t.IsRed(As(o, y, k)) == IsRed(k)
    {
    }

    lemma SwappedPainted(o: Node, y: Node, t: Tree, n: Node, f: Flaw)
      requires Linked(o) && Linked(n) && Swapped(o, y, t) && Painted(n, f) && f != RedRed(o)
      requires forall m {:trigger Linked(m)} :: m in mem ==> Linked(m)
      requires f.Short? ==> f.par != y && f.low != y
      ensures t.Painted(As(o, y, n), RenamedFlaw(o, y, f))
    {
      SwappedCell(o, y, t, n);
      assert KidOk(n, L) && KidOk(n, R);
      SwappedLooks(o, y, t, mem[n].left);
      SwappedLooks(o, y, t, mem[n].right);
    }

    lemma SwappedNode(o: Node, y: Node, t: Tree, f: Flaw, n: Node)
      requires Sound(f) && Swapped(o, y, t) && !f.RedRed? && n in t.mem
      requires f.Short? ==> f.par != y && f.low != y
      ensures t.Linked(n) && t.Painted(n, RenamedFlaw(o, y, f))
    {
      var m := if n == y then o else n;
      assert Linked(o) && Linked(m) && Painted(m, f);
      SwappedLinked(o, y, t, m);
      SwappedPainted(o, y, t, m, f);
    }

    lemma SwappedOrdered(o: Node, y: Node, t: Tree)
      requires Ordered() && Linked(o) && Swapped(o, y, t) && (root != null ==> Linked(root))
      ensures t.Ordered()
    {
      forall i | 0 <= i < |t.order| ensures t.order[i] in t.mem && t.mem[t.order[i]].idx == i {
        assert i != mem[o].idx ==> t.order[i] == order[i] && order[i] != o;
      }
    }

    lemma SwappedSound(o: Node, y: Node, t: Tree, f: Flaw)
      requires Sound(f) && Swapped(o, y, t) && !f.RedRed?
      requires f.Short? ==> f.par != y && f.low != y
      ensures t.Sound(RenamedFlaw(o, y, f))
    {
      assert Linked(o) && (root != null ==> Linked(root));
      SwappedOrdered(o, y, t);
      forall n | n in t.mem ensures t.Linked(n) && t.Painted(n, RenamedFlaw(o, y, f)) { SwappedNode(o, y, t, f, n); }
    }

    lemma SwappedSinks(o: Node, y: Node, t: Tree, par: Node?, s: Side, low: Node?)
      requires Sinking(par, s, low) && Swapped(o, y, t) && par != y && low != y && low != o
      requires t.Sound(RenamedFlaw(o, y, Short(par, s, low)))
      ensures t.Sinking(As(o, y, par), s, low)
    {
      assert Linked(o);
      assert par != null ==> Linked(par);
      if low != null {
        SwappedCell(o, y, t, low);
        assert t.Linked(low);
      }
      if par != null {
        SwappedCell(o, y, t, par);
      }
      SwappedRoot(o, y, t);
    }

    lemma SwappedRoot(o: Node, y: Node, t: Tree)
      requires Ordered() && Linked(o) && Swapped(o, y, t)
      ensures t.IsRed(t.root) == IsRed(root) && t.root == As(o, y, root)
    {
      assert Hung(o);
    }

    // y comes right after o, inside the right subtree of o, and has no left kid.
    ghost predicate Follows(o: Node, y: Node)
    {
      && Linked(o) && mem[o].left != null && Linked(y) && mem[y].left == null
      && mem[y].lo == mem[y].idx == mem[o].idx + 1 && mem[y].hi <= mem[o].hi
    }

    // What o and its surroundings look like once the successor y is taken out.
    lemma FollowsSpliced(o: Node, y: Node, x: Node?, p: Node?, t: Tree)
      requires Sound(Fine) && Follows(o, y) && Spliced(y, x, p, t) && x == mem[y].right
      ensures o in t.mem && y !in t.mem && t.mem[o].left != null && t.mem[o].idx == mem[o].idx
      ensures x != o && p != y && x != y
    {
      assert KidOk(y, L) && KidOk(y, R) && KidOk(o, L) && KidOk(o, R);
      assert p != null ==> Linked(p);
      assert mem[o].left != y;
    }

    // Putting y where o is, in the order without y, leaves the order without o.
    lemma FollowsOrder(o: Node, y: Node, x: Node?, p: Node?, t: Tree)
      requires Sound(Fine) && Follows(o, y) && Spliced(y, x, p, t)
      ensures var i := mem[o].idx; 0 <= i < |t.order| < |order| && t.order[i := y] == order[..i] + order[i + 1..]
    {
      assert order[mem[o].idx + 1] == y;
      CutAndPut(order, mem[o].idx);
    }

    // Taking out the element after i and putting it at i takes out the element at i.
    static lemma CutAndPut(s: seq<Node>, i: int)
      requires 0 <= i && i + 1 < |s|
      ensures (s[..i + 1] + s[i + 2..])[i := s[i + 1]] == s[..i] + s[i + 1..]
    {
    }

    // ---- the sequence the tree stands for, and how high it is -------------------

    // The nodes of the subtree below k, left to right, straight from the links.
    ghost function InOrder(k: Node?): seq<Node>
      requires forall n {:trigger Linked(n)} :: n in mem ==> Linked(n)
      requires k != null ==> k in mem
      decreases if k == null then 0 else mem[k].hi - mem[k].lo
    {
      if k == null then []
      else
        assert Linked(k);
        InOrder(mem[k].left) + [k] + InOrder(mem[k].right)
    }

    static lemma SliceAround(s: seq<Node>, lo: int, i: int, hi: int)
      requires 0 <= lo <= i < hi <= |s|
      ensures s[lo..hi] == s[lo..i] + [s[i]] + s[i + 1..hi]
    {
    }

    lemma {:induction false} InOrderSlice(k: Node)
      requires forall n {:trigger Linked(n)} :: n in mem ==> Linked(n)
      requires k in mem
      ensures 0 <= mem[k].lo <= mem[k].hi <= |order| && InOrder(k) == order[mem[k].lo..mem[k].hi]
      decreases mem[k].hi - mem[k].lo
    {
      var c := mem[k];
      assert Linked(k);
      assert KidOk(k, L) && KidOk(k, R);
      if c.left != null { InOrderSlice(c.left); }
      if c.right != null { InOrderSlice(c.right); }
      SliceAround(order, c.lo, c.idx, c.hi);
    }

    // An in-order walk from the root visits exactly the nodes of order.
    lemma InOrderIsOrder()
      requires Sound(Fine)
      ensures (root != null ==> root in mem) && InOrder(root) == order
    {
      if root != null {
        assert Linked(root);
        InOrderSlice(root);
      }
    }

    // path leads from k down to a missing kid.
    ghost predicate Ends(k: Node?, path: seq<Side>)
    { if path == [] then k == null else k != null && k in mem && Ends(mem[k].Kid(path[0]), path[1..]) }

    ghost function Blacks(k: Node?, path: seq<Side>): int
    {
      if path == [] || k == null || k !in mem then 0
      else (if mem[k].color == Black then 1 else 0) + Blacks(mem[k].Kid(path[0]), path[1..])
    }

    // Every path down from k meets the same number of black nodes.
    lemma {:induction false} EqualBlack(k: Node?, path: seq<Side>)
      requires Sound(Fine) && Ends(k, path)
      ensures Blacks(k, path) == BH(k)
    {
      if path != [] {
        assert Painted(k, Fine);
        EqualBlack(mem[k].Kid(path[0]), path[1..]);
      }
    }

    // The textbook reading of Sound: links in both directions, no red node with a red kid, and
    // the same number of black nodes on any two ways down.  InOrderIsOrder adds the order.
    lemma SoundMeans(n: Node, s: Side, p: seq<Side>, q: seq<Side>)
      requires Sound(Fine) && n in mem
      ensures mem[n].Kid(s) != null ==> mem[n].Kid(s) in mem && mem[mem[n].Kid(s)].parent == n
      ensures mem[n].parent != null ==>
              mem[n].parent in mem && (mem[mem[n].parent].left == n || mem[mem[n].parent].right == n)
      ensures mem[n].parent == null <==> n == root
      ensures mem[n].color == Red ==> NoRedKid(n)
      ensures Ends(n, p) && Ends(n, q) ==> Blacks(n, p) == Blacks(n, q)
    {
      assert Linked(n) && Painted(n, Fine);
      assert KidOk(n, s);
      if Ends(n, p) && Ends(n, q) {
        EqualBlack(n, p);
        EqualBlack(n, q);
      }
    }

    ghost function Height(k: Node?): nat
      requires forall n {:trigger Linked(n)} :: n in mem ==> Linked(n)
      requires k != null ==> k in mem
      decreases if k == null then 0 else mem[k].hi - mem[k].lo
    {
      if k == null then 0
      else
        assert Linked(k);
        var l, r := Height(mem[k].left), Height(mem[k].right);
        1 + if l < r then r else l
    }

    // A subtree is at most twice as high as its black height, plus one for a red top.
    lemma {:induction false} HeightFromBlack(k: Node?)
      requires Sound(Fine) && (k != null ==> k in mem)
      ensures 0 <= BH(k) && Height(k) <= 2 * BH(k) + (if IsRed(k) then 1 else 0)
      decreases if k == null then 0 else mem[k].hi - mem[k].lo
    {
      if k != null {
        assert Linked(k) && Painted(k, Fine);
        assert KidOk(k, L) && KidOk(k, R);
        HeightFromBlack(mem[k].left);
        HeightFromBlack(mem[k].right);
      }
    }

    // A subtree of black height h has at least 2^h - 1 nodes.
    lemma {:induction false} SizeFromBlack(k: Node?)
      requires Sound(Fine) && (k != null ==> k in mem)
      ensures 0 <= BH(k) && Pow2(BH(k)) <= (if k == null then 0 else mem[k].hi - mem[k].lo) + 1
      decreases if k == null then 0 else mem[k].hi - mem[k].lo
    {
      if k != null {
        assert Linked(k) && Painted(k, Fine);
        assert KidOk(k, L) && KidOk(k, R);
        SizeFromBlack(mem[k].left);
        SizeFromBlack(mem[k].right);
      }
    }

    // height <= 2 lg(n + 1)
    lemma HeightBound()
      requires Sound(Fine) && !IsRed(root)
      ensures (root != null ==> root in mem) && Pow2(Height(root)) <= (|order| + 1) * (|order| + 1)
    {
      if root != null {
        assert Linked(root);
      }
      HeightFromBlack(root);
      SizeFromBlack(root);
      SquareBound(BH(root), Height(root), |order| + 1);
    }
  }

  function Pow2(n: nat): (r: nat) ensures r >= 1 { if n == 0 then 1 else 2 * Pow2(n - 1) }

  lemma {:induction false} Pow2Monotone(a: nat, b: nat)
    requires a <= b
    ensures Pow2(a) <= Pow2(b)
  {
    if a < b { Pow2Monotone(a, b - 1); }
  }

  lemma SquareBound(b: nat, h: nat, m: nat)
    requires h <= 2 * b && Pow2(b) <= m
    ensures Pow2(h) <= m * m
  {
    Pow2Monotone(h, b + b);
    Pow2Sum(b, b);
    SquareMonotone(Pow2(b), m);
  }

  lemma SquareMonotone(x: nat, y: nat)
    requires x <= y
    ensures x * x <= y * y
  {
    assert x * x <= x * y <= y * y;
  }

  lemma {:induction false} Pow2Sum(a: nat, b: nat)
    ensures Pow2(a + b) == Pow2(a) * Pow2(b)
  {
    if a > 0 {
      Pow2Sum(a - 1, b);
    }
  }
}