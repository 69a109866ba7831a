// The RB_GENERATE functions of devicemodel/include/tree.h on linked nodes.  The mirror-image
// branches of the macros are written once, with the side as a parameter.  The ghost fields mem
// and order follow the node fields; RbShape proves what the steps mean.
module RbTree {
  import opened RbShape

  class Head {
    var root: Node?
    ghost var mem: Mem
    ghost var order: seq<Node>

    // RB_INIT
    constructor ()
      ensures Valid() && root == null && order == [] && mem == map[]
    {
      root, order, mem := null, [], map[];
    }

    // The tree as a value
    ghost function T(): Tree
      reads this
    { Tree(root, mem, order) }

    // The nodes in memory hold what mem says.
    ghost predicate Agrees()
      reads this, mem.Keys
    {
      forall n {:trigger mem[n]} :: n in mem ==>
        && n.left == mem[n].left && n.right == mem[n].right
        && n.parent == mem[n].parent && n.color == mem[n].color
    }

    method SetKid(n: Node, s: Side, k: Node?)
      requires Agrees() && n in mem
      modifies n`left, n`right, this`mem
      ensures Agrees() && T() == old(T()).Rekidded(n, s, k)
    {
      if s == L { n.left := k; } else { n.right := k; }
      mem := mem[n := mem[n].With(s, k)];
    }

    method SetParent(n: Node?, p: Node?)
      requires Agrees() && (n != null ==> n in mem)
      modifies (if n == null then {} else {n})`parent, this`mem
      ensures Agrees() && T() == old(T()).Reparented(n, p)
    {
      if n != null {
        n.parent := p;
        mem := mem[n := mem[n].(parent := p)];
      }
    }

    method Rehang(p: Node?, was: Node, now: Node?)
      requires Agrees() && (p != null ==> p in mem)
      modifies (if p == null then {} else {p})`left, (if p == null then {} else {p})`right, this`root, this`mem
      ensures Agrees() && T() == old(T()).Rehung(p, was, now)
    {
      if p != null {
        if p.left == was {
          SetKid(p, L, now);
        } else {
          SetKid(p, R, now);
        }
      } else {
        root := now;
      }
    }

    method Paint(n: Node, c: Color, ghost bh: int)
      requires Agrees() && n in mem
      modifies n`color, this`mem
      ensures Agrees() && T() == old(T()).Coated(n, c, bh)
    {
      n.color := c;
      mem := mem[n := mem[n].(color := c, bh := bh)];
    }

    ghost method SetSpans(r: Turn)
      requires Agrees() && r.elm in mem && r.tmp in mem
      modifies this`mem
      ensures Agrees() && T() == old(T()).Respanned(r)
    {
      mem := T().Respanned(r).mem;
    }

    method Rotate(elm: Node, s: Side, ghost r: Turn) returns (tmp: Node)
      requires Agrees() && T().Apart(r) && r.elm == elm && r.s == s
      requires mem[elm].Kid(s.Flip()) == r.tmp && mem[elm].parent == r.p && mem[r.tmp].Kid(s) == r.b
      modifies this`root, this`mem, mem.Keys
      ensures Agrees() && tmp == r.tmp && T() == old(T()).Spin(r)
    {
      tmp := elm.Kid(s.Flip());
      var b, p := tmp.Kid(s), elm.parent;
      SetKid(elm, s.Flip(), b);
      SetParent(b, elm);
      SetParent(tmp, p);
      Rehang(p, elm, tmp);
      SetKid(tmp, s, elm);
      SetParent(elm, tmp);
      SetSpans(r);
    }

    // RB_INSERT_COLOR, red uncle
    method FlipColors(g: Node, p: Node, u: Node)
      requires Agrees() && g in mem && p in mem && u in mem && g != p && g != u && p != u
      modifies this`mem, g`color, p`color, u`color
      ensures Agrees() && old(T()).Flipped(g, p, u, T())
    {
      ghost var t := T();
      t.CoatsFlip(g, p, u);
      Paint(u, Black, t.mem[u].bh + 1);
      Paint(p, Black, t.mem[p].bh + 1);
      Paint(g, Red, t.mem[g].bh);
    }

    method InsertFlip(g: Node, p: Node, u: Node, ghost e: Node, ghost s: Side)
      requires Agrees() && T().Sound(RedRed(e)) && T().Family(g, p, u, e, s)
      modifies this`mem, g`color, p`color, u`color
      ensures Agrees() && T().Sound(RedRed(g)) && old(T()).Flipped(g, p, u, T())
    {
      ghost var t := T();
      t.FamilyApart(g, p, u, e, s) by { t.FamilyLinked(g, p, u, e, s); }
      FlipColors(g, p, u);
      t.FlipSound(g, p, u, e, s, T());
    }

    // SET_BLACKRED and the like followed by a rotation: recolour the pair, then turn it.
    method PaintAndRotate(elm: Node, s: Side, ec: Color, tc: Color, ghost r: Turn) returns (tmp: Node)
      requires Agrees() && T().Apart(r) && r.elm == elm && r.s == s && r.ec == ec && r.tc == tc
      requires mem[elm].Kid(s.Flip()) == r.tmp && mem[elm].parent == r.p && mem[r.tmp].Kid(s) == r.b
      modifies this`root, this`mem, mem.Keys
      ensures Agrees() && tmp == r.tmp && old(T()).Spun(r, T())
    {
      ghost var t := T();
      PaintPair(elm.Kid(s.Flip()), tc, elm, ec, r);
      ghost var t1 := T();
      t1.SpinSpun(r);
      tmp := Rotate(elm, s, r);
      t.PaintThenSpin(t1, r, T());
    }

    // The two nodes of a rotation get the colours it will leave them with.
    method PaintPair(tmp: Node, tc: Color, elm: Node, ec: Color, ghost r: Turn)
      requires Agrees() && T().Apart(r) && r.elm == elm && r.tmp == tmp && r.ec == ec && r.tc == tc
      modifies this`mem, tmp`color, elm`color
      ensures Agrees() && old(T()).Repainted({r.elm, r.tmp}, T()) && T().Apart(r)
      ensures mem[r.elm] == old(mem)[r.elm].(color := r.ec, bh := r.eh)
      ensures mem[r.tmp] == old(mem)[r.tmp].(color := r.tc, bh := r.th)
    {
      T().PairCoated(r);
      Paint(tmp, tc, r.th);
      Paint(elm, ec, r.eh);
    }

    // Every fix-up step leaves the same nodes in the same order.
    twostate predicate SameNodes()
      reads this
    { mem.Keys == old(mem.Keys) && order == old(order) }

    // RB_INSERT_COLOR, elm is the inner grandchild: rotate it over its parent.
    method InsertInner(ghost g: Node, p: Node, e: Node, s: Side)
      requires Agrees() && T().Sound(RedRed(e)) && T().Doubled(g, p, e)
      requires mem[p].Kid(s.Flip()) == e && mem[g].Kid(s) == p && !T().IsRed(mem[g].Kid(s.Flip()))
      modifies this`root, this`mem, mem.Keys
      ensures Agrees() && SameNodes() && T().Sound(RedRed(p)) && T().IsRed(root) == old(T().IsRed(root))
      ensures T().Doubled(g, e, p) && mem[e].Kid(s) == p
      ensures mem[g].Kid(s) == e && !T().IsRed(mem[g].Kid(s.Flip()))
    {
      ghost var t := T();
      ghost var r := t.InnerTurn(g, p, e, s);
      t.InnerAround(g, p, e, s);
      t.SpinSpun(r);
      var _ := Rotate(p, s, r);
      t.InnerSound(g, p, e, s, T());
      t.SpunRoot(r, T());
      assert T().Linked(g) && T().Linked(p) && T().Linked(e);
      t.InnerAfter(g, p, e, s, T());
    }

    // RB_INSERT_COLOR, elm is the outer grandchild: rotate the parent over the grandparent.
    method InsertOuter(g: Node, p: Node, ghost e: Node, s: Side)
      requires Agrees() && T().Sound(RedRed(e)) && T().Doubled(g, p, e)
      requires mem[p].Kid(s) == e && mem[g].Kid(s) == p && !T().IsRed(mem[g].Kid(s.Flip()))
      modifies this`root, this`mem, mem.Keys
      ensures Agrees() && SameNodes() && T().Sound(Fine) && T().IsRed(root) == old(T().IsRed(root))
      ensures e in mem && mem[e].color == Red && mem[e].parent == p && p in mem && mem[p].color == Black
    {
      ghost var t := T();
      t.OuterAround(g, p, e, s);
      var _ := PaintAndRotate(g, s.Flip(), Red, Black, t.OuterTurn(g, p, s));
      t.OuterSound(g, p, e, s, T());
      t.SpunRoot(t.OuterTurn(g, p, s), T());
      t.OuterAfter(g, p, e, s, T());
    }

    // A red-black tree with black root
    ghost predicate Valid()
      reads this, mem.Keys
    { Agrees() && T().Sound(Fine) && !T().IsRed(root) }

    // RB_INSERT_COLOR, black uncle: one or two rotations end the loop.
    method InsertTurn(g: Node, p: Node, e: Node, s: Side) returns (low: Node)
      requires Agrees() && T().Sound(RedRed(e)) && T().Doubled(g, p, e)
      requires mem[g].Kid(s) == p && !T().IsRed(mem[g].Kid(s.Flip()))
      modifies this`root, this`mem, mem.Keys
      ensures Agrees() && SameNodes() && T().Sound(Fine) && T().IsRed(root) == old(T().IsRed(root))
      ensures T().Linked(low) && mem[low].color == Red && T().IsBlack(mem[low].parent)
    {
      low := e;
      var top := p;
      if p.Kid(s.Flip()) == e {
        InsertInner(g, p, e, s);
        low, top := p, e;
      }
      InsertOuter(g, top, low, s);
      assert T().Linked(low);
    }

    // One round of the loop of RB_INSERT_COLOR.
    method InsertRound(elm: Node, parent: Node) returns (elm': Node)
      requires Agrees() && T().Rising(elm) && mem[elm].parent == parent && mem[parent].color == Red
      modifies this`root, this`mem, mem.Keys
      ensures Agrees() && SameNodes() && T().Rising(elm') && T().Climb(elm') < old(T().Climb(elm))
    {
      ghost var t := T();
      t.RisingUp(elm, parent);
      var gparent := parent.parent;
      var s := if parent == gparent.left then L else R;
      var tmp := gparent.Kid(s.Flip());
      t.UncleLinked(gparent, s);
      if tmp != null && tmp.color == Red {
        InsertFlip(gparent, parent, tmp, elm, s);
        t.FlipClimbs(gparent, parent, tmp, elm, s, T());
        elm' := gparent;
      } else {
        elm' := InsertTurn(gparent, parent, elm, s);
        T().FineIsRedRed(elm');
      }
    }

    method BlackenRoot(ghost elm: Node)
      requires Agrees() && T().Rising(elm) && !T().IsRed(mem[elm].parent)
      modifies this`mem, root`color
      ensures Valid() && SameNodes()
    {
      ghost var t := T();
      Paint(root, Black, t.mem[root].bh + if t.mem[root].color == Red then 1 else 0);
      t.RootSound(elm, T());
    }

    method InsertColor(elm0: Node)
      requires Agrees() && T().Rising(elm0)
      modifies this`root, this`mem, mem.Keys
      ensures Valid() && SameNodes()
    {
      var elm := elm0;
      while elm.parent != null && elm.parent.color == Red
        invariant Agrees() && T().Rising(elm) && SameNodes()
        decreases T().Climb(elm)
      {
        elm := InsertRound(elm, elm.parent);
      }
      BlackenRoot(elm);
    }

    // RB_SET: elm gets its place between the nodes, but no link leads to it yet.
    method SetLeaf(elm: Node, parent: Node, ghost s: Side)
      requires Agrees() && parent in mem && T().Placed(parent) && elm !in mem
      modifies this`mem, this`order, elm
      ensures Agrees() && T() == old(T()).Shifted(elm, parent, s)
    {
      elm.parent, elm.left, elm.right, elm.color := parent, null, null, Red;
      ghost var t := T().Shifted(elm, parent, s);
      order, mem := t.order, t.mem;
    }

    method LinkLeaf(elm: Node, parent: Node, s: Side)
      requires Agrees() && parent in mem && T().Placed(parent) && mem[parent].Kid(s) == null && elm !in mem
      modifies this`mem, this`order, elm, parent`left, parent`right
      ensures Agrees() && old(T()).Grown(parent, s, elm, T())
    {
      T().ShiftedGrown(elm, parent, s);
      SetLeaf(elm, parent, s);
      SetKid(parent, s, elm);
    }

    // RB_FIND with the key [base, end]
    method Find(base: int, end: int) returns (found: Node?)
      requires Valid() && Spread(order) && base <= end + 1
      ensures found != null ==> found in order && Overlaps(found, base, end)
      ensures found == null ==> forall i :: 0 <= i < |order| ==> !Overlaps(order[i], base, end)
    {
      found := root;
      ghost var lo, hi := 0, |order|;
      T().RootSpans();
      while found != null
        invariant T().Spans(found, lo, hi) && Between(order, lo, hi, base, end)
        decreases hi - lo
      {
        T().Step(found, lo, hi, base, end);
        var comp := Compare(base, end, found);
        if comp < 0 {
          hi := mem[found].idx;
          found := found.left;
        } else if comp > 0 {
          lo := mem[found].idx + 1;
          found := found.right;
        } else {
          return;
        }
      }
    }

    // The search loop of RB_INSERT: an overlapping node, or the leaf to link below.
    method Descend(base: int, end: int) returns (found: Node?, parent: Node?, s: Side, ghost pos: int)
      requires Valid() && Spread(order) && base <= end + 1
      ensures found != null ==> found in order && Overlaps(found, base, end)
      ensures found == null ==> 0 <= pos <= |order| && Between(order, pos, pos, base, end)
      ensures found == null && parent == null ==> root == null
      ensures found == null && parent != null ==>
                && parent in mem && mem[parent].Kid(s) == null
                && pos == (if s == L then mem[parent].idx else mem[parent].idx + 1)
    {
      found, parent, s := root, null, L;
      ghost var lo, hi := 0, |order|;
      T().RootSpans();
      while found != null
        invariant T().Spans(found, lo, hi) && Between(order, lo, hi, base, end)
        invariant parent == null ==> found == root
        invariant parent != null ==>
                    && parent in mem && mem[parent].Kid(s) == found
                    && lo == mem[parent].From(s) && hi == mem[parent].To(s)
        decreases hi - lo
      {
        T().Step(found, lo, hi, base, end);
        parent := found;
        var comp := Compare(base, end, parent);
        if comp < 0 {
          hi := mem[parent].idx;
          s := L;
          found := parent.left;
        } else if comp > 0 {
          lo := mem[parent].idx + 1;
          s := R;
          found := parent.right;
        } else {
          return found, parent, s, lo;
        }
      }
      pos := lo;
    }

    method LinkRoot(elm: Node)
      requires Agrees() && root == null && order == [] && mem == map[]
      modifies this, elm
      ensures Agrees() && T() == Tree(elm, map[elm := Cell(null, null, null, Red, 0, 0, 1, 0)], [elm])
    {
      elm.parent, elm.left, elm.right, elm.color := null, null, null, Red;
      root, order := elm, [elm];
      mem := map[elm := Cell(null, null, null, Red, 0, 0, 1, 0)];
    }

    // RB_INSERT links the new node below parent, or as the root.
    method LinkNew(elm: Node, parent: Node?, s: Side, ghost pos: int)
      requires Valid() && elm !in mem && (parent == null ==> root == null && pos == 0)
      requires parent != null ==> parent in mem && mem[parent].Kid(s) == null
                                  && pos == (if s == L then mem[parent].idx else mem[parent].idx + 1)
      requires 0 <= pos <= |order|
      modifies this, mem.Keys, elm
      ensures Agrees() && T().Rising(elm)
      ensures order == old(order)[..pos] + [elm] + old(order)[pos..] && mem.Keys == old(mem.Keys) + {elm}
    {
      ghost var t := T();
      if parent != null {
        assert t.Linked(parent);
        LinkLeaf(elm, parent, s);
        t.GrownSound(parent, s, elm, T());
        t.GrownRises(parent, s, elm, T());
      } else {
        t.EmptyTree();
        LinkRoot(elm);
        assert order == t.order[..pos] + [elm] + t.order[pos..];
        T().SingleRises(elm);
      }
    }

    // RB_INSERT after its search loop
    method Attach(elm: Node, parent: Node?, s: Side, ghost pos: int)
      requires Valid() && elm !in mem && (parent == null ==> root == null && pos == 0)
      requires parent != null ==> parent in mem && mem[parent].Kid(s) == null
                                  && pos == (if s == L then mem[parent].idx else mem[parent].idx + 1)
      requires 0 <= pos <= |order|
      modifies this, mem.Keys, elm
      ensures Valid() && order == old(order)[..pos] + [elm] + old(order)[pos..] && mem.Keys == old(mem.Keys) + {elm}
    {
      LinkNew(elm, parent, s, pos);
      InsertColor(elm);
    }

    // RB_INSERT
    method Insert(elm: Node) returns (overlap: Node?, ghost pos: int)
      requires Valid() && Spread(order) && elm !in mem && elm.base <= elm.end + 1
      modifies this, mem.Keys, elm
      ensures Valid() && Spread(order)
      ensures overlap != null ==> overlap in old(order) && Overlaps(overlap, elm.base, elm.end) && T() == old(T())
      ensures overlap == null ==> forall i :: 0 <= i < |old(order)| ==> !Overlaps(old(order)[i], elm.base, elm.end)
      ensures overlap == null ==> 0 <= pos <= |old(order)| && order == old(order)[..pos] + [elm] + old(order)[pos..]
      ensures overlap == null ==> mem.Keys == old(mem.Keys) + {elm}
    {
      var parent, s;
      overlap, parent, s, pos := Descend(elm.base, elm.end);
      if overlap == null {
        if parent == null { T().EmptyTree(); }
        Attach(elm, parent, s, pos);
        SpreadInsert(old(order), elm, pos);
      }
    }

    // RB_REMOVE_COLOR, red sibling
    method RemoveRedSibling(par: Node, s: Side, ghost low: Node?, ghost w: Node)
      requires Agrees() && T().Sinking(par, s, low) && T().Lacking(par, s, low, w) && mem[w].color == Red
      modifies this`root, this`mem, mem.Keys
      ensures Agrees() && SameNodes() && T().Sinking(par, s, low) && T().Width(low) == old(T().Width(low)) &&
              !T().IsRed(low)
      ensures T().IsBlack(mem[par].Kid(s.Flip()))
    {
      ghost var t := T();
      ghost var r := t.RedSibling(par, s, w);
      t.RedSiblingAround(par, s, low, w);
      var _ := PaintAndRotate(par, s, Red, Black, r);
      t.RedSiblingSound(par, s, low, w, T());
      t.RedSiblingAfter(par, s, low, w, T());
    }

    // RB_REMOVE_COLOR, the inner nephew is red and the outer one is not
    method RemoveInnerNephew(ghost par: Node, s: Side, ghost low: Node?, w: Node, ghost v: Node)
      requires Agrees() && T().Sinking(par, s, low) && T().Lacking(par, s, low, w) && mem[w].color == Black
      requires mem[w].Kid(s) == v && T().IsRed(v) && !T().IsRed(mem[w].Kid(s.Flip()))
      modifies this`root, this`mem, mem.Keys
      ensures Agrees() && SameNodes() && T().Sinking(par, s, low) && !T().IsRed(low)
      ensures mem[par].Kid(s.Flip()) == v && mem[v].color == Black && mem[v].Kid(s.Flip()) == w && T().IsRed(w)
    {
      ghost var t := T();
      t.InnerNephewAround(par, s, low, w, v);
      var _ := PaintAndRotate(w, s.Flip(), Red, Black, t.InnerNephew(par, s, w, v));
      t.InnerNephewSound(par, s, low, w, v, T());
      t.InnerNephewAfter(par, s, low, w, v, T());
    }

    // The red outer nephew turns black; the tree is ready for the last rotation.
    method BlackenNephew(ghost par: Node, ghost s: Side, ghost low: Node?, ghost w: Node, v: Node, ghost r: Turn)
      requires Agrees() && T().Lacking(par, s, low, w) && mem[w].color == Black && r == T().OuterNephew(par, s, w)
      requires mem[w].Kid(s.Flip()) == v && T().IsRed(v)
      modifies this`mem, v`color
      ensures Agrees() && SameNodes() && old(T()).Repainted({v}, T()) && T().Apart(r)
      ensures mem[v].color == Black && mem[v].bh == old(mem)[v].bh + 1
      ensures mem[par].Kid(s.Flip()) == r.tmp && mem[par].parent == r.p && mem[r.tmp].Kid(s) == r.b
      ensures mem[par].color == old(mem)[par].color
    {
      ghost var t := T();
      Paint(v, Black, t.mem[v].bh + 1);
      t.OuterNephewAround(par, s, low, w, v, T());
    }

    // RB_REMOVE_COLOR, the outer nephew is red: the last rotation
    method RemoveOuterNephew(par: Node, s: Side, ghost low: Node?, ghost w: Node, v: Node)
      requires Agrees() && T().Sinking(par, s, low) && T().Lacking(par, s, low, w) && mem[w].color == Black
      requires mem[w].Kid(s.Flip()) == v && T().IsRed(v)
      modifies this`root, this`mem, mem.Keys
      ensures Agrees() && SameNodes() && T().Sound(Fine) && !T().IsRed(root)
    {
      ghost var t := T();
      ghost var r := t.OuterNephew(par, s, w);
      BlackenNephew(par, s, low, w, v, r);
      ghost var t1 := T();
      var _ := PaintAndRotate(par, s, Black, par.color, r);
      t.OuterNephewEnds(par, s, low, w, v, t1, T());
    }

    method ReddenPair(ghost par: Node, w: Node)
      requires Agrees() && par in mem && w in mem && par != w
      modifies this`mem, w`color
      ensures Agrees() && old(T()).Reddened(par, w, T())
    {
      ghost var t := T();
      t.CoatsRedden(par, w);
      Paint(w, Red, t.mem[w].bh - 1);
      Recount(par, t.mem[par].color, t.mem[par].bh - 1);
    }

    // RB_REMOVE_COLOR, both nephews are black: the shortage moves up
    method RemoveRedden(ghost par: Node, ghost s: Side, ghost low: Node?, w: Node)
      requires Agrees() && T().Sinking(par, s, low) && T().Lacking(par, s, low, w) && mem[w].color == Black &&
               T().NoRedKid(w)
      modifies this`mem, w`color
      ensures Agrees() && SameNodes() && mem[par].parent == old(mem)[par].parent
      ensures var pp := mem[par].parent;
              T().Sinking(pp, T().SideOf(pp, par), par) && T().Left(pp, par) < old(T().Left(par, low))
    {
      ghost var t := T();
      assert t.KidOk(par, L) && t.KidOk(par, R);
      ReddenPair(par, w);
      t.ReddenedSound(par, s, low, w, T());
      t.ReddenedRises(par, s, low, w, T());
    }

    ghost method Recount(n: Node, c: Color, bh: int)
      requires Agrees() && n in mem && mem[n].color == c
      modifies this`mem
      ensures Agrees() && T() == old(T()).Coated(n, c, bh)
    {
      mem := mem[n := mem[n].(color := c, bh := bh)];
    }

    // One of the nephews is red.
    method RemoveTurn(par: Node, s: Side, ghost low: Node?, w: Node)
      requires Agrees() && T().Sinking(par, s, low) && T().Lacking(par, s, low, w) && mem[w].color == Black &&
               !T().NoRedKid(w)
      modifies this`root, this`mem, mem.Keys
      ensures Agrees() && SameNodes() && T().Sound(Fine) && !T().IsRed(root)
    {
      var tmp := w;
      assert T().KidOk(w, L) && T().KidOk(w, R);
      if w.Kid(s.Flip()) == null || w.Kid(s.Flip()).color == Black {
        tmp := w.Kid(s);
        RemoveInnerNephew(par, s, low, w, tmp);
        T().SiblingExists(par, s, low);
      }
      RemoveOuterNephew(par, s, low, tmp, tmp.Kid(s.Flip()));
    }

    // RB_REMOVE_COLOR with a black sibling w: the shortage moves up or is gone.
    method RemoveBlackSibling(par: Node, s: Side, ghost low: Node?, w: Node)
      returns (par': Node?, low': Node?, ghost s': Side)
      requires Agrees() && T().Sinking(par, s, low) && T().Lacking(par, s, low, w) && mem[w].color == Black
      modifies this`root, this`mem, mem.Keys
      ensures Agrees() && SameNodes() && T().Sinking(par', s', low') && T().Left(par', low') < old(T().Left(par, low))
    {
      assert T().KidOk(w, L) && T().KidOk(w, R);
      if (w.left == null || w.left.color == Black) && (w.right == null || w.right.color == Black) {
        RemoveRedden(par, s, low, w);
        low', par' := par, par.parent;
        s' := T().SideOf(par', low');
      } else {
        RemoveTurn(par, s, low, w);
        T().FineIsShort();
        low', par', s' := root, null, L;
      }
    }

    // One round of the loop of RB_REMOVE_COLOR.
    method RemoveRound(par: Node, low: Node?, ghost s0: Side) returns (par': Node?, low': Node?, ghost s': Side)
      requires Agrees() && T().Sinking(par, s0, low) && !T().IsRed(low)
      modifies this`root, this`mem, mem.Keys
      ensures Agrees() && SameNodes() && T().Sinking(par', s', low') && T().Left(par', low') < old(T().Left(par, low))
    {
      T().SinkingSide(par, s0, low);
      var s := if par.left == low then L else R;
      T().SiblingExists(par, s, low);
      var tmp := par.Kid(s.Flip());
      if tmp.color == Red {
        RemoveRedSibling(par, s, low, tmp);
        tmp := par.Kid(s.Flip());
        T().SiblingExists(par, s, low);
      }
      par', low', s' := RemoveBlackSibling(par, s, low, tmp);
    }

    method RemovePay(ghost par: Node?, low: Node?, ghost s: Side)
      requires Agrees() && T().Sinking(par, s, low) && (T().IsRed(low) || low == root)
      modifies this`mem, (if low == null then {} else {low})`color
      ensures Valid() && SameNodes()
    {
      ghost var t := T();
      if low != null {
        Paint(low, Black, t.mem[low].bh + if t.mem[low].color == Red then 1 else 0);
        t.PaidSound(par, s, low, T());
      } else {
        t.SinkingTop(par, s, low);
        t.SunkEmpty(s);
      }
    }

    method RemoveColor(parent: Node?, elm: Node?, ghost s0: Side)
      requires Agrees() && T().Sinking(parent, s0, elm)
      modifies this`root, this`mem, mem.Keys
      ensures Valid() && SameNodes()
    {
      var par, low := parent, elm;
      ghost var s := s0;
      while (low == null || low.color == Black) && low != root
        invariant Agrees() && SameNodes() && T().Sinking(par, s, low)
        decreases T().Left(par, low)
      {
        par, low, s := RemoveRound(par, low, s);
      }
      RemovePay(par, low, s);
    }

    ghost method Drop(y: Node)
      requires Agrees() && y in mem && 0 <= mem[y].idx < |order|
      modifies this`mem, this`order
      ensures Agrees() && T() == old(T()).Dropped(y)
    {
      ghost var t := T().Dropped(y);
      order, mem := t.order, t.mem;
    }

    // RB_REMOVE: y, which has at most the one kid x, is taken out of the tree.
    method SpliceOut(y: Node, x: Node?, p: Node?)
      requires Agrees() && y in mem && mem[y].parent == p && 0 <= mem[y].idx < |order|
      requires (mem[y].left == null && x == mem[y].right) || (mem[y].right == null && x == mem[y].left)
      requires x != null ==> x in mem && x != y && x != p
      requires p != null ==> p in mem && p != y
      modifies this, mem.Keys
      ensures Agrees() && old(T()).Spliced(y, x, p, T())
    {
      T().DroppedSpliced(y, x, p);
      SetParent(x, p);
      Rehang(p, y, x);
      Drop(y);
    }

    // The successor takes over all links and the colour of the removed node.
    method CopyLinks(o: Node, y: Node)
      requires Agrees() && o in mem && y !in mem && 0 <= mem[o].idx < |order|
      modifies this`mem, this`order, y
      ensures Agrees() && T() == old(T()).Beside(o, y)
    {
      y.left, y.right, y.parent, y.color := o.left, o.right, o.parent, o.color;
      ghost var t := T().Beside(o, y);
      order, mem := t.order, t.mem;
    }

    ghost method Forget(o: Node)
      requires Agrees()
      modifies this`mem
      ensures Agrees() && T() == old(T()).Without(o)
    {
      mem := mem - {o};
    }

    // RB_REMOVE: y takes the place of o.
    method SwapIn(o: Node, y: Node)
      requires Agrees() && o in mem && y !in mem && mem[o].left != null && 0 <= mem[o].idx < |order|
      requires mem[o].left in mem && (mem[o].right != null ==> mem[o].right in mem) &&
               (mem[o].parent != null ==> mem[o].parent in mem)
      modifies this, mem.Keys, y
      ensures Agrees() && T() == old(T()).SwapSteps(o, y)
    {
      var p, l, r := o.parent, o.left, o.right;
      CopyLinks(o, y);
      Rehang(p, o, y);
      SetParent(l, y);
      SetParent(r, y);
      Forget(o);
    }

    method Unlink(y: Node, x: Node?)
      requires Valid() && y in mem
      requires (mem[y].left == null && x == mem[y].right) || (mem[y].right == null && x == mem[y].left)
      modifies this, mem.Keys
      ensures Agrees() && old(T()).Spliced(y, x, old(mem)[y].parent, T())
      ensures var p := old(mem)[y].parent; T().TakenOut(p, old(T()).SideOf(p, y), x, old(mem)[y].color)
    {
      ghost var t := T();
      var p := y.parent;
      assert t.Linked(y);
      assert mem[y].parent != null ==> t.Linked(mem[y].parent);
      t.KidApart(y, x);
      SpliceOut(y, x, p);
      t.SplicedSound(y, x, p, T());
      t.SplicedSinks(y, x, p, T());
    }

    // RB_REMOVE of a node with at most one kid
    method RemoveSimple(elm: Node)
      requires Valid() && T().Linked(elm) && (elm.left == null || elm.right == null)
      modifies this, mem.Keys
      ensures Valid() && mem.Keys == old(mem.Keys) - {elm}
      ensures var i := old(mem)[elm].idx; 0 <= i < |old(order)| && order == old(order)[..i] + old(order)[i + 1..]
    {
      var child := if elm.left == null then elm.right else elm.left;
      var parent, color := elm.parent, elm.color;
      ghost var s := T().SideOf(parent, elm);
      CutOut(elm, child);
      if color == Black {
        RemoveColor(parent, child, s);
      }
    }

    // Unlink, by what it does to the nodes and their order
    method CutOut(y: Node, x: Node?)
      requires Valid() && T().Linked(y)
      requires (mem[y].left == null && x == mem[y].right) || (mem[y].right == null && x == mem[y].left)
      modifies this, mem.Keys
      ensures Agrees() && mem.Keys == old(mem.Keys) - {y}
      ensures var i := old(mem)[y].idx; 0 <= i < |old(order)| && order == old(order)[..i] + old(order)[i + 1..]
      ensures var p := old(mem)[y].parent; T().TakenOut(p, old(T()).SideOf(p, y), x, old(mem)[y].color)
    {
      Unlink(y, x);
    }

    // The leftmost node of the right subtree
    method Successor(o: Node) returns (y: Node)
      requires Valid() && o in mem && mem[o].left != null && mem[o].right != null
      ensures T().Follows(o, y)
    {
      assert T().Linked(o);
      assert T().KidOk(o, R);
      y := o.right;
      assert T().Linked(y);
      while y.left != null
        invariant T().Linked(y) && mem[y].lo == mem[o].idx + 1 && mem[y].hi <= mem[o].hi
        decreases mem[y].hi - mem[y].lo
      {
        assert T().KidOk(y, L);
        y := y.left;
        assert T().Linked(y);
      }
      assert T().KidOk(y, L);
    }

    // y, cut out of the tree as t says, takes the place of o.
    method Transplant(o: Node, y: Node, ghost f: Flaw)
      requires Agrees() && T().Sound(f) && !f.RedRed? && o in mem && y !in mem && mem[o].left != null
      requires f.Short? ==> f.par != y && f.low != y
      modifies this, mem.Keys, y
      ensures Agrees() && old(T()).Swapped(o, y, T()) && T().Sound(T().RenamedFlaw(o, y, f))
    {
      ghost var t := T();
      t.SwapStepsSwapped(o, y);
      assert t.KidOk(o, L) && t.KidOk(o, R) && t.Hung(o);
      SwapIn(o, y);
      t.SwappedSound(o, y, T(), f);
    }

    // y, cut out of the tree below o, takes the place of o; then the colours are repaired.
    method Succeed(o: Node, y: Node, parent: Node?, child: Node?, color: Color, ghost s: Side)
      requires Agrees() && o in mem && y !in mem && mem[o].left != null && parent != y && child != o && child != y
      requires T().TakenOut(parent, s, child, color)
      modifies this, mem.Keys, y
      ensures Valid() && mem.Keys == old(mem.Keys) - {o} + {y}
      ensures 0 <= old(mem)[o].idx < |old(order)| && order == old(order)[old(mem)[o].idx := y]
    {
      ghost var t := T();
      Transplant(o, y, if color == Black then Short(parent, s, child) else Fine);
      if color == Black {
        t.SwappedSinks(o, y, T(), parent, s, child);
        RemoveColor(if parent == o then y else parent, child, s);
      } else {
        assert t.Linked(o);
        t.SwappedRoot(o, y, T());
      }
    }

    // The successor of o leaves the tree.
    method CutSuccessor(o: Node) returns (y: Node, parent: Node?, child: Node?, color: Color, ghost s: Side)
      requires Valid() && o in mem && o.left != null && o.right != null
      modifies this, mem.Keys
      ensures Agrees() && y in old(mem) && mem.Keys == old(mem.Keys) - {y} && o in mem && mem[o].left != null
      ensures parent != y && child != o && child != y
      ensures T().TakenOut(parent, s, child, color)
      ensures mem[o].idx == old(mem)[o].idx && 0 <= mem[o].idx < |order| < |old(order)|
      ensures order[mem[o].idx := y] == old(order)[..mem[o].idx] + old(order)[mem[o].idx + 1..]
    {
      ghost var t := T();
      y := Successor(o);
      child, parent, color := y.right, y.parent, y.color;
      s := t.SideOf(parent, y);
      Unlink(y, child);
      t.FollowsSpliced(o, y, child, parent, T());
      t.FollowsOrder(o, y, child, parent, T());
    }

    // RB_REMOVE of a node with two kids: its successor takes its place.
    method RemoveTwo(o: Node)
      requires Valid() && o in mem && o.left != null && o.right != null
      modifies this, mem.Keys
      ensures Valid() && mem.Keys == old(mem.Keys) - {o}
      ensures var i := old(mem)[o].idx; 0 <= i < |old(order)| && order == old(order)[..i] + old(order)[i + 1..]
    {
      ghost var keys := mem.Keys;
      var y, parent, child, color, s := CutSuccessor(o);
      Succeed(o, y, parent, child, color, s);
      assert y in keys && y != o && mem.Keys == keys - {y} - {o} + {y};
    }

    // RB_REMOVE
    method Remove(elm: Node)
      requires Valid() && elm in mem
      modifies this, mem.Keys
      ensures Valid() && mem.Keys == old(mem.Keys) - {elm}
      ensures var i := old(mem)[elm].idx;
              0 <= i < |old(order)| && old(order)[i] == elm && order == old(order)[..i] + old(order)[i + 1..]
    {
      assert T().Linked(elm);
      if elm.left == null || elm.right == null {
        RemoveSimple(elm);
      } else {
        RemoveTwo(elm);
      }
    }
  }
}
