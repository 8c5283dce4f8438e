/** `struct avl` of lib/heap.c: a parent-linked AVL tree whose holders live in memory. */
module Avl {
  import opened Sequences
  import opened AvlShape
  import opened AvlRotation
  import opened AvlSteps
  import opened AvlKeys

  /** From the root of the tree on, each holder is a child of the one before. */
  ghost predicate Walk(mem: Mem, path: seq<Addr>) {
    && (path != [] ==> path[0] == At(mem, ANCHOR).right)
    && forall j :: 0 < j < |path| ==>
         path[j] == At(mem, path[j - 1]).Link(LEFT) || path[j] == At(mem, path[j - 1]).Link(RIGHT)
  }

  lemma {:induction false} WalkOn(mem: Mem, path: seq<Addr>, next: Addr, d: int)
    requires Walk(mem, path) && path != [] && IsDir(d) && next == At(mem, path[|path| - 1]).Link(d)
    ensures Walk(mem, path + [next])
  {
  }

  class AvlTree {
    var mem: Mem
    var head: Addr
    var tail: Addr
    var count: int
    var height: int
    ghost var tree: Tree

    /** All of the invariant but the node count. */
    ghost predicate Shaped()
      reads this
    {
      && Focused(mem, tree, Top)
      && height == Height(tree)
      && head == First(Order(tree)) && tail == Last(Order(tree))
    }

    ghost predicate Valid()
      reads this
    {
      Shaped() && count == |Order(tree)|
    }

    /** avlh_set_link () */
    method SetLink(a: Addr, dir: int, v: Addr)
      modifies this`mem
      ensures At(mem, a) == old(At(mem, a)).SetLink(dir, v)
      ensures forall b :: b != a ==> At(mem, b) == At(old(mem), b)
    {
      mem := mem[a := At(mem, a).SetLink(dir, v)];
    }

    method SetType(a: Addr, typ: int)
      modifies this`mem
      ensures At(mem, a) == old(At(mem, a)).(typ := typ)
      ensures forall b :: b != a ==> At(mem, b) == At(old(mem), b)
    {
      mem := mem[a := At(mem, a).(typ := typ)];
    }

    method SetBalance(a: Addr, balance: int)
      modifies this`mem
      ensures At(mem, a) == old(At(mem, a)).(balance := balance)
      ensures forall b :: b != a ==> At(mem, b) == At(old(mem), b)
    {
      mem := mem[a := At(mem, a).(balance := balance)];
    }

    /** avlh_rotate (): lift the child on the side opposite to `dir`. */
    method Rotate(holder: Addr, dir: int, ghost x: Tree, ghost n: Addr, ghost y: Tree, ghost z: Tree, ghost c: Ctx)
      returns (nexttop: Addr)
      requires IsDir(dir)
      requires var t := Tilted(dir, x, n, y, holder, z);
               && Proper(t) && CProper(c) && Separate(t, c)
               && Links(mem, t, CAddr(c), CSide(c))
      requires CLinks(mem, c, holder)
      modifies this`mem
      ensures nexttop == n
      ensures Links(mem, Rotated(dir, x, n, y, holder, z), CAddr(c), CSide(c))
      ensures CLinks(mem, c, n)
      ensures SameBalances(old(mem), mem)
    {
      ghost var m := mem;
      RotationStart(m, dir, x, n, y, holder, z, c);
      nexttop := At(mem, holder).Link(-dir);
      var subtree := At(mem, nexttop).Link(dir);
      RotateMem(holder, dir, nexttop, subtree, y, c);
      RotationDone(m, mem, dir, x, n, y, holder, z, c);
      RotationBalances(m, mem, dir, n, y, holder, c);
    }

    /** The writes of avlh_rotate (). */
    method RotateMem(holder: Addr, dir: int, nexttop: Addr, subtree: Addr, ghost y: Tree, ghost c: Ctx)
      requires IsDir(dir) && IsDir(CSide(c))
      requires nexttop > 0 && holder > 0 && nexttop != holder && CAddr(c) != nexttop && CAddr(c) != holder
      requires subtree == Root(y)
      requires y.Bin? ==> y.a > 0 && y.a != nexttop && y.a != holder && y.a != CAddr(c)
      requires At(mem, holder).up == CAddr(c) && At(mem, holder).typ == CSide(c)
      modifies this`mem
      ensures RotationWrites(old(mem), mem, dir, nexttop, y, holder, c)
    {
      var opp := -dir;
      if subtree != NULL {
        SetLink(holder, opp, subtree);
        SetLink(subtree, UP, holder);
        SetType(subtree, opp);
      } else {
        SetLink(holder, opp, NULL);
      }
      SetLink(nexttop, dir, holder);
      SetLink(nexttop, UP, At(mem, holder).up);
      SetType(nexttop, At(mem, holder).typ);
      SetLink(holder, UP, nexttop);
      SetType(holder, dir);
      SetLink(At(mem, nexttop).up, At(mem, nexttop).typ, nexttop);
    }

    /** avlh_dbl_rotate (): the heavy side `hv` leans the other way; its inner child `k` is lifted twice. */
    method DblRotate(holder: Addr, dir: int, ghost light: Tree, ghost p: Tree, ghost k: Addr, ghost q: Tree,
                     ghost hv: Addr, ghost outer: Tree, ghost c: Ctx)
      returns (top: Addr)
      requires IsDir(dir)
      requires var t := Join(-dir, light, holder, Join(-dir, Join(-dir, p, k, q), hv, outer));
               && Proper(t) && CProper(c) && Separate(t, c)
               && Links(mem, t, CAddr(c), CSide(c))
      requires CLinks(mem, c, holder)
      modifies this`mem
      ensures top == k
      ensures var t := Join(-dir, Join(-dir, light, holder, p), k, Join(-dir, q, hv, outer));
              Links(mem, t, CAddr(c), CSide(c))
      ensures CLinks(mem, c, k)
      ensures SameBalances(old(mem), mem)
    {
      ghost var inner := In(-dir, holder, light, c);
      DblStart(mem, -dir, light, holder, p, k, q, hv, outer, c);
      var unused := Rotate(At(mem, holder).Link(-dir), -dir, p, k, q, outer, inner);
      DblMiddle(mem, -dir, light, holder, p, k, q, hv, outer, c);
      top := Rotate(holder, dir, Join(-dir, q, hv, outer), k, p, light, c);
      DblEnd(-dir, light, holder, p, k, q, hv, outer);
    }

    /** avlh_rebalance (): `heavy`, on side `delta` of `holder`, is two higher than `light`. */
    method Rebalance(holder: Addr, delta: int, ghost light: Tree, ghost heavy: Tree, ghost c: Ctx)
      returns (top: Addr, ghost t': Tree)
      requires IsDir(delta)
      requires var t := Join(delta, light, holder, heavy);
               && Proper(t) && CProper(c) && Separate(t, c)
               && Links(mem, t, CAddr(c), CSide(c))
      requires CLinks(mem, c, holder)
      requires Height(heavy) == Height(light) + 2
      requires Balanced(mem, heavy) && Balanced(mem, light)
      requires At(mem, holder).balance == delta
      modifies this`mem
      ensures Rebuilt(old(mem), mem, Join(delta, light, holder, heavy), t', c, top)
      ensures Height(t') == 1 + Height(heavy) - (if At(mem, top).balance == 0 then 1 else 0)
    {
      JoinLinks(mem, delta, light, holder, heavy, CAddr(c), CSide(c));
      JoinSplit(delta, heavy);
      ghost var inner, outer := Near(delta, heavy), Far(delta, heavy);
      var heavySide := At(mem, holder).Link(delta);
      if At(mem, heavySide).balance == -delta {
        JoinBalanced(mem, delta, inner, heavySide, outer);
        JoinSplit(delta, inner);
        top, t' := RebalanceDouble(holder, heavySide, delta, light, Near(delta, inner), inner.a, Far(delta, inner),
                                   outer, c);
      } else {
        top, t' := RebalanceSingle(holder, heavySide, delta, light, inner, outer, c);
      }
      JoinParts(delta, light, holder, heavy);
    }

    method RebalanceSingle(holder: Addr, heavySide: Addr, delta: int,
                           ghost light: Tree, ghost inner: Tree, ghost outer: Tree, ghost c: Ctx)
      returns (top: Addr, ghost t': Tree)
      requires IsDir(delta)
      requires var t := Join(delta, light, holder, Join(delta, inner, heavySide, outer));
               && Proper(t) && CProper(c) && Separate(t, c)
               && Links(mem, t, CAddr(c), CSide(c))
      requires CLinks(mem, c, holder)
      requires Height(Join(delta, inner, heavySide, outer)) == Height(light) + 2
      requires Balanced(mem, Join(delta, inner, heavySide, outer)) && Balanced(mem, light)
      requires At(mem, holder).balance == delta && At(mem, heavySide).balance != -delta
      modifies this`mem
      ensures var t := Join(delta, light, holder, Join(delta, inner, heavySide, outer));
              && Rebuilt(old(mem), mem, t, t', c, top)
              && Height(t') == Height(t) - (if At(mem, top).balance == 0 then 1 else 0)
    {
      ghost var m := mem;
      SingleStart(m, delta, light, holder, inner, heavySide, outer, c);
      var unused := Rotate(holder, -delta, outer, heavySide, inner, light, c);
      ghost var m1 := mem;
      SetBalance(holder, At(mem, holder).balance - At(mem, heavySide).balance);
      SetBalance(heavySide, At(mem, heavySide).balance - delta);
      top := heavySide;
      t' := Join(delta, Join(delta, light, holder, inner), heavySide, outer);
      SingleDone(m, m1, mem, delta, light, holder, inner, heavySide, outer, c);
    }

    method RebalanceDouble(holder: Addr, heavySide: Addr, delta: int, ghost light: Tree,
                           ghost p: Tree, ghost k: Addr, ghost q: Tree, ghost outer: Tree, ghost c: Ctx)
      returns (top: Addr, ghost t': Tree)
      requires IsDir(delta)
      requires var t := Join(delta, light, holder, Tilted(delta, p, k, q, heavySide, outer));
               && Proper(t) && CProper(c) && Separate(t, c)
               && Links(mem, t, CAddr(c), CSide(c))
      requires CLinks(mem, c, holder)
      requires Height(Tilted(delta, p, k, q, heavySide, outer)) == Height(light) + 2
      requires Balanced(mem, Tilted(delta, p, k, q, heavySide, outer)) && Balanced(mem, light)
      requires At(mem, heavySide).balance == -delta
      modifies this`mem
      ensures var t := Join(delta, light, holder, Tilted(delta, p, k, q, heavySide, outer));
              && Rebuilt(old(mem), mem, t, t', c, top)
              && Height(t') == Height(t) - (if At(mem, top).balance == 0 then 1 else 0)
    {
      ghost var m := mem;
      DoubleApart(delta, light, holder, p, k, q, heavySide, outer, c);
      DoublePieces(m, delta, light, p, k, q, heavySide, outer);
      top := DblRotate(holder, -delta, light, p, k, q, heavySide, outer, c);
      ghost var m1 := mem;
      t' := Join(delta, Join(delta, light, holder, p), k, Join(delta, q, heavySide, outer));
      DoubleTopLinks(m1, delta, light, holder, p, k, q, heavySide, outer, c);
      SetDblBalances(top, delta, holder, heavySide);
      DoubleDone(m, m1, mem, delta, light, holder, p, k, q, heavySide, outer, c);
    }

    /** The balances after a double rotation, read off the links of the new top. */
    method SetDblBalances(top: Addr, delta: int, ghost holder: Addr, ghost hv: Addr)
      requires IsDir(delta)
      requires holder != hv && holder != top && hv != top
      requires At(mem, top).Link(delta) == hv && At(mem, top).Link(-delta) == holder
      requires -1 <= At(mem, top).balance <= 1
      modifies this`mem
      ensures SameLinks(old(mem), mem)
      ensures At(mem, top).balance == 0
      ensures At(mem, holder).balance == if At(old(mem), top).balance == delta then -delta else 0
      ensures At(mem, hv).balance == if At(old(mem), top).balance == -delta then delta else 0
      ensures forall a :: a != holder && a != hv && a != top ==> At(mem, a).balance == At(old(mem), a).balance
    {
      var dir := if At(mem, top).balance != 0 then At(mem, top).balance else RIGHT;
      SetBalance(At(mem, top).Link(dir), 0);
      SetBalance(At(mem, top).Link(-dir), -At(mem, top).balance);
      SetBalance(top, 0);
    }

    /** avlh_balance_add (): side `delta` of `holder` grew, or the other side shrank, by one level. */
    method BalanceAdd(holder: Addr, delta: int, ghost p: Tree, ghost q: Tree, ghost c: Ctx)
      returns (top: Addr, ghost t': Tree)
      requires BalanceReady(mem, delta, p, holder, q, c)
      modifies this`mem
      ensures Rebuilt(old(mem), mem, Join(delta, p, holder, q), t', c, top)
      ensures Added(At(old(mem), holder).balance, At(mem, top).balance, delta, Height(p), Height(q), Height(t'))
    {
      if At(mem, holder).balance == delta {
        top, t' := Rebalance(holder, delta, p, q, c);
      } else {
        ghost var m := mem;
        SetBalance(holder, At(mem, holder).balance + delta);
        top, t' := holder, Join(delta, p, holder, q);
        BalanceAdded(m, mem, delta, p, holder, q, c);
      }
    }

    /** One turn of the loop of avl_insert_inner (). */
    method StepAfterInsert(node: Addr, ghost t: Tree, ghost c: Ctx, ghost h: int)
      returns (parent: Addr, ghost t': Tree, ghost h': int)
      requires Grown(mem, t, c, h) && c.In? && t.Bin? && t.a == node && At(mem, node).balance != 0
      modifies this`mem
      ensures Grown(mem, t', c.up, h') && t'.Bin? && t'.a == parent
      ensures CHeight(c.up, h') == CHeight(c, h) && Order(Plug(c.up, t')) == Order(Plug(c, t))
    {
      hide *;
      ghost var m := mem;
      GrownStart(m, t, c, h);
      parent, t' := BalanceAdd(At(mem, node).up, At(mem, node).typ, c.sib, t, c.up);
      h' := 1 + Max(Height(c.sib), h);
      GrownStep(m, mem, t, c, h, t', parent);
    }

    /** The loop of avl_insert_inner (), from the parent of the new node up. */
    method ClimbAfterInsert(start: Addr, ghost t0: Tree, ghost c0: Ctx, ghost h0: int)
      returns (ghost t': Tree)
      requires Grown(mem, t0, c0, h0) && t0.Bin? && t0.a == start
      requires height == CHeight(c0, h0)
      modifies this`mem, this`height
      ensures Focused(mem, t', Top) && Order(t') == Order(Plug(c0, t0)) && height == Height(t')
    {
      var parent := start;
      ghost var t, c, h := t0, c0, h0;
      while At(mem, parent).balance != 0
        invariant Grown(mem, t, c, h) && t.Bin? && t.a == parent
        invariant height == CHeight(c, h)
        invariant Order(Plug(c, t)) == Order(Plug(c0, t0))
        decreases c
      {
        CHasPositive(c);
        if At(mem, parent).up == ANCHOR {
          height := height + 1;
          return t;
        }
        parent, t, h := StepAfterInsert(parent, t, c, h);
        c := c.up;
      }
      t' := Plug(c, t);
      Unfocus(mem, t, c);
    }

    /** avlh_attach () */
    method Attach(parent: Addr, child: Addr, side: int)
      requires IsDir(side) && parent != child
      modifies this`mem
      ensures At(mem, child) == old(At(mem, child)).(typ := side, left := NULL, up := parent, right := NULL)
      ensures At(mem, parent) == old(At(mem, parent)).SetLink(side, child)
      ensures forall a :: a != parent && a != child ==> At(mem, a) == At(old(mem), a)
    {
      SetLink(child, LEFT, NULL);
      SetLink(child, RIGHT, NULL);
      SetLink(child, UP, parent);
      SetLink(parent, side, child);
      SetType(child, side);
    }

    /** avl_insert_inner (): `i` is the place of `parent`. */
    method InsertInner(parent: Addr, node: Addr, side: int, ghost i: int)
      requires Valid() && IsDir(side)
      requires node > 0 && node !in Order(tree) && At(mem, node).balance == 0
      requires tree.Leaf? ==> parent == NULL && side == RIGHT && i == -1
      requires tree.Bin? ==> 0 <= i < |Order(tree)| && Order(tree)[i] == parent && At(mem, parent).Link(side) == NULL
      modifies this
      ensures Valid()
      ensures Order(tree) == InsertAt(old(Order(tree)), if side == RIGHT then i + 1 else i, node)
    {
      if tree.Bin? {
        ProperDistinct(tree);
        assert Order(tree)[i] in Order(tree);
      }
      if parent == NULL {
        InsertFirst(node, side);
      } else {
        InsertBelow(parent, node, side, i);
      }
    }

    method InsertFirst(node: Addr, side: int)
      requires Valid() && tree.Leaf? && side == RIGHT
      requires node > 0 && At(mem, node).balance == 0
      modifies this
      ensures Valid() && Order(tree) == [node]
    {
      Attach(ANCHOR, node, side);
      count := count + 1;
      head, tail := node, node;
      height := height + 1;
      tree := Bin(Leaf, node, Leaf);
      SingleFocused(mem, node);
    }

    method InsertBelow(parent: Addr, node: Addr, side: int, ghost i: int)
      requires Valid() && IsDir(side)
      requires node > 0 && node !in Order(tree) && At(mem, node).balance == 0
      requires 0 <= i < |Order(tree)| && Order(tree)[i] == parent && At(mem, parent).Link(side) == NULL
      modifies this
      ensures Valid()
      ensures Order(tree) == InsertAt(old(Order(tree)), if side == RIGHT then i + 1 else i, node)
    {
      ghost var s, k := Order(tree), if side == RIGHT then i + 1 else i;
      HasOrder(tree);
      ProperDistinct(tree);
      ghost var c, sib := FreeSide(mem, tree, parent, side);
      AttachedOrder(c, sib, parent, node, side, i);
      AttachBelow(parent, node, side, c, sib);
      EndsOfInsert(s, k, i, node);
      tree := ClimbAfterInsert(parent, Join(side, sib, parent, Bin(Leaf, node, Leaf)), c,
                               Height(Join(side, sib, parent, Leaf)));
    }

    /** avl_insert_inner () up to its loop. */
    method AttachBelow(parent: Addr, node: Addr, side: int, ghost c: Ctx, ghost sib: Tree)
      requires IsDir(side) && node > 0 && At(mem, node).balance == 0
      requires var s := Join(side, sib, parent, Leaf);
               && Focused(mem, s, c) && CBalanced(mem, c, Height(s))
               && Has(s, parent) && !Has(s, node) && !CHas(c, node)
      modifies this`mem, this`count, this`head, this`tail
      ensures var s' := Join(side, sib, parent, Bin(Leaf, node, Leaf));
              s'.a == parent && Grown(mem, s', c, Height(Join(side, sib, parent, Leaf)))
      ensures count == old(count) + 1
      ensures head == if side == LEFT && parent == old(head) then node else old(head)
      ensures tail == if side == RIGHT && parent == old(tail) then node else old(tail)
    {
      ghost var m := mem;
      Attach(parent, node, side);
      count := count + 1;
      if side == LEFT && parent == head {
        head := node;
      } else if side == RIGHT && parent == tail {
        tail := node;
      }
      SetBalance(parent, At(mem, parent).balance + side);
      Attached(m, mem, c, sib, parent, node, side);
    }

    /** avlh_link_child () */
    method LinkChild(oldh: Addr, newh: Addr, side: int)
      requires IsDir(side) && oldh != newh && At(mem, oldh).Link(side) != newh && At(mem, oldh).Link(side) != oldh
      modifies this`mem
      ensures At(mem, newh) == old(At(mem, newh)).SetLink(side, old(At(mem, oldh).Link(side)))
      ensures var child := old(At(mem, oldh).Link(side));
              && (child != NULL ==> At(mem, child) == old(At(mem, child)).(up := newh))
              && (forall a :: a != newh && (child == NULL || a != child) ==> At(mem, a) == At(old(mem), a))
    {
      var child := At(mem, oldh).Link(side);
      SetLink(newh, side, child);
      if At(mem, oldh).Link(side) != NULL {
        SetLink(child, UP, newh);
      }
    }

    /** avlh_replace (): `newh` takes the place of `oldh`, whose children are `l` and `r`. */
    method ReplaceHolder(oldh: Addr, newh: Addr, ghost l: Tree, ghost r: Tree, ghost c: Ctx)
      requires var t := Bin(l, oldh, r);
               && Proper(t) && CProper(c) && Separate(t, c)
               && Links(mem, t, CAddr(c), CSide(c)) && CLinks(mem, c, oldh)
               && newh > 0 && !Has(t, newh) && !CHas(c, newh)
      modifies this`mem
      ensures Links(mem, Bin(l, newh, r), CAddr(c), CSide(c)) && CLinks(mem, c, newh)
      ensures SameBalances(old(mem), mem)
    {
      ghost var m := mem;
      ReplaceApart(oldh, newh, l, r, c);
      SetType(newh, At(mem, oldh).typ);
      SetLink(newh, UP, At(mem, oldh).up);
      SetLink(At(mem, oldh).up, At(mem, oldh).typ, newh);
      LinkChild(oldh, newh, LEFT);
      LinkChild(oldh, newh, RIGHT);
      assert ReplaceWrites(m, mem, oldh, newh, l, r, c);
      Replaced(m, mem, oldh, newh, l, r, c);
    }

    /** avlh_replace () followed by the copy of the balance, as in avl_replace () and avl_delete_2children (). */
    method SwapHolder(oldh: Addr, newh: Addr, ghost i: int)
      requires Focused(mem, tree, Top)
      requires 0 <= i < |Order(tree)| && Order(tree)[i] == oldh && newh > 0 && newh !in Order(tree)
      modifies this`mem, this`tree
      ensures Focused(mem, tree, Top)
      ensures Order(tree) == old(Order(tree))[i := newh] && Height(tree) == Height(old(tree))
    {
      HasOrder(tree);
      ghost var c, s := LocateFocus(mem, tree, oldh);
      ReplaceHolder(oldh, newh, s.l, s.r, c);
      ghost var m := mem;
      SetBalance(newh, At(mem, oldh).balance);
      Swapped(old(mem), m, mem, tree, oldh, newh, s, c, i);
      tree := Plug(c, Bin(s.l, newh, s.r));
    }

    /** avl_inorder (): the neighbour of `holder` on side `dir`. */
    method Inorder(holder: Addr, dir: int, ghost i: int) returns (next: Addr)
      requires Focused(mem, tree, Top) && IsDir(dir)
      requires 0 <= i < |Order(tree)| && Order(tree)[i] == holder
      ensures next == if 0 <= i + dir < |Order(tree)| then Order(tree)[i + dir] else NULL
      ensures At(mem, holder).Link(dir) != NULL ==> next != NULL && At(mem, next).Link(-dir) == NULL
    {
      ghost var c, s := Placed(mem, tree, holder, dir, i);
      if At(mem, holder).Link(dir) != NULL {
        next := Descend(At(mem, holder).Link(dir), -dir, Far(dir, s), holder, dir);
      } else {
        next := Climb(holder, dir, tree, c, s, i);
      }
    }

    /** The downward loop of avl_inorder (). */
    method Descend(start: Addr, dir: int, ghost t0: Tree, ghost up0: Addr, ghost typ0: int) returns (holder: Addr)
      requires IsDir(dir) && t0.Bin? && t0.a == start && Links(mem, t0, up0, typ0) && Proper(t0)
      ensures holder == Edge(t0, dir) && At(mem, holder).Link(dir) == NULL
    {
      holder := start;
      ghost var t, up, typ := t0, up0, typ0;
      while At(mem, holder).Link(dir) != NULL
        invariant t.Bin? && t.a == holder && Links(mem, t, up, typ) && Proper(t)
        invariant Edge(t, dir) == Edge(t0, dir)
        decreases t
      {
        FarEmpty(mem, t, dir, up, typ);
        up, typ := t.a, dir;
        t := Far(dir, t);
        holder := At(mem, holder).Link(dir);
      }
      FarEmpty(mem, t, dir, up, typ);
    }

    /** The upward loop of avl_inorder (), from a subtree whose edge on side `dir` is at place `i`. */
    method Climb(start: Addr, dir: int, ghost t: Tree, ghost c0: Ctx, ghost s0: Tree, ghost i: int) returns (next: Addr)
      requires IsDir(dir) && Hung(mem, s0, c0) && s0.Bin? && s0.a == start && Plug(c0, s0) == t
      requires AtEdge(c0, s0, dir, i)
      ensures next == if 0 <= i + dir < |Order(t)| then Order(t)[i + dir] else NULL
    {
      var holder := start;
      ghost var c, s := c0, s0;
      while true
        invariant Hung(mem, s, c) && s.Bin? && s.a == holder && Plug(c, s) == t && AtEdge(c, s, dir, i)
        decreases c
      {
        OrderPlug(c, s);
        EdgeStep(s, c, dir, i);
        if c.In? {
          StepUpLinks(mem, s, c);
        }
        next := At(mem, holder).up;
        if next == ANCHOR {
          return NULL;
        }
        if At(mem, holder).typ != dir {
          return;
        }
        holder := next;
        s := Join(c.side, c.sib, c.a, s);
        c := c.up;
      }
    }

    /** One turn of the loop of avl_delete (). */
    method StepAfterDelete(node: Addr, ghost t: Tree, ghost c: Ctx, ghost h: int)
      returns (parent: Addr, ghost t': Tree, ghost h': int)
      requires Shrunk(mem, t, c, h, node) && c.In? && At(mem, node).balance == 0
      modifies this`mem
      ensures Shrunk(mem, t', c.up, h', parent)
      ensures CHeight(c.up, h') == CHeight(c, h) && Order(Plug(c.up, t')) == Order(Plug(c, t))
    {
      hide *;
      ghost var m := mem;
      ShrunkStart(m, t, c, h, node);
      parent, t' := BalanceAdd(At(mem, node).up, -At(mem, node).typ, t, c.sib, c.up);
      h' := 1 + Max(Height(c.sib), h);
      ShrunkStep(m, mem, t, c, h, node, t', parent);
    }

    /** The loop of avl_delete (), from the first place that may have shrunk. */
    method ClimbAfterDelete(start: Addr, ghost t0: Tree, ghost c0: Ctx, ghost h0: int)
      returns (ghost t': Tree)
      requires Shrunk(mem, t0, c0, h0, start) && height == CHeight(c0, h0)
      modifies this`mem, this`height
      ensures Focused(mem, t', Top) && Order(t') == Order(Plug(c0, t0)) && height == Height(t')
    {
      var node := start;
      ghost var t, c, h := t0, c0, h0;
      while At(mem, node).balance == 0
        invariant Shrunk(mem, t, c, h, node)
        invariant height == CHeight(c, h)
        invariant Order(Plug(c, t)) == Order(Plug(c0, t0))
        decreases c
      {
        CHasPositive(c);
        if At(mem, node).up == ANCHOR {
          height := height - 1;
          return t;
        }
        node, t, h := StepAfterDelete(node, t, c, h);
        c := c.up;
      }
      t' := Plug(c, t);
      Unfocus(mem, t, c);
    }

    /** avl_delete_leaf () */
    method DeleteLeaf(node: Addr, ghost c: Ctx)
      requires Focused(mem, Bin(Leaf, node, Leaf), c) && CBalanced(mem, c, 1) && c.In?
      modifies this`mem, this`head, this`tail
      ensures Shrunk(mem, Leaf, c, 1, node)
      ensures head == if c.side == LEFT && old(head) == node then c.a else old(head)
      ensures tail == if c.side == RIGHT && old(tail) == node then c.a else old(tail)
    {
      ghost var m := mem;
      LeafLinks(m, node, c);
      var newNode := At(mem, node).up;
      var dir := At(mem, node).typ;
      SetLink(newNode, dir, At(mem, node).Link(dir));
      if dir == LEFT && node == head {
        head := newNode;
      } else if dir == RIGHT && node == tail {
        tail := newNode;
      }
      LeafOut(m, mem, node, c);
    }

    /** avl_delete_1child (): the only child, on side `dir`, takes the place of `node`. */
    method DeleteOneChild(node: Addr, dir: int, ghost k: Addr, ghost c: Ctx) returns (newNode: Addr)
      requires IsDir(dir) && Focused(mem, Join(dir, Leaf, node, Bin(Leaf, k, Leaf)), c) && CBalanced(mem, c, 2)
      modifies this`mem, this`head, this`tail
      ensures newNode == k && Shrunk(mem, Bin(Leaf, k, Leaf), c, 2, k)
      ensures head == if dir == RIGHT && old(head) == node then k else old(head)
      ensures tail == if dir == LEFT && old(tail) == node then k else old(tail)
    {
      ghost var m := mem;
      OneChildLinks(m, node, dir, k, c);
      newNode := At(mem, node).Link(dir);
      SetLink(node, dir, At(mem, newNode).Link(dir));
      ghost var m1 := mem;
      OneChildCut(m, m1, node, dir, k, c);
      ReplaceHolder(node, newNode, Leaf, Leaf, c);
      if dir == RIGHT && node == head {
        head := newNode;
      } else if dir == LEFT && node == tail {
        tail := newNode;
      }
      OneChildOut(m, m1, mem, node, dir, k, c);
    }

    /** The leaf case of avl_delete (). */
    method RemoveLeaf(node: Addr, ghost i: int)
      requires Shaped() && |Order(tree)| > 1 && 0 <= i < |Order(tree)| && Order(tree)[i] == node
      requires At(mem, node).left == NULL && At(mem, node).right == NULL
      modifies this`mem, this`head, this`tail, this`height, this`tree
      ensures Shaped() && Order(tree) == RemoveAt(old(Order(tree)), i)
    {
      ghost var c := LeafPlace(mem, tree, node, i);
      DeleteLeaf(node, c);
      tree := ClimbAfterDelete(node, Leaf, c, 1);
    }

    /** The one-child cases of avl_delete (). */
    method RemoveOneChild(node: Addr, dir: int, ghost i: int)
      requires Shaped() && IsDir(dir) && 0 <= i < |Order(tree)| && Order(tree)[i] == node
      requires At(mem, node).Link(-dir) == NULL && At(mem, node).Link(dir) != NULL
      modifies this`mem, this`head, this`tail, this`height, this`tree
      ensures Shaped() && Order(tree) == RemoveAt(old(Order(tree)), i)
    {
      ghost var c, k := OneChildPlace(mem, tree, node, dir, i);
      var newNode := DeleteOneChild(node, dir, k, c);
      tree := ClimbAfterDelete(newNode, Bin(Leaf, k, Leaf), c, 2);
    }

    /** avl_delete (): `nested` when called by avl_delete_2children (), which has already counted the removal. */
    method DeleteInner(node: Addr, ghost i: int, ghost nested: bool)
      requires Shaped() && 0 <= i < |Order(tree)| && Order(tree)[i] == node
      requires count == |Order(tree)| - (if nested then 1 else 0)
      requires nested ==> |Order(tree)| > 2 && (At(mem, node).left == NULL || At(mem, node).right == NULL)
      modifies this
      ensures Shaped() && Order(tree) == RemoveAt(old(Order(tree)), i) && count == old(count) - 1
      decreases if nested then 0 else 2
    {
      count := count - 1;
      if count == 0 {
        SetLink(ANCHOR, RIGHT, NULL);
        head, tail := NULL, NULL;
        height := height - 1;
        SingleOrder(tree);
        tree := Leaf;
      } else if At(mem, node).left == NULL && At(mem, node).right == NULL {
        RemoveLeaf(node, i);
      } else if At(mem, node).left == NULL {
        RemoveOneChild(node, RIGHT, i);
      } else if At(mem, node).right == NULL {
        RemoveOneChild(node, LEFT, i);
      } else {
        DeleteTwoChildren(node, i);
      }
    }

    /** avl_delete_2children (): the neighbour on the heavier side leaves its place and takes that of `node`. */
    method DeleteTwoChildren(node: Addr, ghost i: int)
      requires Shaped() && 0 <= i < |Order(tree)| && Order(tree)[i] == node
      requires count == |Order(tree)| - 1
      requires At(mem, node).left != NULL && At(mem, node).right != NULL
      modifies this
      ensures Shaped() && Order(tree) == RemoveAt(old(Order(tree)), i) && count == old(count)
      decreases 1
    {
      hide RemoveAt, Focused, Order, Height, At, First, Last, Distinct;
      TwoChildren(mem, tree, node, i);
      var dir := if At(mem, node).balance != 0 then At(mem, node).balance else 1;
      ghost var s := Order(tree);
      var newNode := Inorder(node, dir, i);
      DeleteInner(newNode, i + dir, true);
      count := count + 1;
      NeighbourGone(s, i, dir);
      SwapHolder(node, newNode, if dir == RIGHT then i else i - 1);
      if dir == LEFT && head == node {
        head := newNode;
      } else if dir == RIGHT && tail == node {
        tail := newNode;
      }
    }

    /** avl_delete () */
    method Delete(node: Addr, ghost i: int)
      requires Valid() && 0 <= i < |Order(tree)| && Order(tree)[i] == node
      modifies this
      ensures Valid() && Order(tree) == RemoveAt(old(Order(tree)), i)
    {
      DeleteInner(node, i, false);
    }

    /** A search function declared by DECLARE_AVL_SEARCH: it visits at most `height` holders. */
    method Search(k: int, dir: int, key: Key) returns (holder: Addr, delta: int, ghost i: int, ghost visited: seq<Addr>)
      requires Shaped() && SortedBy(Order(tree), key)
      requires dir == LEFT || dir == 0 || dir == RIGHT
      ensures Found(Order(tree), key, k, dir, holder, delta, i)
      ensures holder != NULL && Toward(delta, dir) != 0 ==> At(mem, holder).Link(Toward(delta, dir)) == NULL
      ensures (holder == NULL <==> tree.Leaf?) && |visited| <= height
      ensures Walk(mem, visited) && (holder == NULL <==> visited == [])
      ensures visited != [] ==> visited[|visited| - 1] == holder
    {
      hide Focused, Hung, Order, Height, Links, Proper, Has, Below, Above, SortedBy, At, First, Last, Found,
           Before, After;
      delta, i, visited := RIGHT, -1, [];
      holder := At(mem, ANCHOR).right;
      SearchStart(mem, tree, key, k, dir);
      if holder == NULL {
        return;
      }
      ghost var t, c := tree, Top;
      while true
        invariant Hung(mem, t, c) && t.Bin? && t.a == holder && Order(tree) == Before(c) + Order(t) + After(c)
        invariant Below(Before(c), key, k, dir) && Above(After(c), key, k, dir)
        invariant |visited| + Height(t) <= height && Walk(mem, visited + [holder])
        decreases t
      {
        visited := visited + [holder];
        Visited(mem, t, c);
        delta := Sign(k - key(holder));
        var d := Toward(delta, dir);
        i := |Before(c)| + |Order(t.l)|;
        if d == 0 {
          StopHere(t, c, key, k, dir);
          return;
        }
        FarLink(mem, t, d, c);
        var next := At(mem, holder).Link(d);
        if next == NULL {
          StopHere(t, c, key, k, dir);
          return;
        }
        StepDown(mem, t, c, d);
        GoOn(t, c, key, k, dir);
        c, t := In(d, t.a, Near(d, t), c), Far(d, t);
        WalkOn(mem, visited, next, d);
        holder := next;
      }
    }

    /** avl_search_nearest (), that is avl_search_le () and avl_search_ge (). */
    method SearchNearest(k: int, dir: int, key: Key) returns (r: Addr, ghost i: int)
      requires Shaped() && SortedBy(Order(tree), key) && IsDir(dir)
      ensures if dir == RIGHT then LeastFrom(Order(tree), key, k, r, i) else GreatestTo(Order(tree), key, k, r, i)
      ensures r != NULL ==> r in Order(tree) && if dir == RIGHT then k <= key(r) else key(r) <= k
    {
      var holder, delta;
      ghost var visited;
      holder, delta, i, visited := Search(k, 0, key);
      AllPositive(tree);
      if holder == NULL || delta != dir {
        Nearest(Order(tree), key, k, holder, delta, i, dir, holder);
        return holder, i;
      }
      r := Inorder(holder, dir, i);
      Nearest(Order(tree), key, k, holder, delta, i, dir, r);
      i := i + dir;
    }

    /** avlh_init () */
    method InitHolder(node: Addr)
      requires node > 0 && Valid() && node !in Order(tree)
      modifies this`mem
      ensures Valid() && At(mem, node).balance == 0
    {
      ghost var m := mem;
      SetBalance(node, 0);
      SetType(node, 0);
      FocusedFrame(m, mem, tree, node);
    }

    /** avl_insert_back (): behind the holders with the same key. */
    method InsertBack(node: Addr, key: Key) returns (ghost cut: nat)
      requires Valid() && SortedBy(Order(tree), key)
      requires node > 0 && node !in Order(tree) && At(mem, node).balance == 0
      modifies this
      ensures Valid() && SortedBy(Order(tree), key)
      ensures cut <= |old(Order(tree))| && Order(tree) == InsertAt(old(Order(tree)), cut, node)
      ensures Below(old(Order(tree))[..cut], key, key(node), RIGHT)
      ensures Above(old(Order(tree))[cut..], key, key(node), RIGHT)
    {
      ghost var s := Order(tree);
      var parent, delta;
      ghost var i, visited;
      parent, delta, i, visited := Search(key(node), RIGHT, key);
      FoundCut(s, key, key(node), RIGHT, parent, delta, i);
      cut := if Toward(delta, RIGHT) == RIGHT then i + 1 else i;
      InsertSorted(s, key, node, cut, RIGHT);
      InsertInner(parent, node, Toward(delta, RIGHT), i);
    }

    /** avl_insert (): no holder may have the key of `node`. */
    method Insert(node: Addr, key: Key) returns (ghost cut: nat)
      requires Valid() && SortedBy(Order(tree), key)
      requires node > 0 && node !in Order(tree) && At(mem, node).balance == 0
      requires forall j :: 0 <= j < |Order(tree)| ==> key(Order(tree)[j]) != key(node)
      modifies this
      ensures Valid() && SortedBy(Order(tree), key)
      ensures cut <= |old(Order(tree))| && Order(tree) == InsertAt(old(Order(tree)), cut, node)
    {
      ghost var s := Order(tree);
      var parent, delta;
      ghost var i, visited;
      parent, delta, i, visited := Search(key(node), 0, key);
      assert delta != 0;
      FoundCut(s, key, key(node), 0, parent, delta, i);
      cut := if delta == RIGHT then i + 1 else i;
      InsertSorted(s, key, node, cut, 0);
      InsertInner(parent, node, delta, i);
    }

    /** avl_prepend (): in front of every holder. */
    method Prepend(node: Addr, key: Key)
      requires Valid() && SortedBy(Order(tree), key)
      requires node > 0 && node !in Order(tree) && At(mem, node).balance == 0
      requires Order(tree) != [] ==> key(node) < key(Order(tree)[0])
      modifies this
      ensures Valid() && SortedBy(Order(tree), key)
      ensures Order(tree) == InsertAt(old(Order(tree)), 0, node)
    {
      HasOrder(tree);
      HeadFree(mem, tree);
      var parent := head;
      var typ := if parent == NULL then RIGHT else LEFT;
      assert InsertAt(Order(tree), 0, node) == [node] + Order(tree);
      InsertInner(parent, node, typ, if tree.Leaf? then -1 else 0);
    }

    /** avl_replace (): `newh` fits between the neighbours of `oldh`. */
    method Replace(oldh: Addr, newh: Addr, ghost i: int, key: Key)
      requires Valid() && SortedBy(Order(tree), key)
      requires 0 <= i < |Order(tree)| && Order(tree)[i] == oldh
      requires newh > 0 && newh !in Order(tree)
      requires i > 0 ==> key(Order(tree)[i - 1]) <= key(newh)
      requires i < |Order(tree)| - 1 ==> key(newh) <= key(Order(tree)[i + 1])
      modifies this
      ensures Valid() && Order(tree) == old(Order(tree))[i := newh] && SortedBy(Order(tree), key)
    {
      hide Order, Height, Focused, SortedBy;
      var prev := Inorder(oldh, LEFT, i);
      var next := Inorder(oldh, RIGHT, i);
      FocusedOrder(mem, tree);
      assert !((prev != NULL && key(newh) < key(prev)) || (next != NULL && key(newh) > key(next)));
      ReplaceSorted(Order(tree), key, newh, i);
      SwapHolder(oldh, newh, i);
      if oldh == head {
        head := newh;
      }
      if oldh == tail {
        tail := newh;
      }
    }

    /** avl_init () */
    constructor ()
      ensures Valid() && tree == Leaf
    {
      mem := map[ANCHOR := Holder(0, 0, NULL, NULL, NULL)];
      head, tail, count, height := NULL, NULL, 0, 0;
      tree := Leaf;
    }
  }

  /** avl_count () and avl_height () of a valid tree: the tree is never sparse, so a search is logarithmic. */
  lemma {:induction false} CountBound(t: AvlTree)
    requires t.Valid()
    ensures t.count >= Fib(t.height + 2) - 1
  {
    Bushy(t.mem, t.tree);
  }
}
