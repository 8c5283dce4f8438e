/** Proof steps for the operations of `struct avl` in lib/heap.c: climbs, attachment, replacement,
    neighbours and removal, each stated on memories and ghost trees. */
module AvlSteps {
  import opened Sequences
  import opened AvlShape
  import opened AvlRotation

  /** Memory links the tree `t` in the hole of context `c`. */
  ghost predicate Hung(m: Mem, t: Tree, c: Ctx) {
    && Proper(t) && CProper(c) && Separate(t, c)
    && Links(m, t, CAddr(c), CSide(c)) && CLinks(m, c, Root(t))
  }

  /** ... and `t` is balanced. */
  ghost predicate Focused(m: Mem, t: Tree, c: Ctx) {
    Hung(m, t, c) && Balanced(m, t)
  }

  /** The focus is one higher than the `h` its context accounts for, unless its root leans to neither side. */
  ghost predicate Grown(m: Mem, t: Tree, c: Ctx, h: int) {
    && t.Bin? && Focused(m, t, c) && CBalanced(m, c, h)
    && Height(t) == h + (if At(m, t.a).balance == 0 then 0 else 1)
  }

  /** Moving the focus to the parent, whose balance was computed for a hole of height `h`. */
  lemma {:induction false} StepUp(m: Mem, t: Tree, c: Ctx, h: int)
    requires Focused(m, t, c) && c.In? && CBalanced(m, c, h)
    ensures var j := Join(c.side, c.sib, c.a, t);
            && j == Join(-c.side, t, c.a, c.sib)
            && Proper(j) && CProper(c.up) && Separate(j, c.up)
            && Links(m, j, CAddr(c.up), CSide(c.up)) && CLinks(m, c.up, c.a)
    ensures IsDir(c.side) && c.a > 0 && Balanced(m, c.sib)
    ensures At(m, c.a).balance == Lean(c.side, Height(c.sib), h) && -1 <= At(m, c.a).balance <= 1
    ensures CBalanced(m, c.up, 1 + Max(Height(c.sib), h))
  {
    JoinFlip(c.side, c.sib, c.a, t);
    JoinParts(c.side, c.sib, c.a, t);
    JoinLinks(m, c.side, c.sib, c.a, t, CAddr(c.up), CSide(c.up));
  }

  lemma {:induction false} RebuiltFocused(m: Mem, m': Mem, t: Tree, t': Tree, c: Ctx, top: Addr, h: int)
    requires Rebuilt(m, m', t, t', c, top) && CProper(c) && Separate(t, c) && CBalanced(m, c, h)
    ensures Focused(m', t', c) && CBalanced(m', c, h)
  {
    CBalancedFrame(m, m', c, h);
  }

  /** Side `delta` of `h`, with children `p` and `q` read towards `delta`, is one level higher than
      the balance of `h` accounts for. */
  ghost predicate BalanceReady(m: Mem, delta: int, p: Tree, h: Addr, q: Tree, c: Ctx) {
    && IsDir(delta) && Hung(m, Join(delta, p, h, q), c) && Balanced(m, p) && Balanced(m, q)
    && At(m, h).balance == Lean(delta, Height(p) + 1, Height(q)) && -1 <= At(m, h).balance <= 1
  }

  lemma {:induction false} GrownStart(m: Mem, t: Tree, c: Ctx, h: int)
    requires Grown(m, t, c, h) && c.In? && At(m, t.a).balance != 0
    ensures BalanceReady(m, c.side, c.sib, c.a, t, c.up)
    ensures At(m, t.a).up == c.a && At(m, t.a).typ == c.side
  {
    StepUp(m, t, c, h);
  }

  /** How avlh_balance_add () turns balance `b` and subtree heights `hp`, `hq` into balance `b'` and height `h'`. */
  ghost predicate Added(b: int, b': int, delta: int, hp: int, hq: int, h': int) {
    if b == delta then h' == 1 + hq - (if b' == 0 then 1 else 0)
    else b' == b + delta && h' == 1 + Max(hp, hq)
  }

  lemma {:induction false} GrownHeights(side: int, b: int, b': int, h: int, ht: int, hs: int, ht': int)
    requires IsDir(side) && b == Lean(side, hs, h) && -1 <= b <= 1 && ht == h + 1
    requires Added(b, b', side, hs, ht, ht')
    ensures ht' == 1 + Max(hs, h) + (if b' == 0 then 0 else 1)
  {
  }

  lemma {:induction false} ShrunkHeights(side: int, b: int, b': int, h: int, ht: int, hs: int, ht': int)
    requires IsDir(side) && b == Lean(side, hs, h) && -1 <= b <= 1 && ht == h - 1
    requires Added(b, b', -side, ht, hs, ht')
    ensures ht' == 1 + Max(hs, h) - (if b' == 0 then 1 else 0)
  {
  }

  lemma {:induction false} StepOrder(t: Tree, c: Ctx, t': Tree)
    requires c.In? && Order(t') == Order(Join(c.side, c.sib, c.a, t))
    ensures Order(Plug(c.up, t')) == Order(Plug(c, t))
  {
    OrderPlug(c.up, Join(c.side, c.sib, c.a, t));
    OrderPlug(c.up, t');
  }

  lemma {:induction false} StepFocus(m: Mem, m': Mem, t: Tree, c: Ctx, h: int, t': Tree, top: Addr)
    requires Focused(m, t, c) && CBalanced(m, c, h) && c.In?
    requires Rebuilt(m, m', Join(c.side, c.sib, c.a, t), t', c.up, top)
    ensures Focused(m', t', c.up) && CBalanced(m', c.up, 1 + Max(Height(c.sib), h)) && t'.Bin? && t'.a == top
    ensures At(m', top).up == CAddr(c.up) && At(m', top).typ == CSide(c.up)
    ensures IsDir(c.side) && At(m, c.a).balance == Lean(c.side, Height(c.sib), h) && -1 <= At(m, c.a).balance <= 1
    ensures Order(t') == Order(Join(c.side, c.sib, c.a, t))
  {
    StepUp(m, t, c, h);
    RebuiltFocused(m, m', Join(c.side, c.sib, c.a, t), t', c.up, top, 1 + Max(Height(c.sib), h));
  }

  lemma {:induction false} GrownStep(m: Mem, m': Mem, t: Tree, c: Ctx, h: int, t': Tree, top: Addr)
    requires Grown(m, t, c, h) && c.In? && At(m, t.a).balance != 0
    requires Rebuilt(m, m', Join(c.side, c.sib, c.a, t), t', c.up, top)
    requires Added(At(m, c.a).balance, At(m', top).balance, c.side, Height(c.sib), Height(t), Height(t'))
    ensures Grown(m', t', c.up, 1 + Max(Height(c.sib), h)) && t'.Bin? && t'.a == top
    ensures CHeight(c.up, 1 + Max(Height(c.sib), h)) == CHeight(c, h)
    ensures Order(Plug(c.up, t')) == Order(Plug(c, t))
  {
    hide Height, Order, Has, Join, Hung, CBalanced, Plug, At;
    StepFocus(m, m', t, c, h, t', top);
    StepOrder(t, c, t');
    GrownHeights(c.side, At(m, c.a).balance, At(m', top).balance, h, Height(t), Height(c.sib), Height(t'));
  }

  lemma {:induction false} HungParts(m: Mem, delta: int, p: Tree, h: Addr, q: Tree, c: Ctx)
    requires IsDir(delta) && Hung(m, Join(delta, p, h, q), c)
    ensures Join(delta, p, h, q).Bin? && Join(delta, p, h, q).a == h && !Has(p, h) && !Has(q, h)
  {
    JoinParts(delta, p, h, q);
  }

  lemma {:induction false} AddedLinks(m: Mem, m': Mem, t: Tree, c: Ctx, h: Addr)
    requires Hung(m, t, c) && t.Bin? && t.a == h
    requires SameLinks(m, m')
    requires forall a :: a != h ==> At(m', a) == At(m, a)
    ensures Hung(m', t, c)
    ensures Proper(t) && Links(m', t, CAddr(c), CSide(c)) && CLinks(m', c, h) && SameNodes(t, t)
    ensures forall a :: CHas(c, a) ==> At(m', a).balance == At(m, a).balance
  {
    assert Has(t, h);
    LinksFrame(m, m', t, CAddr(c), CSide(c));
    CLinksFrame(m, m', c, h);
  }

  lemma {:induction false} BalanceAdded(m: Mem, m': Mem, delta: int, p: Tree, h: Addr, q: Tree, c: Ctx)
    requires BalanceReady(m, delta, p, h, q, c)
    requires At(m, h).balance != delta
    requires At(m', h) == At(m, h).(balance := At(m, h).balance + delta)
    requires forall a :: a != h ==> At(m', a) == At(m, a)
    ensures Rebuilt(m, m', Join(delta, p, h, q), Join(delta, p, h, q), c, h)
    ensures Height(Join(delta, p, h, q)) == 1 + Max(Height(p), Height(q))
  {
    hide Join, Height, Order, Has, CHas, Balanced, At, Hung;
    HungParts(m, delta, p, h, q, c);
    JoinHeight(delta, p, h, q);
    AddedLinks(m, m', Join(delta, p, h, q), c, h);
    BalanceAddedOnce(m, m', delta, p, h, q);
  }

  lemma {:induction false} BalanceAddedOnce(m: Mem, m': Mem, delta: int, p: Tree, h: Addr, q: Tree)
    requires IsDir(delta) && !Has(p, h) && !Has(q, h)
    requires Balanced(m, p) && Balanced(m, q)
    requires At(m, h).balance == Lean(delta, Height(p) + 1, Height(q)) && -1 <= At(m, h).balance <= 1
    requires At(m, h).balance != delta
    requires At(m', h).balance == At(m, h).balance + delta
    requires forall a :: a != h ==> At(m', a) == At(m, a)
    ensures Balanced(m', Join(delta, p, h, q))
  {
    BalancedFrame(m, m', p);
    BalancedFrame(m, m', q);
    JoinBalanced(m', delta, p, h, q);
  }

  /** Filling the hole gives back a whole tree. */
  lemma {:induction false} Unfocus(m: Mem, t: Tree, c: Ctx)
    requires Focused(m, t, c) && CBalanced(m, c, Height(t))
    ensures Focused(m, Plug(c, t), Top) && Height(Plug(c, t)) == CHeight(c, Height(t))
  {
    ProperPlug(c, t);
    LinksPlug(m, c, t);
    BalancedPlug(m, c, t);
    HeightPlug(c, t);
  }

  function First(s: seq<Addr>): Addr {
    if s == [] then NULL else s[0]
  }

  function Last(s: seq<Addr>): Addr {
    if s == [] then NULL else s[|s| - 1]
  }

  /** A holder without child on side `side`, seen from its place in the tree. */
  lemma {:induction false} FreeSide(m: Mem, t: Tree, parent: Addr, side: int) returns (c: Ctx, sib: Tree)
    requires Focused(m, t, Top) && Has(t, parent) && IsDir(side) && At(m, parent).Link(side) == NULL
    ensures var s := Join(side, sib, parent, Leaf);
            && Plug(c, s) == t && Focused(m, s, c) && CBalanced(m, c, Height(s))
            && CHeight(c, Height(s)) == Height(t) && Has(s, parent)
            && (forall b :: Has(t, b) <==> CHas(c, b) || Has(s, b))
  {
    var (c', s) := Locate(Top, t, parent);
    LocateProper(Top, t, parent);
    c := c';
    JoinSplit(side, s);
    sib := Near(side, s);
    ProperPlug(c, s);
    LinksPlug(m, c, s);
    BalancedPlug(m, c, s);
    HasPlug(c, s);
    HeightPlug(c, s);
    JoinLinks(m, side, sib, parent, Far(side, s), CAddr(c), CSide(c));
    JoinParts(side, sib, parent, Far(side, s));
  }

  /** What attaching `node` as a leaf writes, the parent's balance included. */
  ghost predicate AttachWrites(m: Mem, m': Mem, parent: Addr, node: Addr, side: int) {
    && At(m', node) == Holder(side, 0, NULL, parent, NULL)
    && At(m', parent) == At(m, parent).SetLink(side, node).(balance := At(m, parent).balance + side)
    && (forall a :: a != parent && a != node ==> At(m', a) == At(m, a))
  }

  lemma {:induction false} Attached(m: Mem, m': Mem, c: Ctx, sib: Tree, parent: Addr, node: Addr, side: int)
    requires IsDir(side) && node > 0
    requires var s := Join(side, sib, parent, Leaf);
             && Focused(m, s, c) && CBalanced(m, c, Height(s))
             && !Has(s, node) && !CHas(c, node)
    requires AttachWrites(m, m', parent, node, side)
    ensures var s := Join(side, sib, parent, Leaf);
            var s' := Join(side, sib, parent, Bin(Leaf, node, Leaf));
            s'.a == parent && Grown(m', s', c, Height(s))
  {
    var s := Join(side, sib, parent, Leaf);
    var leaf := Bin(Leaf, node, Leaf);
    var s' := Join(side, sib, parent, leaf);
    JoinParts(side, sib, parent, Leaf);
    JoinParts(side, sib, parent, leaf);
    CHasPositive(c);
    JoinLinks(m, side, sib, parent, Leaf, CAddr(c), CSide(c));
    LinksFrame(m, m', sib, parent, -side);
    JoinLinks(m', side, sib, parent, leaf, CAddr(c), CSide(c));
    CLinksFrame(m, m', c, parent);
    AttachedBalance(m, m', c, sib, parent, node, side);
  }

  lemma {:induction false} AttachedBalance(m: Mem, m': Mem, c: Ctx, sib: Tree, parent: Addr, node: Addr, side: int)
    requires IsDir(side)
    requires Balanced(m, Join(side, sib, parent, Leaf)) && CBalanced(m, c, Height(Join(side, sib, parent, Leaf)))
    requires !Has(sib, parent) && !Has(sib, node) && !CHas(c, parent) && !CHas(c, node)
    requires AttachWrites(m, m', parent, node, side) && parent != node
    ensures var s := Join(side, sib, parent, Leaf);
            var s' := Join(side, sib, parent, Bin(Leaf, node, Leaf));
            && Balanced(m', s') && CBalanced(m', c, Height(s))
            && Height(s') == Height(s) + (if At(m', parent).balance == 0 then 0 else 1)
  {
    var leaf := Bin(Leaf, node, Leaf);
    JoinBalanced(m, side, sib, parent, Leaf);
    JoinParts(side, sib, parent, Leaf);
    JoinParts(side, sib, parent, leaf);
    BalancedFrame(m, m', sib);
    CBalancedFrame(m, m', c, Height(Join(side, sib, parent, Leaf)));
    assert Height(leaf) == 1 && Balanced(m', leaf);
    JoinBalanced(m', side, sib, parent, leaf);
  }

  lemma {:induction false} PlaceOf(s: seq<Addr>, p: seq<Addr>, x: Addr, q: seq<Addr>, i: int)
    requires s == p + [x] + q && Distinct(s) && 0 <= i < |s| && s[i] == x
    ensures i == |p| && s[..i] == p && s[i + 1..] == q
  {
    assert s[|p|] == x;
  }

  lemma {:induction false} EndsOfInsert(s: seq<Addr>, k: int, i: int, node: Addr)
    requires Distinct(s) && 0 <= i < |s| && (k == i || k == i + 1)
    ensures |InsertAt(s, k, node)| == |s| + 1
    ensures First(InsertAt(s, k, node)) == if k == i && s[i] == First(s) then node else First(s)
    ensures Last(InsertAt(s, k, node)) == if k == i + 1 && s[i] == Last(s) then node else Last(s)
  {
  }

  /** Where the attached leaf shows up in order. */
  lemma {:induction false} AttachedOrder(c: Ctx, sib: Tree, parent: Addr, node: Addr, side: int, i: int)
    requires IsDir(side)
    requires var s := Order(Plug(c, Join(side, sib, parent, Leaf)));
             Distinct(s) && 0 <= i < |s| && s[i] == parent
    ensures var s := Order(Plug(c, Join(side, sib, parent, Leaf)));
            Order(Plug(c, Join(side, sib, parent, Bin(Leaf, node, Leaf))))
            == InsertAt(s, if side == RIGHT then i + 1 else i, node)
  {
    OrderPlug(c, Join(side, sib, parent, Leaf));
    OrderPlug(c, Join(side, sib, parent, Bin(Leaf, node, Leaf)));
    var p, q := AttachedSides(c, sib, parent, node, side);
    InsertBeside(p, parent, q, node, i);
  }

  lemma {:induction false} InsertBeside(p: seq<Addr>, x: Addr, q: seq<Addr>, node: Addr, i: int)
    requires var s := p + [x] + q; Distinct(s) && 0 <= i < |s| && s[i] == x
    ensures var s := p + [x] + q;
            InsertAt(s, i + 1, node) == p + [x] + [node] + q && InsertAt(s, i, node) == p + [node] + [x] + q
  {
    var s := p + [x] + q;
    PlaceOf(s, p, x, q, i);
    assert s[..i + 1] == p + [x];
    assert s[i..] == [x] + q;
  }

  lemma {:induction false} AttachedSides(c: Ctx, sib: Tree, parent: Addr, node: Addr, side: int)
    returns (p: seq<Addr>, q: seq<Addr>)
    requires IsDir(side)
    ensures Before(c) + Order(Join(side, sib, parent, Leaf)) + After(c) == p + [parent] + q
    ensures Before(c) + Order(Join(side, sib, parent, Bin(Leaf, node, Leaf))) + After(c)
            == if side == RIGHT then p + [parent] + [node] + q else p + [node] + [parent] + q
  {
    assert Order(Bin(Leaf, node, Leaf)) == [node];
    if side == RIGHT {
      p, q := Before(c) + Order(sib), After(c);
      Regroup(Before(c), Order(sib), [parent], [], After(c));
      Regroup(Before(c), Order(sib), [parent], [node], After(c));
    } else {
      p, q := Before(c), Order(sib) + After(c);
      Regroup(Before(c), [], [parent], Order(sib), After(c));
      Regroup(Before(c), [node], [parent], Order(sib), After(c));
    }
  }

  lemma {:induction false} Regroup(b: seq<Addr>, l: seq<Addr>, x: seq<Addr>, r: seq<Addr>, a: seq<Addr>)
    ensures b + (l + x + r) + a == b + l + x + (r + a) == b + l + x + r + a
    ensures r == [] ==> l + x + r == l + x
  {
  }

  /** `newh` and the parts of the place it takes share no holder. */
  ghost predicate PlaceApart(oldh: Addr, newh: Addr, l: Tree, r: Tree, c: Ctx) {
    && oldh > 0 && newh > 0 && oldh != newh && CAddr(c) != oldh && CAddr(c) != newh
    && Proper(l) && Proper(r) && CProper(c)
    && (l.Bin? ==> l.a > 0) && (r.Bin? ==> r.a > 0) && (l.Bin? && r.Bin? ==> l.a != r.a)
    && (forall a :: Has(l, a) ==> a != oldh && a != newh && a != CAddr(c) && !Has(r, a))
    && (forall a :: Has(r, a) ==> a != oldh && a != newh && a != CAddr(c))
    && (forall a :: CHas(c, a) ==> a > 0 && a != oldh && a != newh && !Has(l, a) && !Has(r, a))
    && (l.Bin? ==> Has(l, l.a)) && (r.Bin? ==> Has(r, r.a))
    && IsDir(CSide(c)) && !Has(l, ANCHOR) && !Has(r, ANCHOR)
  }

  lemma {:induction false} ReplaceApart(oldh: Addr, newh: Addr, l: Tree, r: Tree, c: Ctx)
    requires var t := Bin(l, oldh, r);
             && Proper(t) && CProper(c) && Separate(t, c)
             && newh > 0 && !Has(t, newh) && !CHas(c, newh)
    ensures PlaceApart(oldh, newh, l, r, c)
  {
    var t := Bin(l, oldh, r);
    HasPositive(t);
    CHasPositive(c);
    CHasTop(c);
    HasRoot(l);
    HasRoot(r);
    forall a ensures Has(t, a) <==> a == oldh || Has(l, a) || Has(r, a) {
    }
  }

  /** What avlh_replace () writes. */
  ghost predicate ReplaceWrites(m: Mem, m': Mem, oldh: Addr, newh: Addr, l: Tree, r: Tree, c: Ctx) {
    && At(m', newh) == At(m, oldh).(balance := At(m, newh).balance)
    && (l.Bin? ==> At(m', l.a) == At(m, l.a).(up := newh))
    && (r.Bin? ==> At(m', r.a) == At(m, r.a).(up := newh))
    && At(m', CAddr(c)) == At(m, CAddr(c)).SetLink(CSide(c), newh)
    && (forall a :: a != newh && a != CAddr(c) && (l.Bin? ==> a != l.a) && (r.Bin? ==> a != r.a) ==>
          At(m', a) == At(m, a))
  }

  lemma {:induction false} Replaced(m: Mem, m': Mem, oldh: Addr, newh: Addr, l: Tree, r: Tree, c: Ctx)
    requires PlaceApart(oldh, newh, l, r, c)
    requires Links(m, Bin(l, oldh, r), CAddr(c), CSide(c)) && CLinks(m, c, oldh)
    requires ReplaceWrites(m, m', oldh, newh, l, r, c)
    ensures Links(m', Bin(l, newh, r), CAddr(c), CSide(c)) && CLinks(m', c, newh)
    ensures SameBalances(m, m')
  {
    Reparent(m, m', l, oldh, LEFT, newh, LEFT);
    Reparent(m, m', r, oldh, RIGHT, newh, RIGHT);
    CLinksRefill(m, m', c, oldh, newh);
  }

  lemma {:induction false} LocateFocus(m: Mem, t: Tree, a: Addr) returns (c: Ctx, s: Tree)
    requires Focused(m, t, Top) && Has(t, a)
    ensures s.Bin? && s.a == a && Plug(c, s) == t && Focused(m, s, c) && CBalanced(m, c, Height(s))
    ensures CHeight(c, Height(s)) == Height(t) && (forall b :: Has(t, b) <==> CHas(c, b) || Has(s, b))
    ensures Order(t) == Before(c) + Order(s) + After(c)
  {
    var (c', s') := Locate(Top, t, a);
    LocateProper(Top, t, a);
    c, s := c', s';
    ProperPlug(c, s);
    LinksPlug(m, c, s);
    BalancedPlug(m, c, s);
    HasPlug(c, s);
    HeightPlug(c, s);
    OrderPlug(c, s);
  }

  lemma {:induction false} Swapped(m: Mem, m1: Mem, m': Mem, t: Tree, oldh: Addr, newh: Addr, s: Tree, c: Ctx, i: int)
    requires Focused(m, s, c) && CBalanced(m, c, Height(s)) && s.Bin? && s.a == oldh && Plug(c, s) == t && Proper(t)
    requires 0 <= i < |Order(t)| && Order(t)[i] == oldh
    requires newh > 0 && !Has(s, newh) && !CHas(c, newh)
    requires SameBalances(m, m1) && SameLinks(m1, m')
    requires forall a :: a != newh ==> At(m', a).balance == At(m1, a).balance
    requires At(m', newh).balance == At(m, oldh).balance
    requires Links(m1, Bin(s.l, newh, s.r), CAddr(c), CSide(c)) && CLinks(m1, c, newh)
    ensures var t' := Plug(c, Bin(s.l, newh, s.r));
            Focused(m', t', Top) && Order(t') == Order(t)[i := newh] && Height(t') == Height(t)
  {
    SwappedFocus(m, m1, m', oldh, newh, s, c);
    Unfocus(m', Bin(s.l, newh, s.r), c);
    HeightPlug(c, s);
    SwappedOrder(t, oldh, newh, s, c, i);
  }

  lemma {:induction false} SwappedFocus(m: Mem, m1: Mem, m': Mem, oldh: Addr, newh: Addr, s: Tree, c: Ctx)
    requires Focused(m, s, c) && CBalanced(m, c, Height(s)) && s.Bin? && s.a == oldh
    requires newh > 0 && !Has(s, newh) && !CHas(c, newh)
    requires SameBalances(m, m1) && SameLinks(m1, m')
    requires forall a :: a != newh ==> At(m', a).balance == At(m1, a).balance
    requires At(m', newh).balance == At(m, oldh).balance
    requires Links(m1, Bin(s.l, newh, s.r), CAddr(c), CSide(c)) && CLinks(m1, c, newh)
    ensures Focused(m', Bin(s.l, newh, s.r), c) && CBalanced(m', c, Height(Bin(s.l, newh, s.r)))
    ensures Height(Bin(s.l, newh, s.r)) == Height(s)
  {
    hide Order, At, CBalanced, Links, CLinks;
    LinksFrame(m1, m', Bin(s.l, newh, s.r), CAddr(c), CSide(c));
    CLinksFrame(m1, m', c, newh);
    BalancedFrame(m, m', s.l);
    BalancedFrame(m, m', s.r);
    CBalancedFrame(m, m', c, Height(s));
  }

  lemma {:induction false} SwappedOrder(t: Tree, oldh: Addr, newh: Addr, s: Tree, c: Ctx, i: int)
    requires s.Bin? && s.a == oldh && Plug(c, s) == t && Proper(t)
    requires 0 <= i < |Order(t)| && Order(t)[i] == oldh
    ensures Order(Plug(c, Bin(s.l, newh, s.r))) == Order(t)[i := newh]
  {
    OrderPlug(c, s);
    OrderPlug(c, Bin(s.l, newh, s.r));
    ProperDistinct(t);
    UpdatePlace(Before(c), Order(s.l), oldh, Order(s.r), After(c), newh, i);
  }

  lemma {:induction false} UpdatePlace(b: seq<Addr>, l: seq<Addr>, x: Addr, r: seq<Addr>, a: seq<Addr>, y: Addr, i: int)
    requires var s := b + (l + [x] + r) + a; Distinct(s) && 0 <= i < |s| && s[i] == x
    ensures b + (l + [y] + r) + a == (b + (l + [x] + r) + a)[i := y]
  {
    Split3(b, l, x, r, a);
    Split3(b, l, y, r, a);
    PlaceOf((b + l) + [x] + (r + a), b + l, x, r + a, i);
  }

  lemma {:induction false} Split3(b: seq<Addr>, l: seq<Addr>, x: Addr, r: seq<Addr>, a: seq<Addr>)
    ensures b + (l + [x] + r) + a == (b + l) + [x] + (r + a)
  {
  }

  // ---------- Neighbours ----------

  /** The outermost holder on side `dir`. */
  ghost function Edge(t: Tree, dir: int): Addr
    requires t.Bin?
    decreases t
  {
    if Far(dir, t).Leaf? then t.a else Edge(Far(dir, t), dir)
  }

  lemma {:induction false} EdgeOrder(t: Tree, dir: int)
    requires t.Bin? && IsDir(dir)
    ensures Order(t) != [] && Edge(t, dir) == if dir == RIGHT then Last(Order(t)) else First(Order(t))
    decreases t
  {
    if Far(dir, t).Bin? {
      EdgeOrder(Far(dir, t), dir);
    }
  }

  /** Place `i` is the last one, towards `dir`, in the subtree at the focus. */
  ghost predicate AtEdge(c: Ctx, s: Tree, dir: int, i: int) {
    i == if dir == RIGHT then |Before(c)| + |Order(s)| - 1 else |Before(c)|
  }

  lemma {:induction false} NextBelow(t: Tree, c: Ctx, s: Tree, dir: int, i: int)
    requires IsDir(dir) && s.Bin? && Far(dir, s).Bin?
    requires Order(t) == Before(c) + Order(s) + After(c) && Distinct(Order(t))
    requires 0 <= i < |Order(t)| && Order(t)[i] == s.a
    ensures 0 <= i + dir < |Order(t)| && Order(t)[i + dir] == Edge(Far(dir, s), -dir)
  {
    EdgeOrder(Far(dir, s), -dir);
    Split3(Before(c), Order(s.l), s.a, Order(s.r), After(c));
    BesidePlace(Before(c), Order(s.l), s.a, Order(s.r), After(c), i);
  }

  lemma {:induction false} BesidePlace(b: seq<Addr>, l: seq<Addr>, x: Addr, r: seq<Addr>, a: seq<Addr>, i: int)
    requires var s := (b + l) + [x] + (r + a); Distinct(s) && 0 <= i < |s| && s[i] == x
    ensures var s := (b + l) + [x] + (r + a);
            && i == |b| + |l|
            && (r != [] ==> i + 1 < |s| && s[i + 1] == First(r))
            && (l != [] ==> 0 <= i - 1 && s[i - 1] == Last(l))
  {
    PlaceOf((b + l) + [x] + (r + a), b + l, x, r + a, i);
  }

  lemma {:induction false} NextAtEdge(c: Ctx, s: Tree, dir: int, i: int)
    requires IsDir(dir) && s.Bin? && Far(dir, s).Leaf?
    requires var o := Before(c) + Order(s) + After(c); Distinct(o) && 0 <= i < |o| && o[i] == s.a
    ensures AtEdge(c, s, dir, i)
  {
    Split3(Before(c), Order(s.l), s.a, Order(s.r), After(c));
    BesidePlace(Before(c), Order(s.l), s.a, Order(s.r), After(c), i);
  }

  /** An empty far side is a NULL link, and conversely. */
  lemma {:induction false} FarEmpty(m: Mem, t: Tree, dir: int, up: Addr, typ: int)
    requires IsDir(dir) && t.Bin? && Links(m, t, up, typ) && Proper(t)
    ensures At(m, t.a).Link(dir) == Root(Far(dir, t)) && (Far(dir, t).Leaf? <==> At(m, t.a).Link(dir) == NULL)
    ensures Links(m, Far(dir, t), t.a, dir) && Proper(Far(dir, t))
  {
    assert Far(dir, t).Bin? ==> Far(dir, t).a > 0;
  }

  lemma {:induction false} FarLink(m: Mem, s: Tree, dir: int, c: Ctx)
    requires IsDir(dir) && s.Bin? && Hung(m, s, c)
    ensures At(m, s.a).Link(dir) == Root(Far(dir, s)) && (Far(dir, s).Leaf? <==> At(m, s.a).Link(dir) == NULL)
    ensures Links(m, Far(dir, s), s.a, dir) && Proper(Far(dir, s))
  {
    FarEmpty(m, s, dir, CAddr(c), CSide(c));
  }

  lemma {:induction false} StepUpLinks(m: Mem, t: Tree, c: Ctx)
    requires Hung(m, t, c) && c.In? && t.Bin?
    ensures At(m, t.a).up == c.a && At(m, t.a).typ == c.side && IsDir(c.side) && c.a > 0
    ensures Hung(m, Join(c.side, c.sib, c.a, t), c.up)
  {
    JoinParts(c.side, c.sib, c.a, t);
    JoinLinks(m, c.side, c.sib, c.a, t, CAddr(c.up), CSide(c.up));
  }

  lemma {:induction false} EdgeStep(s: Tree, c: Ctx, dir: int, i: int)
    requires IsDir(dir) && AtEdge(c, s, dir, i) && (c.In? ==> IsDir(c.side))
    ensures var o := Before(c) + Order(s) + After(c);
            && (c.Top? ==> !(0 <= i + dir < |o|))
            && (c.In? && c.side == dir ==> AtEdge(c.up, Join(c.side, c.sib, c.a, s), dir, i))
            && (c.In? && c.side != dir ==> 0 <= i + dir < |o| && o[i + dir] == c.a)
  {
    var o := Before(c) + Order(s) + After(c);
    if c.In? {
      if c.side == RIGHT {
        if dir == LEFT {
          assert Before(c)[|Before(c)| - 1] == c.a;
        }
      } else {
        if dir == RIGHT {
          assert After(c)[0] == c.a;
        }
      }
    }
  }

  /** The holder at place `i`: its neighbour on side `dir` is below it, or it is the edge of its subtree. */
  lemma {:induction false} Placed(m: Mem, t: Tree, a: Addr, dir: int, i: int) returns (c: Ctx, s: Tree)
    requires Focused(m, t, Top) && IsDir(dir)
    requires 0 <= i < |Order(t)| && Order(t)[i] == a
    ensures Hung(m, s, c) && s.Bin? && s.a == a && Plug(c, s) == t
    ensures At(m, a).Link(dir) == Root(Far(dir, s)) && (Far(dir, s).Leaf? <==> At(m, a).Link(dir) == NULL)
    ensures Links(m, Far(dir, s), a, dir) && Proper(Far(dir, s))
    ensures Far(dir, s).Leaf? ==> AtEdge(c, s, dir, i)
    ensures Far(dir, s).Bin? ==> 0 <= i + dir < |Order(t)| && Order(t)[i + dir] == Edge(Far(dir, s), -dir) > 0
  {
    HasOrder(t);
    ProperDistinct(t);
    c, s := LocateFocus(m, t, a);
    FarLink(m, s, dir, c);
    if Far(dir, s).Bin? {
      NextBelow(t, c, s, dir, i);
      assert Order(t)[i + dir] in Order(t);
    } else {
      NextAtEdge(c, s, dir, i);
    }
  }

  // ---------- Deletion ----------

  /** The focus is one lower than the `h` its context accounts for exactly when `node` leans to neither
      side.  `node` is its root or, when it is empty, the leaf that left. */
  ghost predicate Shrunk(m: Mem, t: Tree, c: Ctx, h: int, node: Addr) {
    && Focused(m, t, c) && CBalanced(m, c, h)
    && (t.Bin? ==> t.a == node) && At(m, node).up == CAddr(c) && At(m, node).typ == CSide(c)
    && Height(t) == h - (if At(m, node).balance == 0 then 1 else 0)
  }

  lemma {:induction false} ShrunkStart(m: Mem, t: Tree, c: Ctx, h: int, node: Addr)
    requires Shrunk(m, t, c, h, node) && c.In? && At(m, node).balance == 0
    ensures BalanceReady(m, -c.side, t, c.a, c.sib, c.up)
    ensures At(m, node).up == c.a && At(m, node).typ == c.side
  {
    StepUp(m, t, c, h);
  }

  lemma {:induction false} ParentFlip(m: Mem, t: Tree, c: Ctx)
    requires Focused(m, t, c) && c.In?
    ensures IsDir(c.side) && Join(-c.side, t, c.a, c.sib) == Join(c.side, c.sib, c.a, t)
  {
    JoinFlip(c.side, c.sib, c.a, t);
  }

  lemma {:induction false} ShrunkStep(m: Mem, m': Mem, t: Tree, c: Ctx, h: int, node: Addr, t': Tree, top: Addr)
    requires Shrunk(m, t, c, h, node) && c.In? && At(m, node).balance == 0
    requires Rebuilt(m, m', Join(-c.side, t, c.a, c.sib), t', c.up, top)
    requires Added(At(m, c.a).balance, At(m', top).balance, -c.side, Height(t), Height(c.sib), Height(t'))
    ensures Shrunk(m', t', c.up, 1 + Max(Height(c.sib), h), top)
    ensures CHeight(c.up, 1 + Max(Height(c.sib), h)) == CHeight(c, h)
    ensures Order(Plug(c.up, t')) == Order(Plug(c, t))
  {
    hide Height, Order, Has, Join, Hung, CBalanced, Plug, At;
    ParentFlip(m, t, c);
    StepFocus(m, m', t, c, h, t', top);
    StepOrder(t, c, t');
    ShrunkHeights(c.side, At(m, c.a).balance, At(m', top).balance, h, Height(t), Height(c.sib), Height(t'));
  }

  lemma {:induction false} LeafLinks(m: Mem, node: Addr, c: Ctx)
    requires Focused(m, Bin(Leaf, node, Leaf), c) && c.In?
    ensures At(m, node) == Holder(c.side, 0, NULL, c.a, NULL) && IsDir(c.side)
    ensures node > 0 && node != c.a && c.a > 0
  {
    assert Has(Bin(Leaf, node, Leaf), node) && CHas(c, c.a);
  }

  lemma {:induction false} LeafOut(m: Mem, m': Mem, node: Addr, c: Ctx)
    requires Focused(m, Bin(Leaf, node, Leaf), c) && CBalanced(m, c, 1) && c.In?
    requires At(m', c.a) == At(m, c.a).SetLink(c.side, NULL)
    requires forall a :: a != c.a ==> At(m', a) == At(m, a)
    ensures Shrunk(m', Leaf, c, 1, node)
  {
    LeafLinks(m, node, c);
    CLinksRefill(m, m', c, node, NULL);
    CBalancedFrame(m, m', c, 1);
  }

  lemma {:induction false} OneChildLinks(m: Mem, node: Addr, dir: int, k: Addr, c: Ctx)
    requires IsDir(dir) && Focused(m, Join(dir, Leaf, node, Bin(Leaf, k, Leaf)), c)
    ensures At(m, node).Link(dir) == k && At(m, node).Link(-dir) == NULL
    ensures At(m, node).up == CAddr(c) && At(m, node).typ == CSide(c)
    ensures At(m, k).left == NULL && At(m, k).right == NULL && At(m, k).balance == 0
    ensures node > 0 && k > 0 && k != node && !CHas(c, node) && !CHas(c, k)
  {
    var s := Join(dir, Leaf, node, Bin(Leaf, k, Leaf));
    JoinLinks(m, dir, Leaf, node, Bin(Leaf, k, Leaf), CAddr(c), CSide(c));
    JoinBalanced(m, dir, Leaf, node, Bin(Leaf, k, Leaf));
    JoinParts(dir, Leaf, node, Bin(Leaf, k, Leaf));
    assert Has(Bin(Leaf, k, Leaf), k);
    assert Has(s, node) && Has(s, k);
  }

  lemma {:induction false} OneChildCut(m: Mem, m': Mem, node: Addr, dir: int, k: Addr, c: Ctx)
    requires IsDir(dir) && Focused(m, Join(dir, Leaf, node, Bin(Leaf, k, Leaf)), c)
    requires At(m', node) == At(m, node).SetLink(dir, NULL)
    requires forall a :: a != node ==> At(m', a) == At(m, a)
    ensures Hung(m', Bin(Leaf, node, Leaf), c) && !Has(Bin(Leaf, node, Leaf), k) && !CHas(c, k)
  {
    OneChildLinks(m, node, dir, k, c);
    JoinRoot(dir, Leaf, node, Bin(Leaf, k, Leaf));
    CHasPositive(c);
    CLinksFrame(m, m', c, node);
  }

  lemma {:induction false} OneChildOut(m: Mem, m1: Mem, m': Mem, node: Addr, dir: int, k: Addr, c: Ctx)
    requires IsDir(dir) && Focused(m, Join(dir, Leaf, node, Bin(Leaf, k, Leaf)), c) && CBalanced(m, c, 2)
    requires forall a :: At(m1, a).balance == At(m, a).balance
    requires SameBalances(m1, m')
    requires Links(m', Bin(Leaf, k, Leaf), CAddr(c), CSide(c)) && CLinks(m', c, k)
    ensures Shrunk(m', Bin(Leaf, k, Leaf), c, 2, k)
  {
    OneChildLinks(m, node, dir, k, c);
    CBalancedFrame(m, m', c, 2);
  }

  /** Without a child on side `-dir`, a balanced subtree has at most a leaf on side `dir`. */
  lemma {:induction false} OneChildShape(m: Mem, s: Tree, dir: int) returns (k: Addr)
    requires IsDir(dir) && s.Bin? && Balanced(m, s) && Near(dir, s).Leaf? && Far(dir, s).Bin?
    ensures s == Join(dir, Leaf, s.a, Bin(Leaf, k, Leaf)) && Height(s) == 2
  {
    k := Far(dir, s).a;
    assert Height(Far(dir, s)) == 1;
    assert Height(Far(dir, s).l) == 0 && Height(Far(dir, s).r) == 0;
  }

  lemma {:induction false} RemovedPlace(b: seq<Addr>, x: Addr, a: seq<Addr>, i: int)
    requires var s := b + [x] + a; Distinct(s) && 0 <= i < |s| && s[i] == x
    ensures RemoveAt(b + [x] + a, i) == b + a && i == |b|
  {
    PlaceOf(b + [x] + a, b, x, a, i);
  }

  lemma {:induction false} LeafPlace(m: Mem, t: Tree, node: Addr, i: int) returns (c: Ctx)
    requires Focused(m, t, Top) && 0 <= i < |Order(t)| && Order(t)[i] == node && |Order(t)| > 1
    requires At(m, node).left == NULL && At(m, node).right == NULL
    ensures Focused(m, Bin(Leaf, node, Leaf), c) && CBalanced(m, c, 1) && c.In? && CHeight(c, 1) == Height(t)
    ensures Order(Plug(c, Leaf)) == RemoveAt(Order(t), i)
    ensures First(RemoveAt(Order(t), i)) == if c.side == LEFT && First(Order(t)) == node then c.a else First(Order(t))
    ensures Last(RemoveAt(Order(t), i)) == if c.side == RIGHT && Last(Order(t)) == node then c.a else Last(Order(t))
  {
    var s;
    c, s := AtPlace(m, t, node, i);
    FarLink(m, s, LEFT, c);
    FarLink(m, s, RIGHT, c);
    OrderPlug(c, Leaf);
    LeafOrder(c, node, i);
  }

  lemma {:induction false} LeafOrder(c: Ctx, node: Addr, i: int)
    requires c.In? ==> IsDir(c.side)
    requires var s := Before(c) + Order(Bin(Leaf, node, Leaf)) + After(c);
             Distinct(s) && 0 <= i < |s| && s[i] == node && |s| > 1
    ensures var s := Before(c) + Order(Bin(Leaf, node, Leaf)) + After(c);
            var s' := Before(c) + Order(Leaf) + After(c);
            && c.In? && RemoveAt(s, i) == s'
            && First(s') == (if c.side == LEFT && First(s) == node then c.a else First(s))
            && Last(s') == (if c.side == RIGHT && Last(s) == node then c.a else Last(s))
  {
    assert Order(Bin(Leaf, node, Leaf)) == [node];
    assert Before(c) + Order(Leaf) + After(c) == Before(c) + After(c);
    RemovedPlace(Before(c), node, After(c), i);
    LeafEnds(c, node);
  }

  lemma {:induction false} LeafEnds(c: Ctx, node: Addr)
    requires c.In? && IsDir(c.side) && Distinct(Before(c) + [node] + After(c))
    ensures var s, s' := Before(c) + [node] + After(c), Before(c) + After(c);
            && First(s') == (if c.side == LEFT && First(s) == node then c.a else First(s))
            && Last(s') == (if c.side == RIGHT && Last(s) == node then c.a else Last(s))
  {
    var s := Before(c) + [node] + After(c);
    assert s[|Before(c)|] == node;
    if c.side == RIGHT {
      assert Before(c)[|Before(c)| - 1] == c.a;
      assert s[0] == Before(c)[0];
    } else {
      assert After(c)[0] == c.a;
    }
  }

  lemma {:induction false} OneChildPlace(m: Mem, t: Tree, node: Addr, dir: int, i: int) returns (c: Ctx, k: Addr)
    requires Focused(m, t, Top) && IsDir(dir) && 0 <= i < |Order(t)| && Order(t)[i] == node
    requires At(m, node).Link(-dir) == NULL && At(m, node).Link(dir) != NULL
    ensures Focused(m, Join(dir, Leaf, node, Bin(Leaf, k, Leaf)), c) && CBalanced(m, c, 2) && CHeight(c, 2) == Height(t)
    ensures Order(Plug(c, Bin(Leaf, k, Leaf))) == RemoveAt(Order(t), i)
    ensures First(RemoveAt(Order(t), i)) == if dir == RIGHT && First(Order(t)) == node then k else First(Order(t))
    ensures Last(RemoveAt(Order(t), i)) == if dir == LEFT && Last(Order(t)) == node then k else Last(Order(t))
  {
    var s;
    c, s := AtPlace(m, t, node, i);
    FarLink(m, s, LEFT, c);
    FarLink(m, s, RIGHT, c);
    k := OneChildShape(m, s, dir);
    OrderPlug(c, Bin(Leaf, k, Leaf));
    OneChildEnds(Before(c), node, k, After(c), dir, i);
  }

  lemma {:induction false} OneChildEnds(b: seq<Addr>, node: Addr, k: Addr, a: seq<Addr>, dir: int, i: int)
    requires IsDir(dir)
    requires var s := b + Order(Join(dir, Leaf, node, Bin(Leaf, k, Leaf))) + a;
             Distinct(s) && 0 <= i < |s| && s[i] == node
    ensures var s := b + Order(Join(dir, Leaf, node, Bin(Leaf, k, Leaf))) + a;
            var s' := b + Order(Bin(Leaf, k, Leaf)) + a;
            && RemoveAt(s, i) == s'
            && First(s') == (if dir == RIGHT && First(s) == node then k else First(s))
            && Last(s') == (if dir == LEFT && Last(s) == node then k else Last(s))
  {
    assert Order(Bin(Leaf, k, Leaf)) == [k];
    if dir == RIGHT {
      assert b + Order(Join(dir, Leaf, node, Bin(Leaf, k, Leaf))) + a == b + [node] + ([k] + a);
      RemovedPlace(b, node, [k] + a, i);
      assert b + ([k] + a) == b + [k] + a;
    } else {
      assert b + Order(Join(dir, Leaf, node, Bin(Leaf, k, Leaf))) + a == (b + [k]) + [node] + a;
      RemovedPlace(b + [k], node, a, i);
    }
  }

  lemma {:induction false} AtPlace(m: Mem, t: Tree, a: Addr, i: int) returns (c: Ctx, s: Tree)
    requires Focused(m, t, Top) && 0 <= i < |Order(t)| && Order(t)[i] == a
    ensures s.Bin? && s.a == a && Focused(m, s, c) && CBalanced(m, c, Height(s)) && CHeight(c, Height(s)) == Height(t)
    ensures Order(t) == Before(c) + Order(s) + After(c) && Distinct(Order(t))
    ensures c.In? ==> IsDir(c.side)
  {
    HasOrder(t);
    ProperDistinct(t);
    c, s := LocateFocus(m, t, a);
  }

  lemma {:induction false} SingleFocused(m: Mem, node: Addr)
    requires node > 0 && At(m, node) == Holder(RIGHT, 0, NULL, ANCHOR, NULL) && At(m, ANCHOR).right == node
    ensures Focused(m, Bin(Leaf, node, Leaf), Top) && Height(Bin(Leaf, node, Leaf)) == 1
    ensures Order(Bin(Leaf, node, Leaf)) == [node]
  {
    assert Height(Bin(Leaf, node, Leaf)) == 1;
    LinksPlug(m, Top, Bin(Leaf, node, Leaf));
    ProperPlug(Top, Bin(Leaf, node, Leaf));
    assert Links(m, Leaf, node, LEFT) && Links(m, Leaf, node, RIGHT);
    assert Balanced(m, Leaf);
  }

  lemma {:induction false} SingleOrder(t: Tree)
    requires |Order(t)| == 1
    ensures Height(t) == 1
  {
    HasOrder(t.l);
    HasOrder(t.r);
  }

  lemma {:induction false} TwoChildren(m: Mem, t: Tree, node: Addr, i: int)
    requires Focused(m, t, Top) && 0 <= i < |Order(t)| && Order(t)[i] == node
    requires At(m, node).left != NULL && At(m, node).right != NULL
    ensures 0 < i < |Order(t)| - 1 && -1 <= At(m, node).balance <= 1
    ensures forall j :: 0 <= j < |Order(t)| ==> Order(t)[j] > 0
    ensures Distinct(Order(t))
  {
    var c, s := AtPlace(m, t, node, i);
    FarLink(m, s, LEFT, c);
    FarLink(m, s, RIGHT, c);
    NextBelow(t, c, s, LEFT, i);
    NextBelow(t, c, s, RIGHT, i);
    ProperDistinct(t);
    forall j | 0 <= j < |Order(t)| ensures Order(t)[j] > 0 {
      assert Order(t)[j] in Order(t);
    }
  }

  /** Once the neighbour of place `i` is gone, putting it back in that place is removing what was there. */
  lemma {:induction false} NeighbourGone(s: seq<Addr>, i: int, dir: int)
    requires IsDir(dir) && 0 < i < |s| - 1 && Distinct(s)
    ensures var s' := RemoveAt(s, i + dir);
            var j := if dir == RIGHT then i else i - 1;
            && 0 <= j < |s'| && s'[j] == s[i] && s[i + dir] !in s'
            && s'[j := s[i + dir]] == RemoveAt(s, i)
            && First(RemoveAt(s, i)) == (if dir == LEFT && First(s') == s[i] then s[i + dir] else First(s'))
            && Last(RemoveAt(s, i)) == (if dir == RIGHT && Last(s') == s[i] then s[i + dir] else Last(s'))
  {
  }

  // ---------- Searching ----------

  /** Moving the focus to the child on side `d`. */
  lemma {:induction false} StepDown(m: Mem, t: Tree, c: Ctx, d: int)
    requires Hung(m, t, c) && t.Bin? && IsDir(d)
    ensures Hung(m, Far(d, t), In(d, t.a, Near(d, t), c))
    ensures Height(Far(d, t)) < Height(t)
    ensures var c' := In(d, t.a, Near(d, t), c);
            && Before(c') + Order(Far(d, t)) + After(c') == Before(c) + Order(t) + After(c)
            && (d == RIGHT ==> Before(c') == Before(c) + Order(t.l) + [t.a] && After(c') == After(c))
            && (d == LEFT ==> Before(c') == Before(c) && After(c') == [t.a] + Order(t.r) + After(c))
  {
    hide Hung, Height;
    StepDownHung(m, t, c, d);
    Regroup4(Before(c), Order(t.l), t.a, Order(t.r), After(c));
  }

  lemma {:induction false} StepDownHung(m: Mem, t: Tree, c: Ctx, d: int)
    requires Hung(m, t, c) && t.Bin? && IsDir(d)
    ensures Hung(m, Far(d, t), In(d, t.a, Near(d, t), c))
    ensures Height(Far(d, t)) < Height(t)
  {
    var near, far := Near(d, t), Far(d, t);
    JoinSplit(d, t);
    JoinParts(d, near, t.a, far);
    JoinLinks(m, d, near, t.a, far, CAddr(c), CSide(c));
    JoinHeight(d, near, t.a, far);
    hide Join, Far, Near, Links, Proper, Height, Has;
    assert CProper(In(d, t.a, near, c)) by {
      assert !CHas(c, t.a) && Separate(near, c);
    }
    assert Separate(far, In(d, t.a, near, c));
  }

  lemma {:induction false} Regroup4(b: seq<Addr>, l: seq<Addr>, x: Addr, r: seq<Addr>, a: seq<Addr>)
    ensures b + (l + [x] + r) + a == (b + l + [x]) + r + a
    ensures b + (l + [x] + r) + a == b + l + ([x] + r + a)
  {
  }

  lemma {:induction false} AllPositive(t: Tree)
    requires Proper(t)
    ensures forall j :: 0 <= j < |Order(t)| ==> Order(t)[j] > 0
  {
    ProperDistinct(t);
    forall j | 0 <= j < |Order(t)| ensures Order(t)[j] > 0 {
      assert Order(t)[j] in Order(t);
    }
  }

  /** Writing a holder that is not in the tree. */
  lemma {:induction false} FocusedFrame(m: Mem, m': Mem, t: Tree, node: Addr)
    requires Focused(m, t, Top) && node > 0 && node !in Order(t)
    requires forall a :: a != node ==> At(m', a) == At(m, a)
    ensures Focused(m', t, Top)
  {
    HasOrder(t);
    LinksFrame(m, m', t, ANCHOR, RIGHT);
    BalancedFrame(m, m', t);
  }

  /** The first holder in order has no left child. */
  lemma {:induction false} HeadFree(m: Mem, t: Tree)
    requires Focused(m, t, Top)
    ensures t.Bin? ==> Order(t) != [] && First(Order(t)) > 0 && At(m, First(Order(t))).left == NULL
  {
    if t.Bin? {
      HasOrder(t);
      AllPositive(t);
      var c, s := Placed(m, t, Order(t)[0], LEFT, 0);
    }
  }

  lemma {:induction false} FocusedOrder(m: Mem, t: Tree)
    requires Focused(m, t, Top)
    ensures Distinct(Order(t)) && forall j :: 0 <= j < |Order(t)| ==> Order(t)[j] > 0
  {
    AllPositive(t);
    ProperDistinct(t);
  }
}
