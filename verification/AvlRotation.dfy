/** What the rotations of lib/heap.c do to the tree a memory represents. */
module AvlRotation {
  import opened AvlShape

  ghost predicate SameBalances(m: Mem, m': Mem) {
    forall a :: At(m', a).balance == At(m, a).balance
  }

  /** The subtree a rotation towards `dir` starts from, and the one it leaves. */
  ghost function Tilted(dir: int, x: Tree, n: Addr, y: Tree, h: Addr, z: Tree): Tree {
    Join(dir, Join(dir, x, n, y), h, z)
  }

  ghost function Rotated(dir: int, x: Tree, n: Addr, y: Tree, h: Addr, z: Tree): Tree {
    Join(dir, x, n, Join(dir, y, h, z))
  }

  lemma {:induction false} RotationKeepsOrder(dir: int, x: Tree, n: Addr, y: Tree, h: Addr, z: Tree)
    requires IsDir(dir)
    ensures Order(Rotated(dir, x, n, y, h, z)) == Order(Tilted(dir, x, n, y, h, z))
  {
    var p, q, r := Order(x), Order(y), Order(z);
    if dir == RIGHT {
      assert p + [n] + (q + [h] + r) == (p + [n] + q) + [h] + r;
    } else {
      assert r + [h] + (q + [n] + p) == (r + [h] + q) + [n] + p;
    }
  }

  lemma {:induction false} RotationKeepsHolders(dir: int, x: Tree, n: Addr, y: Tree, h: Addr, z: Tree)
    requires IsDir(dir)
    ensures forall a :: Has(Tilted(dir, x, n, y, h, z), a) <==> a == n || a == h || Has(x, a) || Has(y, a) || Has(z, a)
    ensures SameNodes(Tilted(dir, x, n, y, h, z), Rotated(dir, x, n, y, h, z))
  {
  }

  lemma {:induction false} RotationKeepsProper(dir: int, x: Tree, n: Addr, y: Tree, h: Addr, z: Tree)
    requires IsDir(dir)
    requires Proper(Tilted(dir, x, n, y, h, z))
    ensures Proper(Rotated(dir, x, n, y, h, z))
  {
    JoinParts(dir, x, n, y);
    JoinParts(dir, Join(dir, x, n, y), h, z);
    JoinParts(dir, y, h, z);
    JoinParts(dir, x, n, Join(dir, y, h, z));
    hide Join, Proper, Has;
    assert Has(Join(dir, x, n, y), n);
  }

  /** What a rotation writes. */
  ghost predicate RotationWrites(m: Mem, m': Mem, dir: int, n: Addr, y: Tree, h: Addr, c: Ctx) {
    && At(m', n) == At(m, n).SetLink(dir, h).(up := At(m, h).up, typ := At(m, h).typ)
    && At(m', h) == At(m, h).SetLink(-dir, Root(y)).(up := n, typ := dir)
    && (y.Bin? ==> At(m', y.a) == At(m, y.a).(up := h, typ := -dir))
    && At(m', CAddr(c)) == At(m, CAddr(c)).SetLink(CSide(c), n)
    && (forall a :: a != n && a != h && a != CAddr(c) && (y.Bin? ==> a != y.a) ==> At(m', a) == At(m, a))
  }

  /** The pieces of a rotation share no holder, with each other or with the context. */
  ghost predicate RotationApart(x: Tree, n: Addr, y: Tree, h: Addr, z: Tree, c: Ctx) {
    && n > 0 && h > 0 && n != h && CAddr(c) != n && CAddr(c) != h
    && Proper(x) && Proper(y) && Proper(z) && CProper(c)
    && (forall a :: Has(x, a) ==> a > 0 && a != n && a != h && a != CAddr(c) && !Has(y, a))
    && (forall a :: Has(y, a) ==> a > 0 && a != n && a != h && a != CAddr(c))
    && (forall a :: Has(z, a) ==> a > 0 && a != n && a != h && a != CAddr(c) && !Has(y, a))
    && (forall a :: CHas(c, a) ==> a > 0 && a != n && a != h && !Has(y, a))
  }

  lemma {:induction false} TiltedApart(dir: int, x: Tree, n: Addr, y: Tree, h: Addr, z: Tree, c: Ctx)
    requires IsDir(dir)
    requires var t := Tilted(dir, x, n, y, h, z); Proper(t) && CProper(c) && Separate(t, c)
    ensures RotationApart(x, n, y, h, z, c)
  {
    var t := Tilted(dir, x, n, y, h, z);
    HasPositive(t);
    CHasPositive(c);
    RotationKeepsHolders(dir, x, n, y, h, z);
    assert !Has(t, CAddr(c));
    assert Has(t, n) && Has(t, h);
    if dir == RIGHT {
    } else {
    }
  }

  lemma {:induction false} RotationLinks(m: Mem, m': Mem, dir: int, x: Tree, n: Addr, y: Tree, h: Addr, z: Tree, c: Ctx)
    requires IsDir(dir) && RotationApart(x, n, y, h, z, c)
    requires Links(m, x, n, -dir) && Links(m, y, n, dir) && Links(m, z, h, dir)
    requires RotationWrites(m, m', dir, n, y, h, c)
    ensures Links(m', x, n, -dir) && Links(m', y, h, -dir) && Links(m', z, h, dir)
  {
    assert y.Bin? ==> Has(y, y.a);
    Reparent(m, m', y, n, dir, h, -dir);
    LinksFrame(m, m', x, n, -dir);
    LinksFrame(m, m', z, h, dir);
  }

  lemma {:induction false} RotationCtx(m: Mem, m': Mem, dir: int, x: Tree, n: Addr, y: Tree, h: Addr, z: Tree, c: Ctx)
    requires IsDir(dir) && RotationApart(x, n, y, h, z, c)
    requires CLinks(m, c, h)
    requires RotationWrites(m, m', dir, n, y, h, c)
    ensures CLinks(m', c, n)
  {
    assert y.Bin? ==> Has(y, y.a);
    CLinksRefill(m, m', c, h, n);
  }

  /** The links of the two holders a rotation moves. */
  ghost predicate TiltedHolders(m: Mem, dir: int, x: Tree, n: Addr, y: Tree, h: Addr, z: Tree, c: Ctx) {
    && At(m, h).up == CAddr(c) && At(m, h).typ == CSide(c)
    && At(m, h).Link(-dir) == n && At(m, h).Link(dir) == Root(z)
    && At(m, n).up == h && At(m, n).typ == -dir
    && At(m, n).Link(-dir) == Root(x) && At(m, n).Link(dir) == Root(y)
  }

  lemma {:induction false} TiltedLinks(m: Mem, dir: int, x: Tree, n: Addr, y: Tree, h: Addr, z: Tree, c: Ctx)
    requires IsDir(dir)
    ensures Links(m, Tilted(dir, x, n, y, h, z), CAddr(c), CSide(c)) <==>
            && TiltedHolders(m, dir, x, n, y, h, z, c)
            && Links(m, x, n, -dir) && Links(m, y, n, dir) && Links(m, z, h, dir)
  {
    if dir == RIGHT {
    } else {
    }
  }

  lemma {:induction false} RotatedLinks(m: Mem, m': Mem, dir: int, x: Tree, n: Addr, y: Tree, h: Addr, z: Tree, c: Ctx)
    requires IsDir(dir) && RotationApart(x, n, y, h, z, c)
    requires TiltedHolders(m, dir, x, n, y, h, z, c)
    requires RotationWrites(m, m', dir, n, y, h, c)
    requires Links(m', x, n, -dir) && Links(m', y, h, -dir) && Links(m', z, h, dir)
    ensures Links(m', Rotated(dir, x, n, y, h, z), CAddr(c), CSide(c))
  {
    if dir == RIGHT {
    } else {
    }
  }

  lemma {:induction false} RotationStart(m: Mem, dir: int, x: Tree, n: Addr, y: Tree, h: Addr, z: Tree, c: Ctx)
    requires IsDir(dir)
    requires var t := Tilted(dir, x, n, y, h, z);
             && Proper(t) && CProper(c) && Separate(t, c)
             && Links(m, t, CAddr(c), CSide(c))
    ensures RotationApart(x, n, y, h, z, c) && IsDir(CSide(c))
    ensures At(m, h).Link(-dir) == n && At(m, n).Link(dir) == Root(y)
    ensures At(m, h).up == CAddr(c) && At(m, h).typ == CSide(c)
    ensures y.Bin? ==> y.a > 0 && y.a != n && y.a != h && y.a != CAddr(c)
  {
    TiltedApart(dir, x, n, y, h, z, c);
    TiltedLinks(m, dir, x, n, y, h, z, c);
    assert y.Bin? ==> Has(y, y.a);
  }

  lemma {:induction false} RotationBalances(m: Mem, m': Mem, dir: int, n: Addr, y: Tree, h: Addr, c: Ctx)
    requires IsDir(dir) && IsDir(CSide(c))
    requires RotationWrites(m, m', dir, n, y, h, c)
    ensures SameBalances(m, m')
  {
  }

  lemma {:induction false} RotationDone(m: Mem, m': Mem, dir: int, x: Tree, n: Addr, y: Tree, h: Addr, z: Tree, c: Ctx)
    requires IsDir(dir) && RotationApart(x, n, y, h, z, c)
    requires Links(m, Tilted(dir, x, n, y, h, z), CAddr(c), CSide(c)) && CLinks(m, c, h)
    requires RotationWrites(m, m', dir, n, y, h, c)
    ensures Links(m', Rotated(dir, x, n, y, h, z), CAddr(c), CSide(c)) && CLinks(m', c, n)
  {
    TiltedLinks(m, dir, x, n, y, h, z, c);
    RotationLinks(m, m', dir, x, n, y, h, z, c);
    RotationCtx(m, m', dir, x, n, y, h, z, c);
    RotatedLinks(m, m', dir, x, n, y, h, z, c);
  }

  // The three stages of a double rotation; `opp` is the heavy side.

  lemma {:induction false} DblStart(m: Mem, opp: int, light: Tree, h: Addr, p: Tree, k: Addr, q: Tree, hv: Addr,
                                    outer: Tree, c: Ctx)
    requires IsDir(opp)
    requires var t := Join(opp, light, h, Tilted(opp, p, k, q, hv, outer));
             && Proper(t) && CProper(c) && Separate(t, c)
             && Links(m, t, CAddr(c), CSide(c))
    requires CLinks(m, c, h)
    ensures At(m, h).Link(opp) == hv
    ensures var t := Tilted(opp, p, k, q, hv, outer);
            var inner := In(opp, h, light, c);
            && Proper(t) && CProper(inner) && Separate(t, inner)
            && Links(m, t, h, opp) && CLinks(m, inner, hv)
  {
    JoinParts(opp, light, h, Tilted(opp, p, k, q, hv, outer));
    JoinLinks(m, opp, light, h, Tilted(opp, p, k, q, hv, outer), CAddr(c), CSide(c));
  }

  lemma {:induction false} DblMiddle(m: Mem, opp: int, light: Tree, h: Addr, p: Tree, k: Addr, q: Tree, hv: Addr,
                                     outer: Tree, c: Ctx)
    requires IsDir(opp)
    requires var t := Join(opp, light, h, Tilted(opp, p, k, q, hv, outer));
             Proper(t) && CProper(c) && Separate(t, c)
    requires Links(m, Rotated(opp, p, k, q, hv, outer), h, opp) && CLinks(m, In(opp, h, light, c), k)
    ensures var t := Tilted(-opp, Join(opp, q, hv, outer), k, p, h, light);
            && Proper(t) && Separate(t, c) && Links(m, t, CAddr(c), CSide(c))
    ensures CLinks(m, c, h)
  {
    var heavy, lifted := Tilted(opp, p, k, q, hv, outer), Rotated(opp, p, k, q, hv, outer);
    RotationKeepsHolders(opp, p, k, q, hv, outer);
    JoinParts(opp, light, h, heavy);
    JoinParts(opp, light, h, lifted);
    RotationKeepsProper(opp, p, k, q, hv, outer);
    JoinLinks(m, opp, light, h, lifted, CAddr(c), CSide(c));
    JoinFlip(opp, Join(opp, q, hv, outer), k, p);
    JoinFlip(opp, lifted, h, light);
  }

  lemma {:induction false} DblEnd(opp: int, light: Tree, h: Addr, p: Tree, k: Addr, q: Tree, hv: Addr, outer: Tree)
    requires IsDir(opp)
    ensures Rotated(-opp, Join(opp, q, hv, outer), k, p, h, light)
            == Join(opp, Join(opp, light, h, p), k, Join(opp, q, hv, outer))
  {
    JoinFlip(opp, p, h, light);
    JoinFlip(opp, Join(opp, q, hv, outer), k, Join(opp, light, h, p));
  }

  /** `t'` holds what `t` held, in the same order, is balanced, and took its place in context `c`. */
  ghost predicate Rebuilt(m: Mem, m': Mem, t: Tree, t': Tree, c: Ctx, top: Addr) {
    && t'.Bin? && t'.a == top && Proper(t') && SameNodes(t, t') && Order(t') == Order(t)
    && Links(m', t', CAddr(c), CSide(c)) && CLinks(m', c, top) && Balanced(m', t')
    && (forall a :: CHas(c, a) ==> At(m', a).balance == At(m, a).balance)
  }

  ghost predicate SameLinks(m: Mem, m': Mem) {
    forall a :: At(m', a) == At(m, a).(balance := At(m', a).balance)
  }

  lemma {:induction false} SingleHeights(m: Mem, m': Mem, delta: int, light: Tree, h: Addr, inner: Tree, hv: Addr,
                                         outer: Tree)
    requires IsDir(delta) && h != hv
    requires Height(Join(delta, inner, hv, outer)) == Height(light) + 2
    requires Balanced(m, Join(delta, inner, hv, outer)) && Balanced(m, light)
    requires At(m, hv).balance != -delta
    requires At(m', h).balance == delta - At(m, hv).balance
    requires At(m', hv).balance == At(m, hv).balance - delta
    requires Balanced(m', inner) && Balanced(m', outer) && Balanced(m', light)
    ensures var t := Join(delta, light, h, Join(delta, inner, hv, outer));
            var t' := Join(delta, Join(delta, light, h, inner), hv, outer);
            && Balanced(m', t')
            && Height(t') == Height(t) - (if At(m', hv).balance == 0 then 1 else 0)
  {
    hide Height, Join, Balanced, At;
    JoinHeight(delta, light, h, Join(delta, inner, hv, outer));
    JoinHeight(delta, inner, hv, outer);
    JoinBalanced(m, delta, inner, hv, outer);
    JoinHeight(delta, light, h, inner);
    JoinHeight(delta, Join(delta, light, h, inner), hv, outer);
    JoinBalanced(m', delta, light, h, inner);
    JoinBalanced(m', delta, Join(delta, light, h, inner), hv, outer);
  }

  lemma {:induction false} SingleFrames(m: Mem, m': Mem, delta: int, light: Tree, h: Addr, inner: Tree, hv: Addr,
                                        outer: Tree, c: Ctx)
    requires IsDir(delta)
    requires var t := Join(delta, light, h, Join(delta, inner, hv, outer));
             Proper(t) && CProper(c) && Separate(t, c)
    requires Balanced(m, Join(delta, inner, hv, outer)) && Balanced(m, light)
    requires forall a :: a != h && a != hv ==> At(m', a).balance == At(m, a).balance
    ensures h != hv && Balanced(m', inner) && Balanced(m', outer) && Balanced(m', light)
    ensures forall a :: CHas(c, a) ==> At(m', a).balance == At(m, a).balance
  {
    SingleShape(delta, light, h, inner, hv, outer);
    TiltedApart(-delta, outer, hv, inner, h, light, c);
    JoinBalanced(m, delta, inner, hv, outer);
    BalancedFrame(m, m', light);
    BalancedFrame(m, m', inner);
    BalancedFrame(m, m', outer);
  }

  /** The balances a single rotation leaves, the heavy side not leaning the other way. */
  lemma {:induction false} SingleDone(m: Mem, m1: Mem, m': Mem, delta: int, light: Tree, h: Addr, inner: Tree,
                                      hv: Addr, outer: Tree, c: Ctx)
    requires IsDir(delta)
    requires var t := Join(delta, light, h, Join(delta, inner, hv, outer));
             Proper(t) && CProper(c) && Separate(t, c)
    requires Height(Join(delta, inner, hv, outer)) == Height(light) + 2
    requires Balanced(m, Join(delta, inner, hv, outer)) && Balanced(m, light)
    requires At(m, hv).balance != -delta
    requires SameLinks(m1, m')
    requires Links(m1, Rotated(-delta, outer, hv, inner, h, light), CAddr(c), CSide(c)) && CLinks(m1, c, hv)
    requires At(m', h).balance == delta - At(m, hv).balance
    requires At(m', hv).balance == At(m, hv).balance - delta
    requires forall a :: a != h && a != hv ==> At(m', a).balance == At(m, a).balance
    ensures var t := Join(delta, light, h, Join(delta, inner, hv, outer));
            var t' := Join(delta, Join(delta, light, h, inner), hv, outer);
            && Rebuilt(m, m', t, t', c, hv)
            && Height(t') == Height(t) - (if At(m', hv).balance == 0 then 1 else 0)
  {
    SingleFrames(m, m', delta, light, h, inner, hv, outer, c);
    SingleHeights(m, m', delta, light, h, inner, hv, outer);
    SingleLinks(m1, m', delta, light, h, inner, hv, outer, c);
  }

  lemma {:induction false} SingleLinks(m1: Mem, m': Mem, delta: int, light: Tree, h: Addr, inner: Tree, hv: Addr,
                                       outer: Tree, c: Ctx)
    requires IsDir(delta) && SameLinks(m1, m')
    requires Links(m1, Rotated(-delta, outer, hv, inner, h, light), CAddr(c), CSide(c)) && CLinks(m1, c, hv)
    ensures var t := Join(delta, light, h, Join(delta, inner, hv, outer));
            var t' := Join(delta, Join(delta, light, h, inner), hv, outer);
            && t'.Bin? && t'.a == hv && (Proper(t) ==> Proper(t')) && SameNodes(t, t') && Order(t') == Order(t)
            && Links(m', t', CAddr(c), CSide(c)) && CLinks(m', c, hv)
  {
    SingleShape(delta, light, h, inner, hv, outer);
    LinksFrame(m1, m', Rotated(-delta, outer, hv, inner, h, light), CAddr(c), CSide(c));
    CLinksFrame(m1, m', c, hv);
  }

  lemma {:induction false} SingleStart(m: Mem, delta: int, light: Tree, h: Addr, inner: Tree, hv: Addr, outer: Tree,
                                       c: Ctx)
    requires IsDir(delta)
    requires var t := Join(delta, light, h, Join(delta, inner, hv, outer));
             && Proper(t) && CProper(c) && Separate(t, c)
             && Links(m, t, CAddr(c), CSide(c))
    ensures h != hv
    ensures var t := Tilted(-delta, outer, hv, inner, h, light);
            && Proper(t) && CProper(c) && Separate(t, c)
            && Links(m, t, CAddr(c), CSide(c))
  {
    SingleShape(delta, light, h, inner, hv, outer);
    TiltedApart(-delta, outer, hv, inner, h, light, c);
  }

  lemma {:induction false} SingleShape(delta: int, light: Tree, h: Addr, inner: Tree, hv: Addr, outer: Tree)
    requires IsDir(delta)
    ensures var t := Join(delta, light, h, Join(delta, inner, hv, outer));
            var t' := Join(delta, Join(delta, light, h, inner), hv, outer);
            && t == Tilted(-delta, outer, hv, inner, h, light)
            && t' == Rotated(-delta, outer, hv, inner, h, light)
            && Order(t') == Order(t) && SameNodes(t, t') && (Proper(t) ==> Proper(t'))
  {
    JoinFlip(delta, outer, hv, inner);
    JoinFlip(delta, Join(delta, inner, hv, outer), h, light);
    JoinFlip(delta, inner, h, light);
    JoinFlip(delta, outer, hv, Join(delta, light, h, inner));
    RotationKeepsOrder(-delta, outer, hv, inner, h, light);
    RotationKeepsHolders(-delta, outer, hv, inner, h, light);
    if Proper(Tilted(-delta, outer, hv, inner, h, light)) {
      RotationKeepsProper(-delta, outer, hv, inner, h, light);
    }
  }

  ghost predicate Avoids(t: Tree, h: Addr, hv: Addr, k: Addr) {
    !Has(t, h) && !Has(t, hv) && !Has(t, k)
  }

  lemma {:induction false} DoubleApart(delta: int, light: Tree, h: Addr, p: Tree, k: Addr, q: Tree, hv: Addr,
                                       outer: Tree, c: Ctx)
    requires IsDir(delta)
    requires var t := Join(delta, light, h, Tilted(delta, p, k, q, hv, outer));
             Proper(t) && CProper(c) && Separate(t, c)
    ensures h != hv && h != k && hv != k
    ensures Avoids(p, h, hv, k) && Avoids(q, h, hv, k) && Avoids(outer, h, hv, k) && Avoids(light, h, hv, k)
    ensures !CHas(c, h) && !CHas(c, hv) && !CHas(c, k)
  {
    var inner := In(delta, h, light, c);
    var heavy := Tilted(delta, p, k, q, hv, outer);
    JoinParts(delta, light, h, heavy);
    RotationKeepsHolders(delta, p, k, q, hv, outer);
    TiltedApart(delta, p, k, q, hv, outer, inner);
  }

  lemma {:induction false} DoubleFrames(m: Mem, m': Mem, light: Tree, h: Addr, p: Tree, k: Addr, q: Tree, hv: Addr,
                                        outer: Tree, c: Ctx)
    requires Avoids(p, h, hv, k) && Avoids(q, h, hv, k) && Avoids(outer, h, hv, k) && Avoids(light, h, hv, k)
    requires !CHas(c, h) && !CHas(c, hv) && !CHas(c, k)
    requires Balanced(m, p) && Balanced(m, q) && Balanced(m, outer) && Balanced(m, light)
    requires forall a :: a != h && a != hv && a != k ==> At(m', a).balance == At(m, a).balance
    ensures Balanced(m', p) && Balanced(m', q) && Balanced(m', outer) && Balanced(m', light)
    ensures forall a :: CHas(c, a) ==> At(m', a).balance == At(m, a).balance
  {
    BalancedFrame(m, m', light);
    BalancedFrame(m, m', p);
    BalancedFrame(m, m', q);
    BalancedFrame(m, m', outer);
  }

  lemma {:induction false} DoubleHeights(m: Mem, m': Mem, delta: int, light: Tree, h: Addr, p: Tree, k: Addr, q: Tree,
                                         hv: Addr, outer: Tree)
    requires IsDir(delta)
    requires At(m, k).balance == Lean(delta, Height(p), Height(q)) && -1 <= At(m, k).balance <= 1
    requires 1 + Max(Height(p), Height(q)) == Height(outer) + 1 == Height(light) + 1
    requires At(m', k).balance == 0
    requires At(m', h).balance == if At(m, k).balance == delta then -delta else 0
    requires At(m', hv).balance == if At(m, k).balance == -delta then delta else 0
    requires Balanced(m', p) && Balanced(m', q) && Balanced(m', outer) && Balanced(m', light)
    ensures var t' := Join(delta, Join(delta, light, h, p), k, Join(delta, q, hv, outer));
            Balanced(m', t') && Height(t') == Height(light) + 2
  {
    hide Height, Join, Balanced, At;
    JoinHeight(delta, light, h, p);
    JoinHeight(delta, q, hv, outer);
    JoinHeight(delta, Join(delta, light, h, p), k, Join(delta, q, hv, outer));
    JoinBalanced(m', delta, light, h, p);
    JoinBalanced(m', delta, q, hv, outer);
    JoinBalanced(m', delta, Join(delta, light, h, p), k, Join(delta, q, hv, outer));
  }

  /** Heights of the pieces when the heavy side leans the other way. */
  lemma {:induction false} DoublePieces(m: Mem, delta: int, light: Tree, p: Tree, k: Addr, q: Tree, hv: Addr,
                                        outer: Tree)
    requires IsDir(delta)
    requires Height(Tilted(delta, p, k, q, hv, outer)) == Height(light) + 2
    requires Balanced(m, Tilted(delta, p, k, q, hv, outer))
    requires At(m, hv).balance == -delta
    ensures At(m, k).balance == Lean(delta, Height(p), Height(q)) && -1 <= At(m, k).balance <= 1
    ensures 1 + Max(Height(p), Height(q)) == Height(outer) + 1 == Height(light) + 1
    ensures Balanced(m, p) && Balanced(m, q) && Balanced(m, outer)
  {
    hide Height, Join, Balanced, At;
    JoinBalanced(m, delta, p, k, q);
    JoinBalanced(m, delta, Join(delta, p, k, q), hv, outer);
    JoinHeight(delta, p, k, q);
    JoinHeight(delta, Join(delta, p, k, q), hv, outer);
  }

  lemma {:induction false} DoubleShape(delta: int, light: Tree, h: Addr, p: Tree, k: Addr, q: Tree, hv: Addr,
                                       outer: Tree)
    requires IsDir(delta)
    ensures var t := Join(delta, light, h, Tilted(delta, p, k, q, hv, outer));
            var t' := Join(delta, Join(delta, light, h, p), k, Join(delta, q, hv, outer));
            && t'.Bin? && t'.a == k
            && Order(t') == Order(t) && SameNodes(t, t') && (Proper(t) ==> Proper(t'))
  {
    var t := Join(delta, light, h, Tilted(delta, p, k, q, hv, outer));
    var mid := Join(delta, light, h, Rotated(delta, p, k, q, hv, outer));
    RotationKeepsOrder(delta, p, k, q, hv, outer);
    RotationKeepsHolders(delta, p, k, q, hv, outer);
    JoinParts(delta, light, h, Tilted(delta, p, k, q, hv, outer));
    JoinParts(delta, light, h, Rotated(delta, p, k, q, hv, outer));
    if Proper(t) {
      RotationKeepsProper(delta, p, k, q, hv, outer);
    }
    assert Order(mid) == Order(t);
    SingleShape(delta, light, h, p, k, Join(delta, q, hv, outer));
  }

  lemma {:induction false} DoubleTopLinks(m: Mem, delta: int, light: Tree, h: Addr, p: Tree, k: Addr, q: Tree,
                                          hv: Addr, outer: Tree, c: Ctx)
    requires IsDir(delta)
    requires Links(m, Join(delta, Join(delta, light, h, p), k, Join(delta, q, hv, outer)), CAddr(c), CSide(c))
    ensures At(m, k).Link(delta) == hv && At(m, k).Link(-delta) == h
  {
    JoinLinks(m, delta, Join(delta, light, h, p), k, Join(delta, q, hv, outer), CAddr(c), CSide(c));
  }

  lemma {:induction false} DoubleDone(m: Mem, m1: Mem, m': Mem, delta: int, light: Tree, h: Addr, p: Tree, k: Addr,
                                      q: Tree, hv: Addr, outer: Tree, c: Ctx)
    requires IsDir(delta)
    requires var t := Join(delta, light, h, Tilted(delta, p, k, q, hv, outer));
             Proper(t) && CProper(c) && Separate(t, c)
    requires Height(Tilted(delta, p, k, q, hv, outer)) == Height(light) + 2
    requires Balanced(m, Tilted(delta, p, k, q, hv, outer)) && Balanced(m, light)
    requires At(m, hv).balance == -delta
    requires SameLinks(m1, m')
    requires Links(m1, Join(delta, Join(delta, light, h, p), k, Join(delta, q, hv, outer)), CAddr(c), CSide(c))
    requires CLinks(m1, c, k)
    requires At(m', k).balance == 0
    requires At(m', h).balance == if At(m, k).balance == delta then -delta else 0
    requires At(m', hv).balance == if At(m, k).balance == -delta then delta else 0
    requires forall a :: a != h && a != hv && a != k ==> At(m', a).balance == At(m, a).balance
    ensures var t := Join(delta, light, h, Tilted(delta, p, k, q, hv, outer));
            var t' := Join(delta, Join(delta, light, h, p), k, Join(delta, q, hv, outer));
            Rebuilt(m, m', t, t', c, k) && Height(t') == Height(t) - 1
  {
    DoublePieces(m, delta, light, p, k, q, hv, outer);
    JoinHeight(delta, light, h, Tilted(delta, p, k, q, hv, outer));
    DoubleApart(delta, light, h, p, k, q, hv, outer, c);
    DoubleFrames(m, m', light, h, p, k, q, hv, outer, c);
    DoubleHeights(m, m', delta, light, h, p, k, q, hv, outer);
    DoubleShape(delta, light, h, p, k, q, hv, outer);
    LinksFrame(m1, m', Join(delta, Join(delta, light, h, p), k, Join(delta, q, hv, outer)), CAddr(c), CSide(c));
    CLinksFrame(m1, m', c, k);
  }
}
