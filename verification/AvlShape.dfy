/** The memory of an AVL tree of lib/heap.c and the ghost trees it represents.

    Holders are named by their address, as in C.  A memory maps addresses to the fields of
    `struct avlh`; memory that was never written reads as zero.  The anchor embedded in
    `struct avl` has an address of its own, and its right link is the top of the tree. */
module AvlShape {
  import opened Sequences


  type Addr = int

  const NULL: Addr := 0
  const ANCHOR: Addr := -1

  const LEFT: int := -1
  const UP: int := 0
  const RIGHT: int := 1

  ghost predicate IsDir(dir: int) {
    dir == LEFT || dir == RIGHT
  }

  datatype Holder = Holder(typ: int, balance: int, left: Addr, up: Addr, right: Addr) {

    function Link(dir: int): Addr {
      if dir < 0 then left else if dir == 0 then up else right
    }

    function SetLink(dir: int, a: Addr): Holder {
      if dir < 0 then this.(left := a) else if dir == 0 then this.(up := a) else this.(right := a)
    }
  }

  type Mem = map<Addr, Holder>

  function At(m: Mem, a: Addr): Holder {
    if a in m then m[a] else Holder(0, 0, NULL, NULL, NULL)
  }

  // ---------- Ghost trees ----------

  datatype Tree = Leaf | Bin(l: Tree, a: Addr, r: Tree)

  function Root(t: Tree): Addr {
    if t.Leaf? then NULL else t.a
  }

  function Max(x: int, y: int): int {
    if x < y then y else x
  }

  function Height(t: Tree): nat {
    if t.Leaf? then 0 else 1 + Max(Height(t.l), Height(t.r))
  }

  function Order(t: Tree): seq<Addr> {
    if t.Leaf? then [] else Order(t.l) + [t.a] + Order(t.r)
  }

  ghost predicate Has(t: Tree, a: Addr) {
    t.Bin? && (a == t.a || Has(t.l, a) || Has(t.r, a))
  }

  lemma {:induction false} HasRoot(t: Tree)
    ensures t.Bin? ==> Has(t, t.a)
  {
  }

  ghost predicate SameNodes(t: Tree, t': Tree) {
    forall a :: Has(t', a) <==> Has(t, a)
  }

  ghost predicate Apart(t: Tree, t': Tree) {
    forall a :: Has(t, a) ==> !Has(t', a)
  }

  /** Distinct addresses, none of them NULL or the anchor. */
  ghost predicate Proper(t: Tree) {
    t.Bin? ==>
      && t.a > 0 && !Has(t.l, t.a) && !Has(t.r, t.a) && Apart(t.l, t.r)
      && Proper(t.l) && Proper(t.r)
  }

  /** The tree whose root `a` has `p` on the side opposite to `dir` and `q` on side `dir`. */
  function Join(dir: int, p: Tree, a: Addr, q: Tree): Tree {
    if dir == RIGHT then Bin(p, a, q) else Bin(q, a, p)
  }

  /** A tree with a hole on side `side` of `a`; `sib` is the other child of `a`. */
  datatype Ctx = Top | In(side: int, a: Addr, sib: Tree, up: Ctx)

  function Plug(c: Ctx, t: Tree): Tree {
    if c.Top? then t else Plug(c.up, Join(c.side, c.sib, c.a, t))
  }

  function CAddr(c: Ctx): Addr {
    if c.Top? then ANCHOR else c.a
  }

  function CSide(c: Ctx): int {
    if c.Top? then RIGHT else c.side
  }

  ghost predicate CHas(c: Ctx, a: Addr) {
    c.In? && (a == c.a || Has(c.sib, a) || CHas(c.up, a))
  }

  lemma {:induction false} CHasTop(c: Ctx)
    ensures c.In? ==> CHas(c, c.a)
  {
  }

  ghost predicate Separate(t: Tree, c: Ctx) {
    forall a :: Has(t, a) ==> !CHas(c, a)
  }

  /** Sides are LEFT or RIGHT, addresses are distinct holders. */
  ghost predicate CProper(c: Ctx) {
    c.In? ==>
      && (c.side == LEFT || c.side == RIGHT)
      && c.a > 0 && !Has(c.sib, c.a) && !CHas(c.up, c.a) && Separate(c.sib, c.up)
      && Proper(c.sib) && CProper(c.up)
  }

  /** What precedes and what follows the hole, in order. */
  function Before(c: Ctx): seq<Addr> {
    if c.Top? then []
    else if c.side == RIGHT then Before(c.up) + Order(c.sib) + [c.a]
    else Before(c.up)
  }

  function After(c: Ctx): seq<Addr> {
    if c.Top? then []
    else if c.side == RIGHT then After(c.up)
    else [c.a] + Order(c.sib) + After(c.up)
  }

  lemma {:induction false} OrderPlug(c: Ctx, t: Tree)
    ensures Order(Plug(c, t)) == Before(c) + Order(t) + After(c)
  {
    if c.In? {
      OrderPlug(c.up, Join(c.side, c.sib, c.a, t));
    }
  }

  lemma {:induction false} HasPlug(c: Ctx, t: Tree)
    ensures forall a :: Has(Plug(c, t), a) <==> CHas(c, a) || Has(t, a)
  {
    if c.In? {
      HasPlug(c.up, Join(c.side, c.sib, c.a, t));
    }
  }

  lemma {:induction false} ProperPlug(c: Ctx, t: Tree)
    requires CProper(c)
    ensures Proper(Plug(c, t)) <==> Proper(t) && Separate(t, c)
  {
    if c.In? {
      ProperPlug(c.up, Join(c.side, c.sib, c.a, t));
      JoinParts(c.side, c.sib, c.a, t);
      assert CHas(c, c.a);
    }
  }

  /** The height of the whole when the hole is taken to have height `h`. */
  ghost function CHeight(c: Ctx, h: int): int {
    if c.Top? then h else CHeight(c.up, 1 + Max(Height(c.sib), h))
  }

  lemma {:induction false} HeightPlug(c: Ctx, t: Tree)
    ensures Height(Plug(c, t)) == CHeight(c, Height(t))
  {
    if c.In? {
      HeightPlug(c.up, Join(c.side, c.sib, c.a, t));
    }
  }

  lemma {:induction false} HasOrder(t: Tree)
    ensures forall a :: Has(t, a) <==> a in Order(t)
    ensures t.Bin? ==> Order(t) != []
  {
    if t.Bin? {
      HasOrder(t.l);
      HasOrder(t.r);
    }
  }

  lemma {:induction false} ProperDistinct(t: Tree)
    requires Proper(t)
    ensures Distinct(Order(t))
    ensures forall a :: a in Order(t) ==> a > 0
  {
    if t.Bin? {
      ProperDistinct(t.l);
      ProperDistinct(t.r);
      HasOrder(t.l);
      HasOrder(t.r);
      var p, q := Order(t.l), Order(t.r);
      forall i, j | 0 <= i < j < |Order(t)| ensures Order(t)[i] != Order(t)[j] {
        if i < |p| {
          assert Order(t)[i] == p[i] && p[i] in p;
        }
        if j > |p| {
          assert Order(t)[j] == q[j - |p| - 1] && q[j - |p| - 1] in q;
        }
      }
    }
  }

  // ---------- What a memory represents ----------

  /** The links of `t` are in memory, its root hanging below `up` on side `typ`. */
  ghost predicate Links(m: Mem, t: Tree, up: Addr, typ: int) {
    t.Bin? ==>
      var n := At(m, t.a);
      && n.up == up && n.typ == typ && n.left == Root(t.l) && n.right == Root(t.r)
      && Links(m, t.l, t.a, LEFT) && Links(m, t.r, t.a, RIGHT)
  }

  /** The balance of a holder whose subtrees, read towards `dir`, have heights `near` and `far`. */
  function Lean(dir: int, near: int, far: int): int {
    if dir == RIGHT then far - near else near - far
  }

  /** Every balance is the height difference of the two subtrees, in {-1, 0, 1}. */
  ghost predicate Balanced(m: Mem, t: Tree) {
    t.Bin? ==>
      && At(m, t.a).balance == Height(t.r) - Height(t.l)
      && -1 <= At(m, t.a).balance <= 1
      && Balanced(m, t.l) && Balanced(m, t.r)
  }

  /** The links of a context whose hole is filled by a tree with root `focus`. */
  ghost predicate CLinks(m: Mem, c: Ctx, focus: Addr) {
    if c.Top? then At(m, ANCHOR).right == focus
    else
      var n := At(m, c.a);
      && n.up == CAddr(c.up) && n.typ == CSide(c.up)
      && n.Link(c.side) == focus && n.Link(-c.side) == Root(c.sib)
      && Links(m, c.sib, c.a, -c.side)
      && CLinks(m, c.up, c.a)
  }

  /** The balances of a context whose hole is taken to have height `h`. */
  ghost predicate CBalanced(m: Mem, c: Ctx, h: int) {
    c.In? ==>
      && At(m, c.a).balance == Lean(c.side, Height(c.sib), h)
      && -1 <= At(m, c.a).balance <= 1
      && Balanced(m, c.sib)
      && CBalanced(m, c.up, 1 + Max(Height(c.sib), h))
  }

  // ---------- Joined trees, read towards a side ----------

  lemma {:induction false} JoinFlip(dir: int, p: Tree, a: Addr, q: Tree)
    requires IsDir(dir)
    ensures Join(-dir, p, a, q) == Join(dir, q, a, p)
  {
  }

  lemma {:induction false} JoinRoot(dir: int, p: Tree, a: Addr, q: Tree)
    requires IsDir(dir)
    ensures Join(dir, p, a, q).Bin? && Join(dir, p, a, q).a == a
  {
  }

  lemma {:induction false} JoinHeight(dir: int, p: Tree, a: Addr, q: Tree)
    requires IsDir(dir)
    ensures Height(Join(dir, p, a, q)) == 1 + Max(Height(p), Height(q))
  {
  }

  lemma {:induction false} JoinParts(dir: int, p: Tree, a: Addr, q: Tree)
    requires IsDir(dir)
    ensures forall b :: Has(Join(dir, p, a, q), b) <==> b == a || Has(p, b) || Has(q, b)
    ensures Proper(Join(dir, p, a, q)) <==>
            && a > 0 && !Has(p, a) && !Has(q, a) && Apart(p, q) && Proper(p) && Proper(q)
  {
  }

  lemma {:induction false} JoinLinks(m: Mem, dir: int, p: Tree, a: Addr, q: Tree, up: Addr, typ: int)
    requires IsDir(dir)
    ensures Links(m, Join(dir, p, a, q), up, typ) <==>
            && At(m, a).up == up && At(m, a).typ == typ
            && At(m, a).Link(-dir) == Root(p) && At(m, a).Link(dir) == Root(q)
            && Links(m, p, a, -dir) && Links(m, q, a, dir)
  {
  }

  lemma {:induction false} JoinBalanced(m: Mem, dir: int, p: Tree, a: Addr, q: Tree)
    requires IsDir(dir)
    ensures Balanced(m, Join(dir, p, a, q)) <==>
            && At(m, a).balance == Lean(dir, Height(p), Height(q)) && -1 <= At(m, a).balance <= 1
            && Balanced(m, p) && Balanced(m, q)
  {
  }

  /** Read towards `dir`, a non-empty tree has a near child, a root and a far child. */
  ghost function Near(dir: int, t: Tree): Tree
    requires t.Bin?
  {
    if dir == RIGHT then t.l else t.r
  }

  ghost function Far(dir: int, t: Tree): Tree
    requires t.Bin?
  {
    if dir == RIGHT then t.r else t.l
  }

  lemma {:induction false} JoinSplit(dir: int, t: Tree)
    requires IsDir(dir) && t.Bin?
    ensures t == Join(dir, Near(dir, t), t.a, Far(dir, t))
  {
  }

  // ---------- A tree and its context ----------

  lemma {:induction false} LinksPlug(m: Mem, c: Ctx, t: Tree)
    requires CProper(c)
    ensures Links(m, Plug(c, t), ANCHOR, RIGHT) && At(m, ANCHOR).right == Root(Plug(c, t))
            <==> CLinks(m, c, Root(t)) && Links(m, t, CAddr(c), CSide(c))
  {
    if c.In? {
      LinksPlug(m, c.up, Join(c.side, c.sib, c.a, t));
    }
  }

  lemma {:induction false} BalancedStep(m: Mem, c: Ctx, t: Tree)
    requires c.In? && IsDir(c.side)
    ensures var j := Join(c.side, c.sib, c.a, t);
            && (CBalanced(m, c.up, Height(j)) && Balanced(m, j) <==> CBalanced(m, c, Height(t)) && Balanced(m, t))
  {
    JoinHeight(c.side, c.sib, c.a, t);
    JoinBalanced(m, c.side, c.sib, c.a, t);
  }

  lemma {:induction false} BalancedPlug(m: Mem, c: Ctx, t: Tree)
    requires CProper(c)
    ensures Balanced(m, Plug(c, t)) <==> CBalanced(m, c, Height(t)) && Balanced(m, t)
  {
    if c.In? {
      BalancedPlug(m, c.up, Join(c.side, c.sib, c.a, t));
      BalancedStep(m, c, t);
    }
  }

  // ---------- Frames ----------

  lemma {:induction false} LinksFrame(m: Mem, m': Mem, t: Tree, up: Addr, typ: int)
    requires Links(m, t, up, typ)
    requires forall a :: Has(t, a) ==> At(m', a) == At(m, a).(balance := At(m', a).balance)
    ensures Links(m', t, up, typ)
  {
    if t.Bin? {
      LinksFrame(m, m', t.l, t.a, LEFT);
      LinksFrame(m, m', t.r, t.a, RIGHT);
    }
  }

  /** Hanging a tree elsewhere changes the up link and the type of its root only. */
  lemma {:induction false} Reparent(m: Mem, m': Mem, t: Tree, up: Addr, typ: int, up': Addr, typ': int)
    requires Links(m, t, up, typ) && Proper(t)
    requires forall a :: Has(t, a) && a != Root(t) ==> At(m', a) == At(m, a).(balance := At(m', a).balance)
    requires t.Bin? ==>
               At(m', t.a) == At(m, t.a).(up := up', typ := typ', balance := At(m', t.a).balance)
    ensures Links(m', t, up', typ')
  {
    if t.Bin? {
      LinksFrame(m, m', t.l, t.a, LEFT);
      LinksFrame(m, m', t.r, t.a, RIGHT);
    }
  }

  lemma {:induction false} BalancedFrame(m: Mem, m': Mem, t: Tree)
    requires Balanced(m, t)
    requires forall a :: Has(t, a) ==> At(m', a).balance == At(m, a).balance
    ensures Balanced(m', t)
  {
    if t.Bin? {
      BalancedFrame(m, m', t.l);
      BalancedFrame(m, m', t.r);
    }
  }

  lemma {:induction false} CBalancedFrame(m: Mem, m': Mem, c: Ctx, h: int)
    requires CBalanced(m, c, h)
    requires forall a :: CHas(c, a) ==> At(m', a).balance == At(m, a).balance
    ensures CBalanced(m', c, h)
  {
    if c.In? {
      BalancedFrame(m, m', c.sib);
      CBalancedFrame(m, m', c.up, 1 + Max(Height(c.sib), h));
    }
  }

  lemma {:induction false} CLinksFrame(m: Mem, m': Mem, c: Ctx, focus: Addr)
    requires CLinks(m, c, focus)
    requires forall a :: CHas(c, a) || a == ANCHOR ==> At(m', a) == At(m, a).(balance := At(m', a).balance)
    ensures CLinks(m', c, focus)
  {
    if c.In? {
      LinksFrame(m, m', c.sib, c.a, -c.side);
      CLinksFrame(m, m', c.up, c.a);
    }
  }

  /** Filling the hole with another root changes one link of the parent only. */
  lemma {:induction false} CLinksRefill(m: Mem, m': Mem, c: Ctx, focus: Addr, focus': Addr)
    requires CLinks(m, c, focus) && CProper(c)
    requires forall a :: (CHas(c, a) || a == ANCHOR) && a != CAddr(c) ==>
                           At(m', a) == At(m, a).(balance := At(m', a).balance)
    requires At(m', CAddr(c)) == At(m, CAddr(c)).SetLink(CSide(c), focus').(balance := At(m', CAddr(c)).balance)
    ensures CLinks(m', c, focus')
  {
    CHasPositive(c);
    if c.In? {
      LinksFrame(m, m', c.sib, c.a, -c.side);
      CLinksFrame(m, m', c.up, c.a);
    }
  }

  lemma {:induction false} HasPositive(t: Tree)
    requires Proper(t)
    ensures forall a :: Has(t, a) ==> a > 0
  {
    if t.Bin? {
      HasPositive(t.l);
      HasPositive(t.r);
    }
  }

  lemma {:induction false} CHasPositive(c: Ctx)
    requires CProper(c)
    ensures forall a :: CHas(c, a) ==> a > 0
  {
    if c.In? {
      HasPositive(c.sib);
      CHasPositive(c.up);
    }
  }

  // ---------- Locating a holder ----------

  /** The context of holder `a` in Plug(c, t), together with the subtree below it. */
  ghost function Locate(c: Ctx, t: Tree, a: Addr): (r: (Ctx, Tree))
    requires Has(t, a)
    ensures r.1.Bin? && r.1.a == a
    ensures Plug(r.0, r.1) == Plug(c, t)
    decreases t
  {
    if t.a == a then (c, t)
    else if Has(t.l, a) then Locate(In(LEFT, t.a, t.r, c), t.l, a)
    else Locate(In(RIGHT, t.a, t.l, c), t.r, a)
  }

  lemma {:induction false} LocateProper(c: Ctx, t: Tree, a: Addr)
    requires Has(t, a) && CProper(c) && Proper(t) && Separate(t, c)
    ensures CProper(Locate(c, t, a).0)
    decreases t
  {
    if t.a != a {
      assert Has(t, t.a);
      if Has(t.l, a) {
        LocateProper(In(LEFT, t.a, t.r, c), t.l, a);
      } else {
        LocateProper(In(RIGHT, t.a, t.l, c), t.r, a);
      }
    }
  }
}
