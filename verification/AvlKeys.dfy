/** Keys of the holders: what `struct avl_searchops` of lib/heap.c provides, and what a search finds. */
module AvlKeys {
  import opened Sequences
  import opened AvlShape
  import opened AvlSteps

  type Key = Addr -> int

  /** The cmp () operation on keys. */
  function Sign(x: int): int {
    if x < 0 then -1 else if x == 0 then 0 else 1
  }

  ghost predicate SortedBy(s: seq<Addr>, key: Key) {
    forall i, j :: 0 <= i < j < |s| ==> key(s[i]) <= key(s[j])
  }

  /** Every key is less than `k`, or equal to it when duplicates are passed over to the right. */
  ghost predicate Below(s: seq<Addr>, key: Key, k: int, dir: int) {
    forall j :: 0 <= j < |s| ==> key(s[j]) < k || (dir == RIGHT && key(s[j]) == k)
  }

  ghost predicate Above(s: seq<Addr>, key: Key, k: int, dir: int) {
    forall j :: 0 <= j < |s| ==> key(s[j]) > k || (dir == LEFT && key(s[j]) == k)
  }

  /** Where a search stops: at a match, or beside the only place where `k` can be inserted. */
  ghost predicate Found(s: seq<Addr>, key: Key, k: int, dir: int, holder: Addr, delta: int, i: int) {
    if s == [] then holder == NULL && delta == RIGHT && i == -1
    else
      && 0 <= i < |s| && s[i] == holder && delta == Sign(k - key(holder))
      && var d := Toward(delta, dir);
         d != 0 ==>
           var cut := if d == RIGHT then i + 1 else i;
           Below(s[..cut], key, k, dir) && Above(s[cut..], key, k, dir)
  }

  /** `delta ?: dir` */
  function Toward(delta: int, dir: int): int {
    if delta != 0 then delta else dir
  }

  lemma {:induction false} SortedAround(b: seq<Addr>, l: seq<Addr>, x: Addr, r: seq<Addr>, a: seq<Addr>, key: Key)
    requires SortedBy(b + (l + [x] + r) + a, key)
    ensures forall j :: 0 <= j < |l| ==> key(l[j]) <= key(x)
    ensures forall j :: 0 <= j < |r| ==> key(x) <= key(r[j])
  {
    var s := b + (l + [x] + r) + a;
    assert s[|b| + |l|] == x;
    forall j | 0 <= j < |l| ensures key(l[j]) <= key(x) {
      assert s[|b| + j] == l[j];
    }
    forall j | 0 <= j < |r| ensures key(x) <= key(r[j]) {
      assert s[|b| + |l| + 1 + j] == r[j];
    }
  }

  /** One step of a search: what lies before and after the child it moves to. */
  lemma {:induction false} SearchStep(b: seq<Addr>, l: seq<Addr>, x: Addr, r: seq<Addr>, a: seq<Addr>,
                                      key: Key, k: int, dir: int, d: int)
    requires SortedBy(b + (l + [x] + r) + a, key)
    requires Below(b, key, k, dir) && Above(a, key, k, dir)
    requires d == Toward(Sign(k - key(x)), dir)
    ensures d == RIGHT ==> Below(b + l + [x], key, k, dir)
    ensures d == LEFT ==> Above([x] + r + a, key, k, dir)
  {
    SortedAround(b, l, x, r, a, key);
  }

  lemma {:induction false} SearchStart(m: Mem, t: Tree, key: Key, k: int, dir: int)
    requires Focused(m, t, Top)
    ensures Hung(m, t, Top) && At(m, ANCHOR).right == Root(t) && (Root(t) == NULL <==> t.Leaf?)
    ensures Order(t) == Before(Top) + Order(t) + After(Top) && (t.Leaf? <==> Order(t) == [])
    ensures Below(Before(Top), key, k, dir) && Above(After(Top), key, k, dir)
    ensures t.Leaf? ==> Found(Order(t), key, k, dir, NULL, RIGHT, -1)
  {
    HasOrder(t);
  }

  lemma {:induction false} SearchStop(b: seq<Addr>, l: seq<Addr>, x: Addr, r: seq<Addr>, a: seq<Addr>,
                                      key: Key, k: int, dir: int, i: int)
    requires var s := b + (l + [x] + r) + a; SortedBy(s, key)
    requires Below(b, key, k, dir) && Above(a, key, k, dir)
    requires i == |b| + |l| && (dir == LEFT || dir == 0 || dir == RIGHT)
    requires var d := Toward(Sign(k - key(x)), dir); (d == RIGHT ==> r == []) && (d == LEFT ==> l == [])
    ensures Found(b + (l + [x] + r) + a, key, k, dir, x, Sign(k - key(x)), i)
  {
    var d := Toward(Sign(k - key(x)), dir);
    SearchStep(b, l, x, r, a, key, k, dir, d);
    CutAround(b, l, x, r, a, i);
  }

  lemma {:induction false} StopHere(t: Tree, c: Ctx, key: Key, k: int, dir: int)
    requires t.Bin? && SortedBy(Before(c) + Order(t) + After(c), key) && (dir == LEFT || dir == 0 || dir == RIGHT)
    requires Below(Before(c), key, k, dir) && Above(After(c), key, k, dir)
    requires var d := Toward(Sign(k - key(t.a)), dir); d != 0 ==> Far(d, t).Leaf?
    ensures Found(Before(c) + Order(t) + After(c), key, k, dir, t.a, Sign(k - key(t.a)), |Before(c)| + |Order(t.l)|)
  {
    SearchStop(Before(c), Order(t.l), t.a, Order(t.r), After(c), key, k, dir, |Before(c)| + |Order(t.l)|);
  }

  lemma {:induction false} GoOn(t: Tree, c: Ctx, key: Key, k: int, dir: int)
    requires t.Bin? && SortedBy(Before(c) + Order(t) + After(c), key) && IsDir(Toward(Sign(k - key(t.a)), dir))
    requires Below(Before(c), key, k, dir) && Above(After(c), key, k, dir)
    ensures var d := Toward(Sign(k - key(t.a)), dir);
            var c' := In(d, t.a, Near(d, t), c);
            Below(Before(c'), key, k, dir) && Above(After(c'), key, k, dir)
  {
    SearchStep(Before(c), Order(t.l), t.a, Order(t.r), After(c), key, k, dir, Toward(Sign(k - key(t.a)), dir));
  }

  lemma {:induction false} Visited(m: Mem, t: Tree, c: Ctx)
    requires Hung(m, t, c) && t.Bin?
    ensures Height(t) >= 1 && t.a > 0
  {
  }

  lemma {:induction false} CutAround(b: seq<Addr>, l: seq<Addr>, x: Addr, r: seq<Addr>, a: seq<Addr>, i: int)
    requires i == |b| + |l|
    ensures var s := b + (l + [x] + r) + a;
            && 0 <= i < |s| && s[i] == x
            && (r == [] ==> s[..i + 1] == b + l + [x] && s[i + 1..] == a)
            && (l == [] ==> s[..i] == b && s[i..] == [x] + r + a)
  {
  }

  /** Inserting beside the place a search found keeps the keys sorted. */
  lemma {:induction false} InsertSorted(s: seq<Addr>, key: Key, node: Addr, cut: int, dir: int)
    requires SortedBy(s, key) && 0 <= cut <= |s|
    requires Below(s[..cut], key, key(node), dir) && Above(s[cut..], key, key(node), dir)
    ensures SortedBy(InsertAt(s, cut, node), key)
  {
    var t := InsertAt(s, cut, node);
    forall i, j | 0 <= i < j < |t| ensures key(t[i]) <= key(t[j]) {
      assert i < cut ==> t[i] == s[..cut][i];
      assert j > cut ==> t[j] == s[cut..][j - cut - 1];
    }
  }

  lemma {:induction false} RemoveSorted(s: seq<Addr>, key: Key, i: int)
    requires SortedBy(s, key) && 0 <= i < |s|
    ensures SortedBy(RemoveAt(s, i), key)
  {
  }

  /** `a` holds the least key not below `k`, at place `i`; NULL says there is none. */
  ghost predicate LeastFrom(s: seq<Addr>, key: Key, k: int, a: Addr, i: int) {
    if a == NULL then forall j :: 0 <= j < |s| ==> key(s[j]) < k
    else
      && 0 <= i < |s| && s[i] == a && k <= key(a)
      && (forall j :: 0 <= j < |s| && k <= key(s[j]) ==> key(a) <= key(s[j]))
  }

  /** `a` holds the greatest key not above `k`, at place `i`; NULL says there is none. */
  ghost predicate GreatestTo(s: seq<Addr>, key: Key, k: int, a: Addr, i: int) {
    if a == NULL then forall j :: 0 <= j < |s| ==> key(s[j]) > k
    else
      && 0 <= i < |s| && s[i] == a && key(a) <= k
      && (forall j :: 0 <= j < |s| && key(s[j]) <= k ==> key(s[j]) <= key(a))
  }

  lemma {:induction false} Nearest(s: seq<Addr>, key: Key, k: int, holder: Addr, delta: int, i: int, dir: int, r: Addr)
    requires SortedBy(s, key) && Found(s, key, k, 0, holder, delta, i)
    requires IsDir(dir) && forall j {:trigger s[j]} :: 0 <= j < |s| ==> s[j] > 0
    requires r == if holder == NULL || delta != dir then holder
                  else if 0 <= i + dir < |s| then s[i + dir] else NULL
    ensures var i' := if holder == NULL || delta != dir then i else i + dir;
            if dir == RIGHT then LeastFrom(s, key, k, r, i') else GreatestTo(s, key, k, r, i')
  {
    if s != [] && delta != 0 {
      var cut := if delta == RIGHT then i + 1 else i;
      forall j | 0 <= j < |s| ensures j < cut ==> key(s[j]) < k {
        if j < cut {
          assert s[..cut][j] == s[j];
        }
      }
      forall j | 0 <= j < |s| ensures j >= cut ==> key(s[j]) > k {
        if j >= cut {
          assert s[cut..][j - cut] == s[j];
        }
      }
    }
  }

  lemma {:induction false} FoundCut(s: seq<Addr>, key: Key, k: int, dir: int, holder: Addr, delta: int, i: int)
    requires Found(s, key, k, dir, holder, delta, i) && Toward(delta, dir) != 0
    requires dir == LEFT || dir == 0 || dir == RIGHT
    ensures var cut := if Toward(delta, dir) == RIGHT then i + 1 else i;
            && 0 <= cut <= |s| && Below(s[..cut], key, k, dir) && Above(s[cut..], key, k, dir)
    ensures IsDir(Toward(delta, dir))
  {
  }

  lemma {:induction false} ReplaceSorted(s: seq<Addr>, key: Key, newh: Addr, i: int)
    requires SortedBy(s, key) && 0 <= i < |s|
    requires i > 0 ==> key(s[i - 1]) <= key(newh)
    requires i < |s| - 1 ==> key(newh) <= key(s[i + 1])
    ensures SortedBy(s[i := newh], key)
  {
    var t := s[i := newh];
    forall p, q | 0 <= p < q < |t| ensures key(t[p]) <= key(t[q]) {
      if p == i {
        assert key(s[i + 1]) <= key(s[q]) || q == i + 1;
      } else if q == i {
        assert key(s[p]) <= key(s[i - 1]) || p == i - 1;
      }
    }
  }

  // ---------- Bounds ----------

  function Fib(n: nat): nat {
    if n < 2 then n else Fib(n - 1) + Fib(n - 2)
  }

  lemma {:induction false} FibGrows(n: nat)
    ensures Fib(n) <= Fib(n + 1)
    decreases n
  {
    if n > 1 {
      FibGrows(n - 1);
      FibGrows(n - 2);
    }
  }

  /** A balanced tree of height h has at least Fib(h + 2) - 1 holders. */
  lemma {:induction false} Bushy(m: Mem, t: Tree)
    requires Balanced(m, t)
    ensures |Order(t)| >= Fib(Height(t) + 2) - 1
    decreases t
  {
    if t.Bin? {
      Bushy(m, t.l);
      Bushy(m, t.r);
      BushyStep(Height(t.l), Height(t.r), |Order(t.l)|, |Order(t.r)|);
      hide Fib;
    }
  }

  lemma {:induction false} BushyStep(hl: nat, hr: nat, nl: nat, nr: nat)
    requires -1 <= hr - hl <= 1
    requires nl >= Fib(hl + 2) - 1 && nr >= Fib(hr + 2) - 1
    ensures nl + nr + 1 >= Fib(1 + Max(hl, hr) + 2) - 1
  {
    var h := Max(hl, hr);
    assert Fib(h + 3) == Fib(h + 2) + Fib(h + 1);
    FibGrows(h + 1);
  }
}
