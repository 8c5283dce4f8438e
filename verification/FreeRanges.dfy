/** The pool of free page ranges of an extent (lib/heap.c), indexed by address and by size. */
module FreeRanges {
  import opened Sequences
  import opened AvlShape
  import opened AvlKeys

  const PAGE_SHIFT: int := 9
  const PAGE_SIZE: int := 512

  /** The free ranges of an extent: start and length in bytes. */
  type Ranges = map<Addr, int>

  /** Byte `x` belongs to a free range. */
  ghost predicate Free(r: Ranges, x: Addr) {
    exists a :: a in r && a <= x < a + r[a]
  }

  ghost predicate Inside(x: Addr, page: Addr, n: int) {
    page <= x < page + n
  }

  /** Whole pages inside [base, lim). */
  predicate WholePages(a: Addr, n: int, base: Addr, lim: Addr) {
    base <= a && n > 0 && a + n <= lim && (a - base) % PAGE_SIZE == 0 && n % PAGE_SIZE == 0
  }

  ghost predicate AllWhole(r: Ranges, base: Addr, lim: Addr) {
    forall a :: a in r ==> WholePages(a, r[a], base, lim)
  }

  /** Two ranges never overlap nor touch. */
  ghost predicate Gapped(r: Ranges) {
    forall a, b :: a in r && b in r && a < b ==> a + r[a] < b
  }

  ghost predicate Coalesced(r: Ranges, base: Addr, lim: Addr) {
    AllWhole(r, base, lim) && Gapped(r)
  }

  ghost predicate AllFree(r: Ranges, page: Addr, n: int) {
    forall x :: Inside(x, page, n) ==> Free(r, x)
  }

  ghost predicate NoneFree(r: Ranges, page: Addr, n: int) {
    forall x :: Inside(x, page, n) ==> !Free(r, x)
  }

  /** Every range is too short. */
  ghost predicate NoFit(r: Ranges, n: int) {
    forall a :: a in r ==> r[a] < n
  }

  /** The range at `a` is the shortest one of at least `n` bytes. */
  ghost predicate Fittest(r: Ranges, n: int, a: Addr) {
    a in r && r[a] >= n && forall b :: b in r && r[b] >= n ==> r[a] <= r[b]
  }

  /** [page, page + n) was free and no longer is; nothing else changed. */
  ghost predicate PagesTaken(r: Ranges, r': Ranges, page: Addr, n: int) {
    AllFree(r, page, n) && forall x :: Free(r', x) <==> Free(r, x) && !Inside(x, page, n)
  }

  /** [page, page + n) has become free; nothing else changed. */
  ghost predicate PagesGiven(r: Ranges, r': Ranges, page: Addr, n: int) {
    forall x :: Free(r', x) <==> Free(r, x) || Inside(x, page, n)
  }

  // ---------- A coalesced pool is determined by what is free ----------

  /** The bytes just around a range are not free. */
  lemma {:induction false} Edges(r: Ranges, base: Addr, lim: Addr, a: Addr)
    requires Coalesced(r, base, lim) && a in r
    ensures Free(r, a) && !Free(r, a - 1) && !Free(r, a + r[a])
  {
    forall b | b in r ensures r[b] > 0 {
      assert WholePages(b, r[b], base, lim);
    }
    assert a <= a < a + r[a];
    forall b | b in r ensures !(b <= a - 1 < b + r[b]) && !(b <= a + r[a] < b + r[b]) {
    }
  }

  lemma {:induction false} NotFree(r: Ranges, x: Addr, a: Addr)
    requires !Free(r, x) && a in r
    ensures !(a <= x < a + r[a])
  {
  }

  lemma {:induction false} Longer(r: Ranges, q: Ranges, base: Addr, lim: Addr, a: Addr)
    requires Coalesced(r, base, lim) && Coalesced(q, base, lim) && (forall x :: Free(r, x) <==> Free(q, x))
    requires a in r && a in q
    ensures q[a] >= r[a]
  {
    Edges(q, base, lim, a);
    assert WholePages(a, q[a], base, lim);
    assert !Free(r, a + q[a]);
    assert !(a <= a + q[a] < a + r[a]);
  }

  lemma {:induction false} SameStart(r: Ranges, q: Ranges, base: Addr, lim: Addr, a: Addr)
    requires Coalesced(r, base, lim) && Coalesced(q, base, lim) && (forall x :: Free(r, x) <==> Free(q, x))
    requires a in r
    ensures a in q && q[a] >= r[a]
  {
    Edges(r, base, lim, a);
    assert Free(q, a) && !Free(q, a - 1);
    var b :| b in q && b <= a < b + q[b];
    NotFree(q, a - 1, b);
    assert b == a;
    Longer(r, q, base, lim, a);
  }

  /** No two coalesced pools leave the same bytes free. */
  lemma {:induction false} Canonical(r: Ranges, q: Ranges, base: Addr, lim: Addr)
    requires Coalesced(r, base, lim) && Coalesced(q, base, lim)
    requires forall x :: Free(r, x) <==> Free(q, x)
    ensures r == q
  {
    forall a | a in r ensures a in q && q[a] >= r[a] {
      SameStart(r, q, base, lim, a);
    }
    forall a | a in q ensures a in r && r[a] >= q[a] {
      SameStart(q, r, base, lim, a);
    }
  }

  /** When every byte of the extent is free, the pool is one range. */
  lemma {:induction false} FullyCoalesced(r: Ranges, base: Addr, lim: Addr)
    requires Coalesced(r, base, lim) && WholePages(base, lim - base, base, lim)
    requires AllFree(r, base, lim - base)
    ensures r == map[base := lim - base]
  {
    var q := map[base := lim - base];
    forall x ensures Free(r, x) <==> Free(q, x) {
      if Free(r, x) {
        var a :| a in r && a <= x < a + r[a];
        assert WholePages(a, r[a], base, lim);
        assert base in q;
      }
      if Free(q, x) {
        assert Inside(x, base, lim - base);
      }
    }
    Canonical(r, q, base, lim);
  }

  // ---------- Taking the upper part of a range ----------

  ghost function Taken(r: Ranges, a: Addr, n: int): Ranges
    requires a in r
  {
    if r[a] == n then r - {a} else r[a := r[a] - n]
  }

  lemma {:induction false} TakenWhole(r: Ranges, a: Addr, n: int, base: Addr, lim: Addr)
    requires Coalesced(r, base, lim) && a in r && 0 < n <= r[a] && n % PAGE_SIZE == 0
    ensures AllWhole(Taken(r, a, n), base, lim) && WholePages(a + r[a] - n, n, base, lim)
  {
    assert WholePages(a, r[a], base, lim);
    WholeSplit(a, r[a], n, base, lim);
    forall b | b in Taken(r, a, n) && b != a ensures WholePages(b, Taken(r, a, n)[b], base, lim) {
      assert WholePages(b, r[b], base, lim);
    }
  }

  lemma {:induction false} WholeSplit(a: Addr, m: int, n: int, base: Addr, lim: Addr)
    requires WholePages(a, m, base, lim) && 0 < n <= m && n % PAGE_SIZE == 0
    ensures WholePages(a + m - n, n, base, lim) && (n < m ==> WholePages(a, m - n, base, lim))
  {
  }

  lemma {:induction false} WholeJoin(a: Addr, m: int, n: int, base: Addr, lim: Addr)
    requires WholePages(a, m, base, lim) && WholePages(a + m, n, base, lim)
    ensures WholePages(a, m + n, base, lim)
  {
  }

  lemma {:induction false} TakenGapped(r: Ranges, a: Addr, n: int)
    requires Gapped(r) && a in r && 0 < n <= r[a]
    ensures Gapped(Taken(r, a, n))
  {
    var r' := Taken(r, a, n);
    forall b, c | b in r' && c in r' && b < c ensures b + r'[b] < c {
      assert b in r && c in r && r'[b] <= r[b];
    }
  }

  lemma {:induction false} TakenFree(r: Ranges, a: Addr, n: int, x: Addr)
    requires Gapped(r) && a in r && 0 < n <= r[a]
    ensures Free(Taken(r, a, n), x) <==> Free(r, x) && !Inside(x, a + r[a] - n, n)
  {
    var r' := Taken(r, a, n);
    if Free(r', x) {
      var b :| b in r' && b <= x < b + r'[b];
      assert b in r && b <= x < b + r[b];
    }
    if Free(r, x) && !Inside(x, a + r[a] - n, n) {
      var b :| b in r && b <= x < b + r[b];
      assert b in r' && b <= x < b + r'[b];
    }
  }

  lemma {:induction false} TakenOne(r: Ranges, a: Addr, n: int, base: Addr, lim: Addr)
    requires Coalesced(r, base, lim) && a in r && 0 < n <= r[a] && n % PAGE_SIZE == 0
    ensures Coalesced(Taken(r, a, n), base, lim)
    ensures WholePages(a + r[a] - n, n, base, lim) && PagesTaken(r, Taken(r, a, n), a + r[a] - n, n)
  {
    hide Taken, AllWhole, WholePages, Gapped;
    TakenWhole(r, a, n, base, lim);
    TakenGapped(r, a, n);
    forall x ensures Free(Taken(r, a, n), x) <==> Free(r, x) && !Inside(x, a + r[a] - n, n) {
      TakenFree(r, a, n, x);
    }
    forall x | Inside(x, a + r[a] - n, n) ensures Free(r, x) {
      assert a <= x < a + r[a];
    }
  }

  // ---------- Giving pages back ----------

  /** `a` is the last range starting at or before `page`, if any. */
  ghost predicate LeftOf(r: Ranges, page: Addr, a: Addr) {
    if a == NULL then forall b :: b in r ==> b > page
    else a in r && a <= page && forall b :: b in r && b <= page ==> b <= a
  }

  /** `a` is the first range starting after `page`, if any. */
  ghost predicate RightOf(r: Ranges, page: Addr, a: Addr) {
    if a == NULL then forall b :: b in r ==> b <= page
    else a in r && a > page && forall b :: b in r && b > page ==> a <= b
  }

  ghost predicate TouchesLeft(r: Ranges, page: Addr, left: Addr) {
    left in r && left + r[left] == page
  }

  ghost predicate TouchesRight(r: Ranges, page: Addr, n: int, right: Addr) {
    right in r && page + n == right
  }

  /** The pool once [page, page + n) has been merged with the neighbours it touches. */
  ghost function Joined(r: Ranges, page: Addr, n: int, left: Addr, right: Addr): Ranges {
    var start := if TouchesLeft(r, page, left) then left else page;
    var low := if TouchesLeft(r, page, left) then r[left] + n else n;
    if TouchesRight(r, page, n, right) then (r - {right})[start := low + r[right]] else r[start := low]
  }

  lemma {:induction false} Neighbours(r: Ranges, page: Addr, n: int, left: Addr, right: Addr, base: Addr, lim: Addr,
                                      b: Addr)
    requires Coalesced(r, base, lim) && WholePages(page, n, base, lim) && NoneFree(r, page, n)
    requires LeftOf(r, page, left) && RightOf(r, page, right) && 0 < base
    requires b in r
    ensures b != page
    ensures b < page ==> b + r[b] <= page && left in r && b <= left < page && (b < left ==> b + r[b] < left)
    ensures b > page ==> page + n <= b && right in r && page < right <= b && (right < b ==> right + r[right] < b)
    ensures right in r ==> page + n <= right && r[right] > 0
  {
    forall a | a in r ensures r[a] > 0 {
      assert WholePages(a, r[a], base, lim);
    }
    if right in r {
      assert !Inside(right, page, n) by {
        assert right <= right < right + r[right];
      }
    }
    assert Inside(page, page, n);
    NotFree(r, page, b);
    assert !Inside(b, page, n) by {
      assert b <= b < b + r[b];
    }
  }

  lemma {:induction false} JoinedWhole(r: Ranges, page: Addr, n: int, left: Addr, right: Addr, base: Addr, lim: Addr)
    requires AllWhole(r, base, lim) && WholePages(page, n, base, lim)
    ensures AllWhole(Joined(r, page, n, left, right), base, lim)
  {
    hide WholePages;
    var r' := Joined(r, page, n, left, right);
    var start := if TouchesLeft(r, page, left) then left else page;
    var low := if TouchesLeft(r, page, left) then r[left] + n else n;
    if TouchesLeft(r, page, left) {
      WholeJoin(left, r[left], n, base, lim);
    }
    if TouchesRight(r, page, n, right) {
      WholeJoin(start, low, r[right], base, lim);
    }
    assert WholePages(start, r'[start], base, lim);
    forall b | b in r' && b != start ensures WholePages(b, r'[b], base, lim) {
      assert b in r && r'[b] == r[b];
    }
  }

  lemma {:induction false} JoinedPair(r: Ranges, page: Addr, n: int, left: Addr, right: Addr, base: Addr, lim: Addr,
                                      a: Addr, b: Addr)
    requires Coalesced(r, base, lim) && WholePages(page, n, base, lim) && NoneFree(r, page, n)
    requires LeftOf(r, page, left) && RightOf(r, page, right) && 0 < base
    requires var r' := Joined(r, page, n, left, right); a in r' && b in r' && a < b
    requires a in r && b in r ==> a + r[a] < b
    ensures a + Joined(r, page, n, left, right)[a] < b
  {
    hide WholePages, Coalesced, NoneFree, LeftOf, RightOf, Free;
    if a in r {
      Neighbours(r, page, n, left, right, base, lim, a);
    }
    if b in r {
      Neighbours(r, page, n, left, right, base, lim, b);
    }
  }

  lemma {:induction false} JoinedGapped(r: Ranges, page: Addr, n: int, left: Addr, right: Addr, base: Addr, lim: Addr)
    requires Coalesced(r, base, lim) && WholePages(page, n, base, lim) && NoneFree(r, page, n)
    requires LeftOf(r, page, left) && RightOf(r, page, right) && 0 < base
    ensures Gapped(Joined(r, page, n, left, right))
  {
    hide WholePages, Joined, NoneFree, LeftOf, RightOf;
    var r' := Joined(r, page, n, left, right);
    forall a, b | a in r' && b in r' && a < b ensures a + r'[a] < b {
      JoinedPair(r, page, n, left, right, base, lim, a, b);
    }
  }

  lemma {:induction false} JoinedFree(r: Ranges, page: Addr, n: int, left: Addr, right: Addr, base: Addr, lim: Addr,
                                      x: Addr)
    requires Coalesced(r, base, lim) && WholePages(page, n, base, lim) && NoneFree(r, page, n)
    requires LeftOf(r, page, left) && RightOf(r, page, right) && 0 < base
    ensures Free(Joined(r, page, n, left, right), x) <==> Free(r, x) || Inside(x, page, n)
  {
    var r' := Joined(r, page, n, left, right);
    var start := if TouchesLeft(r, page, left) then left else page;
    if Free(r', x) {
      var b :| b in r' && b <= x < b + r'[b];
      if b != start {
        assert b in r && r'[b] == r[b];
      } else if x < page {
        assert left in r && left <= x < left + r[left];
      } else if x >= page + n {
        assert right in r && right <= x < right + r[right];
      }
    }
    if Free(r, x) {
      var b :| b in r && b <= x < b + r[b];
      Neighbours(r, page, n, left, right, base, lim, b);
      if b in r' && r'[b] == r[b] {
        assert Free(r', x);
      } else {
        assert start in r' && start <= x < start + r'[start];
      }
    }
    if Inside(x, page, n) {
      assert left in r ==> WholePages(left, r[left], base, lim);
      assert right in r ==> WholePages(right, r[right], base, lim);
      assert start in r' && start <= x < start + r'[start];
    }
  }

  /** Releasing pages frees exactly those pages, and leaves the pool coalesced. */
  lemma {:induction false} JoinedOne(r: Ranges, page: Addr, n: int, left: Addr, right: Addr, base: Addr, lim: Addr)
    requires Coalesced(r, base, lim) && WholePages(page, n, base, lim) && NoneFree(r, page, n)
    requires LeftOf(r, page, left) && RightOf(r, page, right) && 0 < base
    ensures Coalesced(Joined(r, page, n, left, right), base, lim)
    ensures PagesGiven(r, Joined(r, page, n, left, right), page, n)
  {
    JoinedWhole(r, page, n, left, right, base, lim);
    JoinedGapped(r, page, n, left, right, base, lim);
    forall x ensures Free(Joined(r, page, n, left, right), x) <==> Free(r, x) || Inside(x, page, n) {
      JoinedFree(r, page, n, left, right, base, lim, x);
    }
  }

  // ---------- What the two trees index ----------

  /** The holders `s` of a tree stand for the ranges `r`. */
  ghost predicate Listed(s: seq<Addr>, r: Ranges) {
    Distinct(s) && (forall a :: a in s <==> a in r) && (forall a :: a in r ==> a > 0)
  }

  /** The `size` fields of the descriptors. */
  function SizeKey(size: map<Addr, int>): Key {
    a => if a in size then size[a] else 0
  }

  /** Holders of the address tree are compared by address. */
  function AddrKey(): Key {
    a => a
  }

  ghost predicate SizedBy(size: map<Addr, int>, r: Ranges) {
    forall a :: a in r ==> SizeKey(size)(a) == r[a]
  }

  lemma {:induction false} RemovedMembers(s: seq<Addr>, i: int, r: Ranges)
    requires Listed(s, r) && 0 <= i < |s|
    ensures Listed(RemoveAt(s, i), r - {s[i]}) && s[i] in r
  {
    var t := RemoveAt(s, i);
    assert forall p :: 0 <= p < |t| ==> t[p] == s[if p < i then p else p + 1];
    forall a | a in r && a != s[i] ensures a in t {
      var p :| 0 <= p < |s| && s[p] == a;
      assert t[if p < i then p else p - 1] == a;
    }
    assert s[i] in s;
  }

  lemma {:induction false} InsertedMembers(s: seq<Addr>, k: int, x: Addr, r: Ranges, n: int)
    requires Listed(s, r) && 0 <= k <= |s| && x !in r && x > 0
    ensures Listed(InsertAt(s, k, x), r[x := n])
  {
    var t := InsertAt(s, k, x);
    assert forall p :: 0 <= p < |t| ==> t[p] == if p < k then s[p] else if p == k then x else s[p - 1];
    forall a | a in s ensures a in t {
      var p :| 0 <= p < |s| && s[p] == a;
      assert t[if p < k then p else p + 1] == a;
    }
    assert t[k] == x;
    forall p | 0 <= p < |s| ensures s[p] != x {
      assert s[p] in s;
    }
  }

  lemma {:induction false} ReplacedMember(s: seq<Addr>, i: int, x: Addr, r: Ranges, n: int)
    requires Listed(s, r) && 0 <= i < |s| && x !in r && x > 0
    ensures Listed(s[i := x], (r - {s[i]})[x := n])
  {
    var t := s[i := x];
    forall a | a in r && a != s[i] ensures a in t {
      var p :| 0 <= p < |s| && s[p] == a;
      assert t[p] == a;
    }
    assert t[i] == x;
    forall p | 0 <= p < |s| ensures s[p] != x {
      assert s[p] in s;
    }
  }

  /** Writing the size of a range that the tree does not hold. */
  lemma {:induction false} SortedFrame(s: seq<Addr>, size: map<Addr, int>, a: Addr, n: int)
    requires SortedBy(s, SizeKey(size)) && a !in s
    ensures SortedBy(s, SizeKey(size[a := n]))
  {
    forall i | 0 <= i < |s| ensures SizeKey(size[a := n])(s[i]) == SizeKey(size)(s[i]) {
      assert s[i] in s;
    }
  }

  lemma {:induction false} IndexOf(s: seq<Addr>, r: Ranges, a: Addr) returns (i: int)
    requires Listed(s, r) && a in r
    ensures 0 <= i < |s| && s[i] == a
  {
    i :| 0 <= i < |s| && s[i] == a;
  }

  /** A search by size is best-fit. */
  lemma {:induction false} BestFit(s: seq<Addr>, size: map<Addr, int>, r: Ranges, n: int, a: Addr, i: int)
    requires Listed(s, r) && SizedBy(size, r) && LeastFrom(s, SizeKey(size), n, a, i)
    ensures a == NULL <==> NoFit(r, n)
    ensures a != NULL ==> Fittest(r, n, a)
  {
    if a != NULL {
      assert s[i] in s;
    }
    forall b | b in r ensures if a == NULL then r[b] < n else r[b] >= n ==> r[a] <= r[b] {
      var j := IndexOf(s, r, b);
      assert SizeKey(size)(s[j]) == r[b];
    }
  }

  lemma {:induction false} OnlyOne(s: seq<Addr>, r: Ranges, a: Addr)
    requires Listed(s, r) && forall b :: b in r <==> b == a
    ensures s == [a]
  {
    assert a in s;
    assert forall i :: 0 <= i < |s| ==> s[i] in s;
    assert s[0] == s[|s| - 1] == a;
  }

  lemma {:induction false} NotListed(s: seq<Addr>, r: Ranges, x: Addr)
    requires Listed(s, r) && x !in r
    ensures x !in s && forall j :: 0 <= j < |s| ==> AddrKey()(s[j]) != AddrKey()(x)
  {
    forall j | 0 <= j < |s| ensures s[j] != x {
      assert s[j] in s;
    }
  }

  lemma {:induction false} FirstListed(s: seq<Addr>, r: Ranges, x: Addr)
    requires Listed(s, r) && LeftOf(r, x, NULL)
    ensures s != [] ==> AddrKey()(x) < AddrKey()(s[0])
  {
    if s != [] {
      assert s[0] in s;
    }
  }

  /** Just before the first range after it is where a range goes. */
  lemma {:induction false} FitsBefore(s: seq<Addr>, r: Ranges, x: Addr, right: Addr, i: int)
    requires Listed(s, r) && SortedBy(s, AddrKey()) && x !in r && RightOf(r, x, right) && right in r
    requires 0 <= i < |s| && s[i] == right
    ensures i > 0 ==> AddrKey()(s[i - 1]) <= AddrKey()(x)
    ensures i < |s| - 1 ==> AddrKey()(x) <= AddrKey()(s[i + 1])
  {
    if i > 0 {
      assert s[i - 1] in s;
      assert AddrKey()(s[i - 1]) <= AddrKey()(s[i]);
    }
    if i < |s| - 1 {
      assert AddrKey()(s[i]) <= AddrKey()(s[i + 1]);
    }
  }

  lemma {:induction false} LeftFound(s: seq<Addr>, r: Ranges, p: Addr, left: Addr, i: int)
    requires Listed(s, r) && GreatestTo(s, AddrKey(), p, left, i)
    ensures LeftOf(r, p, left)
  {
    forall b | b in r ensures if left == NULL then b > p else b <= p ==> b <= left {
      var j := IndexOf(s, r, b);
    }
    if left != NULL {
      assert s[i] in s;
    }
  }

  lemma {:induction false} RightFound(s: seq<Addr>, r: Ranges, p: Addr, right: Addr, i: int)
    requires Listed(s, r) && LeastFrom(s, AddrKey(), p, right, i) && p !in r
    ensures RightOf(r, p, right)
  {
    forall b | b in r ensures if right == NULL then b <= p else b > p ==> right <= b {
      var j := IndexOf(s, r, b);
    }
    if right != NULL {
      assert s[i] in s;
    }
  }

  lemma {:induction false} NextFound(s: seq<Addr>, r: Ranges, left: Addr, right: Addr, i: int)
    requires Listed(s, r) && SortedBy(s, AddrKey()) && 0 <= i < |s| && s[i] == left
    requires right == if i + 1 < |s| then s[i + 1] else NULL
    ensures RightOf(r, left, right)
  {
    forall b | b in r ensures if right == NULL then b <= left else b > left ==> right <= b {
      var j := IndexOf(s, r, b);
      if j <= i {
        assert AddrKey()(s[j]) <= AddrKey()(s[i]);
      } else {
        assert s[i + 1] in s;
        assert AddrKey()(s[i + 1]) <= AddrKey()(s[j]);
      }
    }
    if i + 1 < |s| {
      assert s[i + 1] in s;
      assert AddrKey()(s[i]) <= AddrKey()(s[i + 1]);
    }
  }

  /** Pages outside the pool head no free range. */
  lemma {:induction false} NotInPool(r: Ranges, page: Addr, n: int, base: Addr, lim: Addr)
    requires Coalesced(r, base, lim) && n > 0 && NoneFree(r, page, n)
    ensures page !in r
  {
    assert Inside(page, page, n);
    forall a | a in r ensures a != page {
      assert WholePages(a, r[a], base, lim);
      NotFree(r, page, a);
    }
  }

  /** Nothing starts between the left neighbour and the freed pages. */
  lemma {:induction false} RightOfEither(r: Ranges, page: Addr, n: int, left: Addr, right: Addr, base: Addr, lim: Addr)
    requires LeftOf(r, page, left) && (RightOf(r, left, right) || RightOf(r, page, right)) && page !in r
    requires Coalesced(r, base, lim) && 0 < base
    ensures RightOf(r, page, right)
  {
    forall a | a in r ensures a > 0 {
      assert WholePages(a, r[a], base, lim);
    }
  }

  lemma {:induction false} LeftListed(r: Ranges, page: Addr, left: Addr)
    requires LeftOf(r, page, left) && left != NULL
    ensures left in r && left <= page
  {
  }

  lemma {:induction false} RightListed(r: Ranges, page: Addr, right: Addr)
    requires RightOf(r, page, right) && right != NULL
    ensures right in r && right > page
  {
  }
}
