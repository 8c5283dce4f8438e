/** What the pages of a heap extent are used for, and which blocks are live (lib/heap.c, include/evl/heap.h). */
module HeapState {
  import opened Arithmetic
  import opened AvlShape
  import opened FreeRanges
  import opened PageRings
  import opened PageLists

  const PAGE_FREE: nat := 0
  const PAGE_CONT: nat := 1
  const PAGE_LIST: nat := 2

  ghost predicate IsLog2(l: int) {
    MIN_LOG2 <= l < PAGE_SHIFT
  }

  /** The size of the blocks of a bucket: `1 << log2size`. */
  function Size(l: int): int {
    if l <= 4 then 16 else if l == 5 then 32 else if l == 6 then 64 else if l == 7 then 128 else 256
  }

  /** How many of them fit in a page: `EVL_HEAP_PAGE_SIZE >> log2size`. */
  function Slots(l: int): int {
    if l <= 4 then 32 else if l == 5 then 16 else if l == 6 then 8 else if l == 7 then 4 else 2
  }

  lemma {:induction false} SizeIsPow(l: int)
    requires IsLog2(l)
    ensures Size(l) == Pow2(l) && Slots(l) * Size(l) == PAGE_SIZE
  {
    assert Pow2(1) == 2 && Pow2(2) == 4 && Pow2(3) == 8 && Pow2(4) == 16;
    assert Pow2(5) == 32 && Pow2(6) == 64 && Pow2(7) == 128 && Pow2(8) == 256;
  }

  // ---------- Busy maps: 32-bit words, one bit per slot ----------

  const MAP_BITS: int := 32

  /** `~gen_block_mask (l) | 1` */
  function FreshMap(l: int): seq<bool> {
    seq(MAP_BITS, i => i >= Slots(l) || i == 0)
  }

  /** `map == -1U` */
  predicate AllBusy(m: seq<bool>) {
    forall i :: 0 <= i < |m| ==> m[i]
  }

  /** `map == ~gen_block_mask (l)` */
  predicate AllIdle(m: seq<bool>, l: int) {
    forall i :: 0 <= i < |m| ==> (m[i] <==> i >= Slots(l))
  }

  function Word(m: seq<bool>): int {
    if m == [] then 0 else (if m[0] then 1 else 0) + 2 * Word(m[1..])
  }

  /** The union of a page entry read as a number. */
  function AsNumber(p: Payload): int {
    match p
    case Block(n) => n
    case Busy(m) => Word(m)
  }

  /** The union of a page entry read as a busy map. */
  function AsMap(p: Payload): (m: seq<bool>)
    ensures p.Busy? ==> m == p.map_
  {
    match p
    case Busy(m) => m
    case Block(n) => seq(MAP_BITS, i requires i >= 0 => n / Pow2(i) % 2 == 1)
  }

  /** A map of slots, whose bits above the last slot are set, with at least one slot in use. */
  ghost predicate SlotMap(m: seq<bool>, l: int) {
    && |m| == MAP_BITS
    && (forall i :: Slots(l) <= i < MAP_BITS ==> m[i])
    && (exists i :: 0 <= i < Slots(l) && m[i])
  }

  // ---------- Pages ----------

  /** What a page is for: nothing, the blocks of a bucket, the start of a multi-page block, or the rest of it. */
  datatype Use = Idle | Slotted(l: int) | Head(n: int) | Tail(h: int)

  ghost predicate UseAt(use: seq<Use>, p: int)
    requires 0 <= p < |use|
  {
    match use[p]
    case Idle => true
    case Slotted(l) => IsLog2(l)
    case Head(n) => n > 0 && p + n <= |use| && forall q :: p < q < p + n ==> use[q] == Tail(p)
    case Tail(h) => 0 <= h < p && use[h].Head? && p < h + use[h].n
  }

  /** The pages of multi-page blocks are contiguous, and no page belongs to two blocks. */
  ghost predicate UseOk(use: seq<Use>) {
    forall p {:trigger UseAt(use, p)} :: 0 <= p < |use| ==> UseAt(use, p)
  }

  function PageAddr(base: Addr, p: int): Addr {
    base + p * PAGE_SIZE
  }

  ghost predicate FreeMatch(use: seq<Use>, r: Ranges, base: Addr) {
    forall p {:trigger use[p]} :: 0 <= p < |use| ==> (use[p].Idle? <==> Free(r, PageAddr(base, p)))
  }

  ghost predicate RingsMatch(rings: seq<seq<int>>, use: seq<Use>) {
    && |rings| == MAX_BUCKETS
    && (forall k, p :: 0 <= k < MAX_BUCKETS && 0 <= p < |use| ==> (p in rings[k] <==> use[p] == Slotted(k + MIN_LOG2)))
  }

  ghost predicate EntryOk(e: PageEntry, u: Use, checked: bool) {
    match u
    case Idle => checked ==> e.typ == PAGE_FREE
    case Slotted(l) => e.typ == l && e.payload.Busy? && SlotMap(e.payload.map_, l)
    case Head(n) => e.typ == PAGE_LIST && e.payload == Block(n * PAGE_SIZE)
    case Tail(h) => checked ==> e.typ == PAGE_CONT
  }

  ghost predicate EntriesOk(e: seq<PageEntry>, use: seq<Use>, checked: bool) {
    |e| == |use| && forall p :: 0 <= p < |use| ==> EntryOk(e[p], use[p], checked)
  }

  // ---------- Blocks ----------

  function PageOf(a: Addr, base: Addr): int {
    (a - base) / PAGE_SIZE
  }

  function SlotOf(a: Addr, base: Addr, l: int): int {
    (a - base) % PAGE_SIZE / Size(l)
  }

  function SlotAddr(base: Addr, p: int, s: int, l: int): Addr {
    PageAddr(base, p) + s * Size(l)
  }

  ghost predicate SlotBusy(e: PageEntry, s: int) {
    e.payload.Busy? && 0 <= s < |e.payload.map_| && e.payload.map_[s]
  }

  ghost predicate SlotLive(e: PageEntry, s: int, l: int) {
    0 <= s < Slots(l) && SlotBusy(e, s)
  }

  /** `a` is the address of a block that has been handed out. */
  ghost predicate IsLive(a: Addr, use: seq<Use>, e: seq<PageEntry>, base: Addr)
    requires |e| == |use|
  {
    var p := PageOf(a, base);
    && 0 <= p < |use|
    && match use[p] {
         case Idle => false
         case Tail(_) => false
         case Head(n) => a == PageAddr(base, p)
         case Slotted(l) => var s := SlotOf(a, base, l); a == SlotAddr(base, p, s, l) && SlotLive(e[p], s, l)
       }
  }

  /** The size of the block at a live address. */
  ghost function SizeAt(a: Addr, use: seq<Use>, base: Addr): int {
    var p := PageOf(a, base);
    if 0 <= p < |use| then
      match use[p]
      case Head(n) => n * PAGE_SIZE
      case Slotted(l) => Size(l)
      case _ => 0
    else 0
  }

  /** `live` maps every live block to its size. */
  ghost predicate LiveMatch(live: map<Addr, int>, use: seq<Use>, e: seq<PageEntry>, base: Addr) {
    && |e| == |use|
    && (forall a :: a in live <==> IsLive(a, use, e, base))
    && (forall a :: a in live ==> live[a] == SizeAt(a, use, base))
  }

  /** How the data structures of the heap describe the same pages and blocks. */
  ghost predicate Consistent(use: seq<Use>, r: Ranges, rings: seq<seq<int>>, e: seq<PageEntry>, live: map<Addr, int>,
                             base: Addr, checked: bool)
  {
    && UseOk(use) && FreeMatch(use, r, base) && RingsMatch(rings, use)
    && EntriesOk(e, use, checked) && LiveMatch(live, use, e, base)
  }

  lemma {:induction false} PageAddrOf(base: Addr, p: int)
    ensures PageOf(PageAddr(base, p), base) == p
  {
  }

  lemma {:induction false} SlotAddrOf(base: Addr, p: int, s: int, l: int)
    requires IsLog2(l) && 0 <= s < Slots(l)
    ensures PageOf(SlotAddr(base, p, s, l), base) == p && SlotOf(SlotAddr(base, p, s, l), base, l) == s
  {
    var o := s * Size(l);
    assert 0 <= o < PAGE_SIZE;
    assert (SlotAddr(base, p, s, l) - base) % PAGE_SIZE == o;
  }

  // ---------- Sizes of live blocks ----------

  ghost function Total(live: map<Addr, int>): int {
    if forall a :: a !in live then 0 else var a :| a in live; live[a] + Total(live - {a})
  }

  lemma {:induction false} TotalDrop(live: map<Addr, int>, a: Addr)
    requires a in live
    ensures Total(live) == live[a] + Total(live - {a})
    decreases |live|
  {
    assert !forall b :: b !in live;
    var b :| b in live && Total(live) == live[b] + Total(live - {b});
    if b != a {
      TotalDrop(live - {b}, a);
      TotalDrop(live - {a}, b);
      assert live - {b} - {a} == live - {a} - {b};
    }
  }

  lemma {:induction false} TotalAdd(live: map<Addr, int>, a: Addr, n: int)
    requires a !in live
    ensures Total(live[a := n]) == Total(live) + n
  {
    TotalDrop(live[a := n], a);
    assert live[a := n] - {a} == live;
  }

  lemma {:induction false} TotalNone()
    ensures Total(map[]) == 0
  {
  }

  // ---------- Steps ----------

  /** The same types and payloads: only links may differ. */
  ghost predicate SameBodies(e: seq<PageEntry>, e': seq<PageEntry>) {
    |e'| == |e| && forall p :: 0 <= p < |e| ==> e'[p].typ == e[p].typ && e'[p].payload == e[p].payload
  }

  lemma {:induction false} BodiesKeep(e: seq<PageEntry>, e': seq<PageEntry>, use: seq<Use>, live: map<Addr, int>,
                                      base: Addr, checked: bool)
    requires SameBodies(e, e') && EntriesOk(e, use, checked) && LiveMatch(live, use, e, base)
    ensures EntriesOk(e', use, checked) && LiveMatch(live, use, e', base)
  {
    forall p | 0 <= p < |use| ensures EntryOk(e'[p], use[p], checked) {
      assert EntryOk(e[p], use[p], checked);
    }
    forall a ensures IsLive(a, use, e, base) <==> IsLive(a, use, e', base) {
    }
  }

  /** Slot `b` of page `p` is handed out. */
  lemma {:induction false} SlotTaken(e: seq<PageEntry>, use: seq<Use>, live: map<Addr, int>, base: Addr, checked: bool,
                                     p: int, b: int, l: int)
    requires EntriesOk(e, use, checked) && LiveMatch(live, use, e, base) && UseOk(use)
    requires 0 <= p < |use| && use[p] == Slotted(l) && 0 <= b < MAP_BITS
    requires e[p].payload.Busy? && |e[p].payload.map_| == MAP_BITS && !e[p].payload.map_[b]
    ensures var e' := e[p := e[p].(payload := Busy(e[p].payload.map_[b := true]))];
            var a := SlotAddr(base, p, b, l);
            && EntriesOk(e', use, checked) && a !in live && LiveMatch(live[a := Size(l)], use, e', base)
  {
    var m := e[p].payload.map_[b := true];
    var e' := e[p := e[p].(payload := Busy(m))];
    var a := SlotAddr(base, p, b, l);
    assert UseAt(use, p);
    assert EntryOk(e[p], use[p], checked);
    assert b < Slots(l);
    SlotAddrOf(base, p, b, l);
    assert SlotMap(m, l) by {
      var i :| 0 <= i < Slots(l) && e[p].payload.map_[i];
      assert m[i];
    }
    forall q | 0 <= q < |use| ensures EntryOk(e'[q], use[q], checked) {
      assert EntryOk(e[q], use[q], checked);
    }
    forall x ensures IsLive(x, use, e', base) <==> x == a || IsLive(x, use, e, base) {
    }
  }

  /** Slot `b` of page `p` comes back, and the page still has a live slot. */
  lemma {:induction false} SlotGiven(e: seq<PageEntry>, use: seq<Use>, live: map<Addr, int>, base: Addr, checked: bool,
                                     p: int, b: int, l: int)
    requires EntriesOk(e, use, checked) && LiveMatch(live, use, e, base) && UseOk(use)
    requires 0 <= p < |use| && use[p] == Slotted(l) && SlotLive(e[p], b, l)
    requires !AllIdle(e[p].payload.map_[b := false], l)
    ensures var e' := e[p := e[p].(payload := Busy(e[p].payload.map_[b := false]))];
            var a := SlotAddr(base, p, b, l);
            && EntriesOk(e', use, checked) && a in live && live[a] == Size(l) && LiveMatch(live - {a}, use, e', base)
  {
    var m := e[p].payload.map_[b := false];
    var e' := e[p := e[p].(payload := Busy(m))];
    var a := SlotAddr(base, p, b, l);
    assert UseAt(use, p);
    assert EntryOk(e[p], use[p], checked);
    SlotAddrOf(base, p, b, l);
    assert SlotMap(m, l);
    forall q | 0 <= q < |use| ensures EntryOk(e'[q], use[q], checked) {
      assert EntryOk(e[q], use[q], checked);
    }
    forall x ensures IsLive(x, use, e', base) <==> x != a && IsLive(x, use, e, base) {
    }
  }

  /** Pages [p, p + n) change use. */
  ghost function SetRun(use: seq<Use>, p: int, n: int, first: Use, rest: Use): (r: seq<Use>)
    ensures |r| == |use|
  {
    seq(|use|, i requires 0 <= i < |use| => if i == p then first else if p < i < p + n then rest else use[i])
  }

  ghost predicate RunIdle(use: seq<Use>, p: int, n: int) {
    0 <= p && 0 < n && p + n <= |use| && forall q :: p <= q < p + n ==> use[q].Idle?
  }

  /** Entries outside [p, p + n) keep their type and payload. */
  ghost predicate BodiesOutside(e: seq<PageEntry>, e': seq<PageEntry>, p: int, n: int) {
    && |e'| == |e|
    && forall q :: 0 <= q < |e| && !(p <= q < p + n) ==> e'[q].typ == e[q].typ && e'[q].payload == e[q].payload
  }

  /** Blocks outside a run stay as they are. */
  lemma {:induction false} LiveOutside(e: seq<PageEntry>, e': seq<PageEntry>, use: seq<Use>, base: Addr,
                                       p: int, n: int, first: Use, rest: Use, a: Addr)
    requires |e| == |use| && BodiesOutside(e, e', p, n) && 0 < n && !(p <= PageOf(a, base) < p + n)
    ensures var use' := SetRun(use, p, n, first, rest);
            && (IsLive(a, use', e', base) <==> IsLive(a, use, e, base))
            && SizeAt(a, use', base) == SizeAt(a, use, base)
  {
  }

  lemma {:induction false} EntriesOutside(e: seq<PageEntry>, e': seq<PageEntry>, use: seq<Use>, checked: bool,
                                          p: int, n: int, first: Use, rest: Use)
    requires EntriesOk(e, use, checked) && BodiesOutside(e, e', p, n) && 0 <= p && 0 < n && p + n <= |use|
    requires EntryOk(e'[p], first, checked)
    requires forall q :: p < q < p + n ==> EntryOk(e'[q], rest, checked)
    ensures EntriesOk(e', SetRun(use, p, n, first, rest), checked)
  {
    forall q | 0 <= q < |use| ensures EntryOk(e'[q], SetRun(use, p, n, first, rest)[q], checked) {
      assert EntryOk(e[q], use[q], checked);
    }
  }

  /** A block of `n` pages is handed out. */
  lemma {:induction false} RunTaken(e: seq<PageEntry>, e': seq<PageEntry>, use: seq<Use>, live: map<Addr, int>,
                                    base: Addr, checked: bool, p: int, n: int)
    requires EntriesOk(e, use, checked) && LiveMatch(live, use, e, base) && RunIdle(use, p, n)
    requires BodiesOutside(e, e', p, n) && e'[p].typ == PAGE_LIST && e'[p].payload == Block(n * PAGE_SIZE)
    requires checked ==> forall q :: p < q < p + n ==> e'[q].typ == PAGE_CONT
    ensures var use', a := SetRun(use, p, n, Head(n), Tail(p)), PageAddr(base, p);
            && EntriesOk(e', use', checked) && a !in live && LiveMatch(live[a := n * PAGE_SIZE], use', e', base)
  {
    var use', a := SetRun(use, p, n, Head(n), Tail(p)), PageAddr(base, p);
    EntriesOutside(e, e', use, checked, p, n, Head(n), Tail(p));
    PageAddrOf(base, p);
    forall x ensures (IsLive(x, use', e', base) <==> x == a || IsLive(x, use, e, base))
                     && (IsLive(x, use, e, base) ==> SizeAt(x, use', base) == SizeAt(x, use, base)) {
      if !(p <= PageOf(x, base) < p + n) {
        LiveOutside(e, e', use, base, p, n, Head(n), Tail(p), x);
      }
    }
  }

  /** The block that starts at page `p` comes back. */
  lemma {:induction false} RunGiven(e: seq<PageEntry>, e': seq<PageEntry>, use: seq<Use>, live: map<Addr, int>,
                                    base: Addr, checked: bool, p: int, n: int)
    requires EntriesOk(e, use, checked) && LiveMatch(live, use, e, base) && UseOk(use)
    requires 0 <= p < |use| && use[p] == Head(n)
    requires BodiesOutside(e, e', p, n)
    requires checked ==> forall q :: p <= q < p + n <= |e'| ==> e'[q].typ == PAGE_FREE
    ensures var use', a := SetRun(use, p, n, Idle, Idle), PageAddr(base, p);
            && EntriesOk(e', use', checked) && a in live && live[a] == n * PAGE_SIZE
            && LiveMatch(live - {a}, use', e', base)
  {
    var use', a := SetRun(use, p, n, Idle, Idle), PageAddr(base, p);
    assert UseAt(use, p);
    EntriesOutside(e, e', use, checked, p, n, Idle, Idle);
    PageAddrOf(base, p);
    forall x ensures (IsLive(x, use', e', base) <==> x != a && IsLive(x, use, e, base))
                     && (IsLive(x, use', e', base) ==> SizeAt(x, use', base) == SizeAt(x, use, base)) {
      if !(p <= PageOf(x, base) < p + n) {
        LiveOutside(e, e', use, base, p, n, Idle, Idle, x);
      }
    }
  }

  /** A free page joins a bucket, with its first slot handed out. */
  lemma {:induction false} PageSlotted(e: seq<PageEntry>, e': seq<PageEntry>, use: seq<Use>, live: map<Addr, int>,
                                       base: Addr, checked: bool, p: int, l: int)
    requires EntriesOk(e, use, checked) && LiveMatch(live, use, e, base) && RunIdle(use, p, 1) && IsLog2(l)
    requires BodiesOutside(e, e', p, 1) && e'[p].typ == l && e'[p].payload == Busy(FreshMap(l))
    ensures var use', a := SetRun(use, p, 1, Slotted(l), Idle), PageAddr(base, p);
            && EntriesOk(e', use', checked) && a !in live && LiveMatch(live[a := Size(l)], use', e', base)
  {
    var use', a := SetRun(use, p, 1, Slotted(l), Idle), PageAddr(base, p);
    assert FreshMap(l)[0];
    EntriesOutside(e, e', use, checked, p, 1, Slotted(l), Idle);
    SlotAddrOf(base, p, 0, l);
    assert a == SlotAddr(base, p, 0, l);
    forall x ensures (IsLive(x, use', e', base) <==> x == a || IsLive(x, use, e, base))
                     && (IsLive(x, use, e, base) ==> SizeAt(x, use', base) == SizeAt(x, use, base)) {
      if PageOf(x, base) != p {
        LiveOutside(e, e', use, base, p, 1, Slotted(l), Idle, x);
      }
    }
  }

  /** The last live slot of a page comes back, and the page is released. */
  lemma {:induction false} PageIdle(e: seq<PageEntry>, e': seq<PageEntry>, use: seq<Use>, live: map<Addr, int>,
                                    base: Addr, checked: bool, p: int, b: int, l: int)
    requires EntriesOk(e, use, checked) && LiveMatch(live, use, e, base) && UseOk(use)
    requires 0 <= p < |use| && use[p] == Slotted(l) && SlotLive(e[p], b, l)
    requires AllIdle(e[p].payload.map_[b := false], l)
    requires BodiesOutside(e, e', p, 1) && (checked ==> e'[p].typ == PAGE_FREE)
    ensures var use', a := SetRun(use, p, 1, Idle, Idle), SlotAddr(base, p, b, l);
            && EntriesOk(e', use', checked) && a in live && live[a] == Size(l) && LiveMatch(live - {a}, use', e', base)
  {
    var use', a := SetRun(use, p, 1, Idle, Idle), SlotAddr(base, p, b, l);
    assert UseAt(use, p);
    assert EntryOk(e[p], use[p], checked);
    EntriesOutside(e, e', use, checked, p, 1, Idle, Idle);
    SlotAddrOf(base, p, b, l);
    forall x ensures (IsLive(x, use', e', base) <==> x != a && IsLive(x, use, e, base))
                     && (IsLive(x, use', e', base) ==> SizeAt(x, use', base) == SizeAt(x, use, base)) {
      if PageOf(x, base) != p {
        LiveOutside(e, e', use, base, p, 1, Idle, Idle, x);
      } else {
        var s := SlotOf(x, base, l);
        assert s != b && 0 <= s < Slots(l) ==> !e[p].payload.map_[b := false][s];
      }
    }
  }

  // ---------- Shape of the runs ----------

  lemma {:induction false} UseTaken(use: seq<Use>, p: int, n: int)
    requires UseOk(use) && RunIdle(use, p, n)
    ensures UseOk(SetRun(use, p, n, Head(n), Tail(p)))
  {
    var use' := SetRun(use, p, n, Head(n), Tail(p));
    forall q | 0 <= q < |use| ensures UseAt(use', q) {
      assert UseAt(use, q);
      if use[q].Tail? {
        assert UseAt(use, use[q].h);
        assert use[use[q].h].Head? && !(p <= use[q].h < p + n);
      } else if use[q].Head? {
        assert forall k :: q < k < q + use[q].n ==> use[k] == Tail(q) && use'[k] == use[k];
      }
    }
  }

  lemma {:induction false} UseSlotted(use: seq<Use>, p: int, l: int)
    requires UseOk(use) && RunIdle(use, p, 1) && IsLog2(l)
    ensures UseOk(SetRun(use, p, 1, Slotted(l), Idle))
  {
    forall q | 0 <= q < |use| ensures UseAt(SetRun(use, p, 1, Slotted(l), Idle), q) {
      assert UseAt(use, q);
    }
  }

  lemma {:induction false} UseGiven(use: seq<Use>, p: int, n: int)
    requires UseOk(use) && 0 <= p < |use|
    requires use[p] == Head(n) || (use[p].Slotted? && n == 1)
    ensures UseOk(SetRun(use, p, n, Idle, Idle))
  {
    var use' := SetRun(use, p, n, Idle, Idle);
    assert UseAt(use, p);
    forall q | 0 <= q < |use| && !(p <= q < p + n) ensures UseAt(use', q) {
      assert UseAt(use, q) && use'[q] == use[q];
      if use[q].Head? {
        forall k | q < k < q + use[q].n ensures use'[k] == Tail(q) {
          assert use[k] == Tail(q) && !(p <= k < p + n);
        }
      } else if use[q].Tail? {
        assert UseAt(use, use[q].h) && !(p <= use[q].h < p + n);
      }
    }
  }

  // ---------- Free pages ----------

  lemma {:induction false} PageInside(base: Addr, p: int, n: int, q: int)
    ensures Inside(PageAddr(base, q), PageAddr(base, p), n * PAGE_SIZE) <==> p <= q < p + n
  {
  }

  lemma {:induction false} FreeTaken(use: seq<Use>, r: Ranges, r': Ranges, base: Addr, p: int, n: int, first: Use,
                                     rest: Use)
    requires FreeMatch(use, r, base) && 0 <= p && 0 < n && p + n <= |use| && !first.Idle? && (n > 1 ==> !rest.Idle?)
    requires PagesTaken(r, r', PageAddr(base, p), n * PAGE_SIZE)
    ensures FreeMatch(SetRun(use, p, n, first, rest), r', base)
  {
    hide Free, Inside;
    var use' := SetRun(use, p, n, first, rest);
    forall q | 0 <= q < |use| ensures use'[q].Idle? <==> Free(r', PageAddr(base, q)) {
      PageInside(base, p, n, q);
      assert use[q].Idle? <==> Free(r, PageAddr(base, q));
    }
  }

  lemma {:induction false} FreeGiven(use: seq<Use>, r: Ranges, r': Ranges, base: Addr, p: int, n: int)
    requires FreeMatch(use, r, base) && 0 <= p && 0 < n && p + n <= |use|
    requires PagesGiven(r, r', PageAddr(base, p), n * PAGE_SIZE)
    ensures FreeMatch(SetRun(use, p, n, Idle, Idle), r', base)
  {
    hide Free, Inside;
    var use' := SetRun(use, p, n, Idle, Idle);
    forall q | 0 <= q < |use| ensures use'[q].Idle? <==> Free(r', PageAddr(base, q)) {
      PageInside(base, p, n, q);
      assert use[q].Idle? <==> Free(r, PageAddr(base, q));
    }
  }

  lemma {:induction false} FreeRun(use: seq<Use>, r: Ranges, r': Ranges, base: Addr, p: int, n: int)
    requires FreeMatch(use, r, base) && 0 <= p && 0 < n && p + n <= |use|
        && PagesTaken(r, r', PageAddr(base, p), n * PAGE_SIZE)
    ensures RunIdle(use, p, n)
  {
    forall q | p <= q < p + n ensures use[q].Idle? {
      PageInside(base, p, n, q);
      assert use[q].Idle? <==> Free(r, PageAddr(base, q));
    }
  }

  lemma {:induction false} WholeHolds(a: Addr, n: int, base: Addr, lim: Addr, x: Addr)
    requires WholePages(a, n, base, lim)
    ensures a <= x < a + n <==> a <= PageAddr(base, PageOf(x, base)) < a + n
  {
    var k, m, q := (a - base) / PAGE_SIZE, n / PAGE_SIZE, (x - base) / PAGE_SIZE;
    assert a == base + k * PAGE_SIZE && n == m * PAGE_SIZE;
    assert a <= x < a + n <==> k <= q < k + m;
  }

  /** A page is free as a whole or not at all. */
  lemma {:induction false} FreePage(r: Ranges, base: Addr, lim: Addr, x: Addr)
    requires AllWhole(r, base, lim)
    ensures Free(r, x) <==> Free(r, PageAddr(base, PageOf(x, base)))
  {
    hide WholePages;
    forall a | a in r ensures a <= x < a + r[a] <==> a <= PageAddr(base, PageOf(x, base)) < a + r[a] {
      WholeHolds(a, r[a], base, lim, x);
    }
  }

  lemma {:induction false} BusyRun(use: seq<Use>, r: Ranges, base: Addr, lim: Addr, p: int, n: int)
    requires FreeMatch(use, r, base) && AllWhole(r, base, lim) && 0 <= p && p + n <= |use|
    requires forall q :: p <= q < p + n ==> !use[q].Idle?
    ensures NoneFree(r, PageAddr(base, p), n * PAGE_SIZE)
  {
    forall x | Inside(x, PageAddr(base, p), n * PAGE_SIZE) ensures !Free(r, x) {
      FreePage(r, base, lim, x);
      var q := PageOf(x, base);
      assert p <= q < p + n;
      assert use[q].Idle? <==> Free(r, PageAddr(base, q));
    }
  }

  // ---------- Page lists ----------

  lemma {:induction false} ListedUse(rings: seq<seq<int>>, use: seq<Use>, p: int)
    requires RingsMatch(rings, use) && 0 <= p < |use| && !use[p].Slotted?
    ensures Unlisted(rings, p)
  {
  }

  lemma {:induction false} RingsSlotted(rings: seq<seq<int>>, use: seq<Use>, p: int, l: int, s: seq<int>)
    requires RingsMatch(rings, use) && 0 <= p < |use| && use[p].Idle? && IsLog2(l)
    requires forall q :: q in s <==> q in rings[l - MIN_LOG2] || q == p
    ensures RingsMatch(rings[l - MIN_LOG2 := s], SetRun(use, p, 1, Slotted(l), Idle))
  {
  }

  lemma {:induction false} RingsReordered(rings: seq<seq<int>>, use: seq<Use>, k: int, s: seq<int>)
    requires RingsMatch(rings, use) && 0 <= k < MAX_BUCKETS
    requires forall q :: q in s <==> q in rings[k]
    ensures RingsMatch(rings[k := s], use)
  {
  }

  lemma {:induction false} RingsDropped(rings: seq<seq<int>>, use: seq<Use>, p: int, l: int, s: seq<int>)
    requires RingsMatch(rings, use) && 0 <= p < |use| && use[p] == Slotted(l) && IsLog2(l)
    requires forall q :: q in s <==> q in rings[l - MIN_LOG2] && q != p
    ensures RingsMatch(rings[l - MIN_LOG2 := s], SetRun(use, p, 1, Idle, Idle))
  {
  }

  /** The pages of multi-page blocks are in no list. */
  lemma {:induction false} RingsElsewhere(rings: seq<seq<int>>, use: seq<Use>, p: int, n: int, first: Use, rest: Use)
    requires RingsMatch(rings, use) && 0 <= p && 0 < n && p + n <= |use| && !first.Slotted? && !rest.Slotted?
    requires forall q :: p <= q < p + n ==> !use[q].Slotted?
    ensures RingsMatch(rings, SetRun(use, p, n, first, rest))
  {
    forall k, q | 0 <= k < MAX_BUCKETS && 0 <= q < |use|
      ensures q in rings[k] <==> SetRun(use, p, n, first, rest)[q] == Slotted(k + MIN_LOG2) {
      assert q in rings[k] <==> use[q] == Slotted(k + MIN_LOG2);
    }
  }

  lemma {:induction false} HeadRun(use: seq<Use>, p: int, n: int)
    requires UseOk(use) && 0 <= p < |use| && use[p] == Head(n)
    ensures 0 < n && p + n <= |use| && forall q :: p <= q < p + n ==> !use[q].Idle? && !use[q].Slotted?
  {
    assert UseAt(use, p);
  }

  lemma {:induction false} SlottedPage(rings: seq<seq<int>>, use: seq<Use>, e: seq<PageEntry>, checked: bool, p: int,
                                       l: int)
    requires RingsMatch(rings, use) && EntriesOk(e, use, checked) && IsLog2(l)
    requires 0 <= p < |use| && (use[p] == Slotted(l) || p in rings[l - MIN_LOG2])
    ensures use[p] == Slotted(l) && p in rings[l - MIN_LOG2]
    ensures e[p].typ == l && e[p].payload.Busy? && SlotMap(e[p].payload.map_, l)
  {
    assert EntryOk(e[p], use[p], checked);
  }

  lemma {:induction false} LinksAreBodies(e: seq<PageEntry>, e': seq<PageEntry>, s: seq<int>)
    requires LinksOnly(e, e', s)
    ensures SameBodies(e, e')
  {
  }
}
