/** What a call of the allocator does, seen from the live blocks, the free ranges and the page lists (lib/heap.c). */
module HeapMoments {
  import opened Sequences
  import opened AvlShape
  import opened FreeRanges
  import opened PageRings
  import opened PageLists
  import opened HeapState

  /** The blocks, the free ranges and the page lists of the buckets, between two calls. */
  datatype Moment = Moment(live: map<Addr, int>, ranges: Ranges, rings: seq<seq<int>>)

  // ---------- Pages, seen from the live blocks ----------

  /** All the slots of the page are live. */
  ghost predicate PageFull(base: Addr, live: map<Addr, int>, p: int, l: int) {
    forall s :: 0 <= s < Slots(l) ==> SlotAddr(base, p, s, l) in live
  }

  /** No live block starts in the page. */
  ghost predicate PageEmpty(base: Addr, live: map<Addr, int>, p: int) {
    forall a :: a in live ==> PageOf(a, base) != p
  }

  /** `a` is the first slot of the page that is not live. */
  ghost predicate FirstSlot(base: Addr, live: map<Addr, int>, p: int, l: int, a: Addr) {
    var b := SlotOf(a, base, l);
    && 0 <= b < Slots(l) && a == SlotAddr(base, p, b, l) && a !in live
    && forall s :: 0 <= s < b ==> SlotAddr(base, p, s, l) in live
  }

  /** A live block meets the page at address `page`. */
  ghost predicate Met(live: map<Addr, int>, page: Addr) {
    exists a :: a in live && a < page + PAGE_SIZE && page < a + live[a]
  }

  /** A live block of the bucket's size starts in the page. */
  ghost predicate Slotting(base: Addr, live: map<Addr, int>, p: int, l: int) {
    exists a :: a in live && PageOf(a, base) == p && live[a] == Size(l)
  }

  /** The blocks that start in the pages `s` are slots of the bucket's size. */
  ghost predicate SlotsOnly(base: Addr, live: map<Addr, int>, s: seq<int>, l: int) {
    forall a :: a in live && PageOf(a, base) in s ==> live[a] == Size(l) && IsSlot(base, a, l)
  }

  ghost predicate IsSlot(base: Addr, a: Addr, l: int) {
    0 <= SlotOf(a, base, l) < Slots(l) && a == SlotAddr(base, PageOf(a, base), SlotOf(a, base, l), l)
  }

  /** `a` is the start of the upper `n` bytes of a best-fit range. */
  ghost predicate BestFitEnd(r: Ranges, n: int, a: Addr) {
    exists f :: Fittest(r, n, f) && a == f + r[f] - n
  }

  /** The bucket of a block size. */
  function Log2Of(n: int): (l: int)
    ensures IsLog2(l)
  {
    if n <= 16 then 4 else if n <= 32 then 5 else if n <= 64 then 6 else if n <= 128 then 7 else 8
  }

  lemma {:induction false} LogOfSize(l: int)
    requires IsLog2(l)
    ensures Log2Of(Size(l)) == l && Size(l) < PAGE_SIZE
  {
  }

  function Place(s: seq<int>, p: int): nat
    ensures if p in s then Place(s, p) < |s| && s[Place(s, p)] == p else Place(s, p) == |s|
  {
    if s == [] || s[0] == p then 0 else 1 + Place(s[1..], p)
  }

  lemma {:induction false} PlaceIs(s: seq<int>, i: nat)
    requires Distinct(s) && i < |s|
    ensures Place(s, s[i]) == i
  {
    assert s[i] in s;
  }

  // ---------- Calls ----------

  /** Neither the heading page of a bucket nor the page pool can serve a block of `bsize` bytes. */
  ghost predicate NoRoom(base: Addr, m: Moment, bsize: int)
    requires |m.rings| == MAX_BUCKETS
  {
    if bsize >= PAGE_SIZE then NoFit(m.ranges, bsize)
    else
      var s := m.rings[Log2Of(bsize) - MIN_LOG2];
      (s == [] || PageFull(base, m.live, s[0], Log2Of(bsize))) && NoFit(m.ranges, PAGE_SIZE)
  }

  /** The heading page, of which a slot was taken, goes last when that has filled it. */
  ghost function RingTaken(base: Addr, live: map<Addr, int>, s: seq<int>, l: int): seq<int>
    requires s != []
  {
    if PageFull(base, live, s[0], l) then RemoveAt(s, 0) + [s[0]] else s
  }

  /** A page that has lost its last block leaves the list; one that was full becomes its head. */
  ghost function RingFreed(base: Addr, live: map<Addr, int>, live': map<Addr, int>, s: seq<int>, p: int,
                           l: int): seq<int>
  {
    var i := Place(s, p);
    if i >= |s| then s
    else if PageEmpty(base, live', p) then RemoveAt(s, i)
    else if PageFull(base, live, p, l) && i != 0 then AddedFront(RemoveAt(s, i), p)
    else s
  }

  ghost predicate Added(m: Moment, a: Addr, bsize: int, m': Moment) {
    a != NULL && a !in m.live && m'.live == m.live[a := bsize]
  }

  /** An allocation of `bsize` bytes: where the block comes from, and what becomes of the page lists. */
  ghost predicate AllocStep(base: Addr, m: Moment, bsize: int, a: Addr, m': Moment) {
    && |m.rings| == MAX_BUCKETS
    && if NoRoom(base, m, bsize) then a == NULL && m' == m
       else if bsize >= PAGE_SIZE then
         BestFitEnd(m.ranges, bsize, a) && Added(m, a, bsize, m') && m'.rings == m.rings
       else
         var l := Log2Of(bsize);
         var k := l - MIN_LOG2;
         var s := m.rings[k];
         if s != [] && !PageFull(base, m.live, s[0], l) then
           FirstSlot(base, m.live, s[0], l, a) && Added(m, a, bsize, m')
           && m'.rings == m.rings[k := RingTaken(base, m'.live, s, l)]
         else
           BestFitEnd(m.ranges, PAGE_SIZE, a) && Added(m, a, bsize, m')
           && m'.rings == m.rings[k := AddedFront(s, PageOf(a, base))]
  }

  /** A free of the live block at `a`. */
  ghost predicate FreeStep(base: Addr, m: Moment, a: Addr, m': Moment) {
    && |m.rings| == MAX_BUCKETS && a in m.live && m'.live == m.live - {a}
    && if m.live[a] >= PAGE_SIZE then m'.rings == m.rings
       else
         var l := Log2Of(m.live[a]);
         var k := l - MIN_LOG2;
         m'.rings == m.rings[k := RingFreed(base, m.live, m'.live, m.rings[k], PageOf(a, base), l)]
  }

  /**
   * Free ranges and page lists agree with the live blocks: a page is free exactly when no block meets it, and listed
   * exactly when it holds blocks of the bucket's size, and then no other blocks.
   */
  ghost predicate MomentOk(base: Addr, lim: Addr, m: Moment) {
    && |m.rings| == MAX_BUCKETS && Coalesced(m.ranges, base, lim)
    && (forall p :: 0 <= p < PageOf(lim, base) ==>
          (Free(m.ranges, PageAddr(base, p)) <==> !Met(m.live, PageAddr(base, p))))
    && (forall k :: 0 <= k < MAX_BUCKETS ==> Distinct(m.rings[k]))
    && (forall k, p :: 0 <= k < MAX_BUCKETS ==> (p in m.rings[k] <==> Slotting(base, m.live, p, k + MIN_LOG2)))
    && (forall k :: 0 <= k < MAX_BUCKETS ==> SlotsOnly(base, m.live, m.rings[k], k + MIN_LOG2))
    && (forall a :: a in m.live ==> m.live[a] > 0)
  }

  /** The live blocks determine the free ranges. */
  lemma {:induction false} RangesDetermined(base: Addr, lim: Addr, m: Moment, m': Moment)
    requires MomentOk(base, lim, m) && MomentOk(base, lim, m') && m.live == m'.live
    ensures m.ranges == m'.ranges
  {
    hide Free, Met, Slotting, SlotsOnly;
    forall x ensures Free(m.ranges, x) <==> Free(m'.ranges, x) {
      FreePage(m.ranges, base, lim, x);
      FreePage(m'.ranges, base, lim, x);
      var p := PageOf(x, base);
      if 0 <= p < PageOf(lim, base) {
        assert Free(m.ranges, PageAddr(base, p)) <==> !Met(m.live, PageAddr(base, p));
        assert Free(m'.ranges, PageAddr(base, p)) <==> !Met(m.live, PageAddr(base, p));
      } else {
        NotFreeOutside(m.ranges, base, lim, x);
        NotFreeOutside(m'.ranges, base, lim, x);
      }
    }
    Canonical(m.ranges, m'.ranges, base, lim);
  }

  lemma {:induction false} NotFreeOutside(r: Ranges, base: Addr, lim: Addr, x: Addr)
    requires AllWhole(r, base, lim) && !(0 <= PageOf(x, base) < PageOf(lim, base))
    ensures !Free(r, x)
  {
    forall a | a in r ensures !(a <= x < a + r[a]) {
      assert WholePages(a, r[a], base, lim);
    }
  }

  /** An allocation with a given reply leaves the heap in one state only. */
  lemma {:induction false} AllocDetermined(base: Addr, lim: Addr, m: Moment, bsize: int, a: Addr, m1: Moment,
                                           m2: Moment)
    requires AllocStep(base, m, bsize, a, m1) && AllocStep(base, m, bsize, a, m2)
    requires MomentOk(base, lim, m1) && MomentOk(base, lim, m2)
    ensures m1 == m2
  {
    hide MomentOk, PageFull, FirstSlot, BestFitEnd, NoRoom;
    RangesDetermined(base, lim, m1, m2);
  }

  /** So does a free. */
  lemma {:induction false} FreeDetermined(base: Addr, lim: Addr, m: Moment, a: Addr, m1: Moment, m2: Moment)
    requires FreeStep(base, m, a, m1) && FreeStep(base, m, a, m2)
    requires MomentOk(base, lim, m1) && MomentOk(base, lim, m2)
    ensures m1 == m2
  {
    hide MomentOk, RingFreed;
    RangesDetermined(base, lim, m1, m2);
  }

  // ---------- Busy maps and live blocks ----------

  lemma {:induction false} SlotBit(use: seq<Use>, r: Ranges, rings: seq<seq<int>>, e: seq<PageEntry>,
                                   live: map<Addr, int>, base: Addr, checked: bool, p: int, l: int, s: int)
    requires Consistent(use, r, rings, e, live, base, checked)
    requires 0 <= p < |use| && use[p] == Slotted(l) && IsLog2(l) && 0 <= s < Slots(l)
    ensures |e| == |use| && e[p].payload.Busy? && |e[p].payload.map_| == MAP_BITS
    ensures e[p].payload.map_[s] <==> SlotAddr(base, p, s, l) in live
  {
    assert EntryOk(e[p], use[p], checked);
    SlotAddrOf(base, p, s, l);
    assert SlotAddr(base, p, s, l) in live <==> IsLive(SlotAddr(base, p, s, l), use, e, base);
  }

  /** The upper bits of the map of a page are set. */
  lemma {:induction false} UpperBits(use: seq<Use>, r: Ranges, rings: seq<seq<int>>, e: seq<PageEntry>,
                                     live: map<Addr, int>, base: Addr, checked: bool, p: int, l: int)
    requires Consistent(use, r, rings, e, live, base, checked)
    requires 0 <= p < |use| && use[p] == Slotted(l)
    ensures |e| == |use| && e[p].payload.Busy? && |e[p].payload.map_| == MAP_BITS
    ensures forall s :: Slots(l) <= s < MAP_BITS ==> e[p].payload.map_[s]
  {
    assert EntryOk(e[p], use[p], checked);
  }

  /** A busy map is all ones exactly when all the slots of the page are live. */
  lemma {:induction false} FullPage(use: seq<Use>, r: Ranges, rings: seq<seq<int>>, e: seq<PageEntry>,
                                    live: map<Addr, int>, base: Addr, checked: bool, p: int, l: int)
    requires Consistent(use, r, rings, e, live, base, checked)
    requires 0 <= p < |use| && use[p] == Slotted(l) && IsLog2(l)
    ensures |e| == |use| && (AllBusy(AsMap(e[p].payload)) <==> PageFull(base, live, p, l))
  {
    hide Consistent, SlotAddr;
    UpperBits(use, r, rings, e, live, base, checked, p, l);
    forall s | 0 <= s < Slots(l) ensures e[p].payload.map_[s] <==> SlotAddr(base, p, s, l) in live {
      SlotBit(use, r, rings, e, live, base, checked, p, l, s);
    }
  }

  /** Clearing bit `n` leaves no slot busy exactly when the block of that slot was the only one in the page. */
  lemma {:induction false} EmptyPage(use: seq<Use>, r: Ranges, rings: seq<seq<int>>, e: seq<PageEntry>,
                                     live: map<Addr, int>, base: Addr, checked: bool, p: int, l: int, n: int)
    requires Consistent(use, r, rings, e, live, base, checked)
    requires 0 <= p < |use| == |e| && use[p] == Slotted(l) && IsLog2(l) && 0 <= n < Slots(l)
    requires e[p].payload.Busy? && |e[p].payload.map_| == MAP_BITS
    ensures AllIdle(e[p].payload.map_[n := false], l) <==> PageEmpty(base, live - {SlotAddr(base, p, n, l)}, p)
  {
    var live' := live - {SlotAddr(base, p, n, l)};
    UpperBits(use, r, rings, e, live, base, checked, p, l);
    if PageEmpty(base, live', p) {
      forall s | 0 <= s < Slots(l) && s != n ensures !e[p].payload.map_[s] {
        SlotAddrOf(base, p, s, l);
        SlotAddrOf(base, p, n, l);
        SlotBit(use, r, rings, e, live, base, checked, p, l, s);
      }
    }
    if AllIdle(e[p].payload.map_[n := false], l) {
      forall a | a in live' ensures PageOf(a, base) != p {
        assert a in live && IsLive(a, use, e, base);
        assert PageOf(a, base) == p ==> SlotLive(e[p], SlotOf(a, base, l), l);
        assert forall s :: 0 <= s < Slots(l) && s != n ==> e[p].payload.map_[n := false][s] == e[p].payload.map_[s];
        assert PageOf(a, base) == p ==> SlotOf(a, base, l) == n;
      }
    }
  }

  /** The first clear bit is the first slot that is not live. */
  lemma {:induction false} FirstBit(use: seq<Use>, r: Ranges, rings: seq<seq<int>>, e: seq<PageEntry>,
                                    live: map<Addr, int>, base: Addr, checked: bool, p: int, l: int, b: int)
    requires Consistent(use, r, rings, e, live, base, checked)
    requires 0 <= p < |use| == |e| && use[p] == Slotted(l) && IsLog2(l) && 0 <= b < MAP_BITS
    requires e[p].payload.Busy? && |e[p].payload.map_| == MAP_BITS && !e[p].payload.map_[b]
    requires forall s :: 0 <= s < b ==> e[p].payload.map_[s]
    ensures FirstSlot(base, live, p, l, SlotAddr(base, p, b, l))
  {
    hide Consistent, SlotAddr;
    UpperBits(use, r, rings, e, live, base, checked, p, l);
    assert b < Slots(l);
    SlotAddrOf(base, p, b, l);
    SlotBit(use, r, rings, e, live, base, checked, p, l, b);
    forall s | 0 <= s < b ensures SlotAddr(base, p, s, l) in live {
      SlotBit(use, r, rings, e, live, base, checked, p, l, s);
    }
  }
}
