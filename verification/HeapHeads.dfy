/**
 * The heading page of a bucket: lib/heap.c:1026-1031 assumes that no page of the list has room when that one is full.
 * Which calls keep this so, and a run after which it is not.
 */
module HeapHeads {
  import opened Sequences
  import opened AvlShape
  import opened FreeRanges
  import opened PageRings
  import opened PageLists
  import opened HeapState
  import opened HeapMoments
  import opened HeapSizes
  import opened Heap

  /** A full heading page means that the whole list is full. */
  ghost predicate HeadTells(base: Addr, live: map<Addr, int>, s: seq<int>, l: int) {
    s != [] && PageFull(base, live, s[0], l) ==> forall i :: 0 <= i < |s| ==> PageFull(base, live, s[i], l)
  }

  /** The second page of the list is full, and a later one is not. */
  ghost predicate RoomBehind(base: Addr, live: map<Addr, int>, s: seq<int>, l: int) {
    |s| > 1 && PageFull(base, live, s[1], l) && exists i :: 2 <= i < |s| && !PageFull(base, live, s[i], l)
  }

  /** Only the slot at `a` is left in the heading page. */
  ghost predicate LastSlot(base: Addr, live: map<Addr, int>, s: seq<int>, l: int, a: Addr) {
    s != [] && FirstSlot(base, live, s[0], l, a) && PageFull(base, live[a := Size(l)], s[0], l)
  }

  /** The block at `a` is the only one in the heading page. */
  ghost predicate LastBlock(base: Addr, live: map<Addr, int>, s: seq<int>, a: Addr) {
    s != [] && PageOf(a, base) == s[0] && PageEmpty(base, live - {a}, s[0])
  }

  ghost predicate SameBut(live: map<Addr, int>, live': map<Addr, int>, a: Addr) {
    forall x :: x != a ==> (x in live <==> x in live')
  }

  // ---------- Pages that a call leaves alone ----------

  lemma {:induction false} FullElsewhere(base: Addr, live: map<Addr, int>, live': map<Addr, int>, a: Addr, p: int,
                                         l: int)
    requires SameBut(live, live', a) && IsLog2(l) && PageOf(a, base) != p
    ensures PageFull(base, live, p, l) <==> PageFull(base, live', p, l)
  {
    forall s | 0 <= s < Slots(l) ensures SlotAddr(base, p, s, l) in live <==> SlotAddr(base, p, s, l) in live' {
      SlotAddrOf(base, p, s, l);
    }
  }

  lemma {:induction false} TellsElsewhere(base: Addr, live: map<Addr, int>, live': map<Addr, int>, a: Addr,
                                          s: seq<int>, l: int)
    requires SameBut(live, live', a) && IsLog2(l) && PageOf(a, base) !in s
    ensures HeadTells(base, live, s, l) <==> HeadTells(base, live', s, l)
  {
    hide PageFull;
    forall i | 0 <= i < |s| ensures PageFull(base, live, s[i], l) <==> PageFull(base, live', s[i], l) {
      assert s[i] in s;
      FullElsewhere(base, live, live', a, s[i], l);
    }
  }

  /** A page holds at least two slots. */
  lemma {:induction false} OneIsNotFull(base: Addr, live: map<Addr, int>, a: Addr, p: int, l: int)
    requires IsLog2(l) && PageEmpty(base, live - {a}, p)
    ensures !PageFull(base, live, p, l)
  {
    SlotAddrOf(base, p, 0, l);
    SlotAddrOf(base, p, 1, l);
    assert SlotAddr(base, p, 0, l) == a || SlotAddr(base, p, 0, l) !in live;
    assert SlotAddr(base, p, 1, l) == a || SlotAddr(base, p, 1, l) !in live;
  }

  lemma {:induction false} NoSlot(base: Addr, live: map<Addr, int>, s: seq<int>, l: int, a: Addr)
    requires s == [] || PageFull(base, live, s[0], l)
    ensures !LastSlot(base, live, s, l, a)
  {
  }

  /** A page taken from the pool holds no block, and is in no list. */
  lemma {:induction false} FreshPage(base: Addr, lim: Addr, m: Moment, n: int, a: Addr)
    requires MomentOk(base, lim, m) && BestFitEnd(m.ranges, n, a) && n > 0 && n % PAGE_SIZE == 0
    ensures PageEmpty(base, m.live, PageOf(a, base)) && PageAddr(base, PageOf(a, base)) == a
    ensures 0 <= PageOf(a, base) < PageOf(lim, base)
    ensures forall k :: 0 <= k < MAX_BUCKETS ==> PageOf(a, base) !in m.rings[k]
  {
    var f :| Fittest(m.ranges, n, f) && a == f + m.ranges[f] - n;
    assert WholePages(f, m.ranges[f], base, lim);
    EndPage(base, lim, f, m.ranges[f], n);
    var p := PageOf(a, base);
    assert Free(m.ranges, PageAddr(base, p)) by {
      assert f in m.ranges && f <= a < f + m.ranges[f];
    }
    assert !Met(m.live, PageAddr(base, p));
    forall b | b in m.live ensures PageOf(b, base) != p {
      assert m.live[b] > 0;
    }
    forall k | 0 <= k < MAX_BUCKETS ensures p !in m.rings[k] {
      assert p in m.rings[k] <==> Slotting(base, m.live, p, k + MIN_LOG2);
    }
  }

  lemma {:induction false} EndPage(base: Addr, lim: Addr, f: Addr, size: int, n: int)
    requires WholePages(f, size, base, lim) && 0 < n <= size && n % PAGE_SIZE == 0
    ensures var a := f + size - n; f <= a && PageAddr(base, PageOf(a, base)) == a
                                   && 0 <= PageOf(a, base) < PageOf(lim, base)
  {
  }

  /** No page is in two lists. */
  lemma {:induction false} OneList(base: Addr, lim: Addr, m: Moment, j: int, k: int, p: int)
    requires MomentOk(base, lim, m) && 0 <= j < MAX_BUCKETS && 0 <= k < MAX_BUCKETS
    requires p in m.rings[j] && p in m.rings[k]
    ensures j == k
  {
    assert Slotting(base, m.live, p, j + MIN_LOG2);
    var a :| a in m.live && PageOf(a, base) == p && m.live[a] == Size(j + MIN_LOG2);
    assert SlotsOnly(base, m.live, m.rings[k], k + MIN_LOG2);
  }

  // ---------- One list ----------

  /** A slot is taken from the heading page. */
  lemma {:induction false} TellsTaken(base: Addr, live: map<Addr, int>, live': map<Addr, int>, s: seq<int>, l: int,
                                      a: Addr)
    requires s != [] && Distinct(s) && IsLog2(l) && PageOf(a, base) == s[0] && SameBut(live, live', a)
    ensures HeadTells(base, live', RingTaken(base, live', s, l), l)
       <==> !(PageFull(base, live', s[0], l) && RoomBehind(base, live, s, l))
  {
    hide PageFull, SameBut;
    forall i | 1 <= i < |s| ensures PageFull(base, live, s[i], l) <==> PageFull(base, live', s[i], l) {
      FullElsewhere(base, live, live', a, s[i], l);
    }
    if PageFull(base, live', s[0], l) {
      var t := RemoveAt(s, 0) + [s[0]];
      assert forall i :: 1 <= i < |s| ==> t[i - 1] == s[i];
      assert |t| == |s| && t[|s| - 1] == s[0];
    }
  }

  /** A page that has room goes in front. */
  lemma {:induction false} TellsFront(base: Addr, live: map<Addr, int>, s: seq<int>, l: int, p: int)
    requires !PageFull(base, live, p, l)
    ensures HeadTells(base, live, AddedFront(s, p), l)
  {
  }

  /** A block in page `p` of the list is freed. */
  lemma {:induction false} TellsFreed(base: Addr, live: map<Addr, int>, s: seq<int>, l: int, a: Addr)
    requires Distinct(s) && IsLog2(l) && PageOf(a, base) in s && HeadTells(base, live, s, l)
    requires a in live && IsSlot(base, a, l)
    ensures HeadTells(base, live - {a}, RingFreed(base, live, live - {a}, s, PageOf(a, base), l), l)
       <==> !(LastBlock(base, live, s, a) && RoomBehind(base, live, s, l))
  {
    var p, live' := PageOf(a, base), live - {a};
    var i := Place(s, p);
    assert !PageFull(base, live', p, l);
    hide PageFull, PageEmpty;
    forall j | 0 <= j < |s| && j != i ensures PageFull(base, live, s[j], l) <==> PageFull(base, live', s[j], l) {
      FullElsewhere(base, live, live', a, s[j], l);
    }
    if PageEmpty(base, live', p) {
      OneIsNotFull(base, live, a, p, l);
      var t := RemoveAt(s, i);
      assert forall j :: 0 <= j < |t| ==> t[j] == s[Kept(j, i)];
      if i == 0 {
        assert forall j :: 1 <= j < |s| ==> t[j - 1] == s[j];
      }
    } else if PageFull(base, live, p, l) && i != 0 {
      TellsFront(base, live', RemoveAt(s, i), l, p);
    }
  }

  // ---------- Calls ----------

  /**
   * An allocation keeps the assumption, unless it takes the last slot of the heading page of the bucket, while the next
   * page is full and a later one is not.
   */
  lemma {:induction false} AllocKeepsHead(base: Addr, lim: Addr, m: Moment, size: int, bsize: int, a: Addr, m': Moment,
                                          k: int)
    requires MomentOk(base, lim, m) && LeastBlock(size, bsize) && AllocStep(base, m, bsize, a, m')
    requires 0 <= k < MAX_BUCKETS && HeadTells(base, m.live, m.rings[k], k + MIN_LOG2)
    ensures |m'.rings| == MAX_BUCKETS
    ensures HeadTells(base, m'.live, m'.rings[k], k + MIN_LOG2)
       <==> !(bsize == Size(k + MIN_LOG2) && LastSlot(base, m.live, m.rings[k], k + MIN_LOG2, a)
              && RoomBehind(base, m.live, m.rings[k], k + MIN_LOG2))
  {
    hide MomentOk, HeadTells, PageFull, RoomBehind, FirstSlot, BestFitEnd, RingTaken, AddedFront, LeastBlock;
    var l, s := k + MIN_LOG2, m.rings[k];
    LogOfSize(l);
    LeastIs(size, bsize);
    if NoRoom(base, m, bsize) {
      if bsize == Size(l) {
        NoSlot(base, m.live, s, l, a);
      }
    } else if bsize == Size(l) {
      if s != [] && !PageFull(base, m.live, s[0], l) {
        FirstInPage(base, m.live, s[0], l, a);
        ListedOnce(base, lim, m, k);
        TellsTaken(base, m.live, m'.live, s, l, a);
      } else {
        NoSlot(base, m.live, s, l, a);
        FreshPage(base, lim, m, PAGE_SIZE, a);
        NewIsNotFull(base, m.live, m'.live, a, l);
        TellsFront(base, m'.live, s, l, PageOf(a, base));
      }
    } else {
      OtherPage(base, lim, m, bsize, a, k);
      TellsElsewhere(base, m.live, m'.live, a, s, l);
    }
  }

  lemma {:induction false} LeastIs(size: int, bsize: int)
    requires LeastBlock(size, bsize)
    ensures bsize < PAGE_SIZE ==> bsize == Size(Log2Of(bsize))
    ensures bsize >= PAGE_SIZE ==> bsize % PAGE_SIZE == 0
  {
    if size <= Size(PAGE_SHIFT - 1) {
      var l :| IsLog2(l) && bsize == Size(l);
      LogOfSize(l);
    }
  }

  lemma {:induction false} FirstInPage(base: Addr, live: map<Addr, int>, p: int, l: int, a: Addr)
    requires FirstSlot(base, live, p, l, a) && IsLog2(l)
    ensures PageOf(a, base) == p
  {
    SlotAddrOf(base, p, SlotOf(a, base, l), l);
  }

  lemma {:induction false} ListedOnce(base: Addr, lim: Addr, m: Moment, k: int)
    requires MomentOk(base, lim, m) && 0 <= k < MAX_BUCKETS
    ensures Distinct(m.rings[k])
  {
  }

  lemma {:induction false} NewIsNotFull(base: Addr, live: map<Addr, int>, live': map<Addr, int>, a: Addr, l: int)
    requires PageEmpty(base, live, PageOf(a, base)) && SameBut(live, live', a) && IsLog2(l)
    ensures !PageFull(base, live', PageOf(a, base), l)
  {
    OneIsNotFull(base, live', a, PageOf(a, base), l);
  }

  /** A block of another size goes to a page that is not in the list. */
  lemma {:induction false} OtherPage(base: Addr, lim: Addr, m: Moment, bsize: int, a: Addr, k: int)
    requires MomentOk(base, lim, m) && 0 <= k < MAX_BUCKETS == |m.rings| && bsize != Size(k + MIN_LOG2)
    requires bsize < PAGE_SIZE ==> bsize == Size(Log2Of(bsize))
    requires bsize >= PAGE_SIZE ==> bsize % PAGE_SIZE == 0
    requires !NoRoom(base, m, bsize)
    requires var l := Log2Of(bsize);
             var s := m.rings[l - MIN_LOG2];
             if bsize < PAGE_SIZE && s != [] && !PageFull(base, m.live, s[0], l)
             then FirstSlot(base, m.live, s[0], l, a)
             else BestFitEnd(m.ranges, if bsize < PAGE_SIZE then PAGE_SIZE else bsize, a)
    ensures PageOf(a, base) !in m.rings[k]
  {
    hide MomentOk, PageFull, FirstSlot, BestFitEnd, NoRoom;
    var l := Log2Of(bsize);
    var j := l - MIN_LOG2;
    var s := m.rings[j];
    if bsize < PAGE_SIZE && s != [] && !PageFull(base, m.live, s[0], l) {
      FirstInPage(base, m.live, s[0], l, a);
      if PageOf(a, base) in m.rings[k] {
        OneList(base, lim, m, j, k, PageOf(a, base));
      }
    } else {
      FreshPage(base, lim, m, if bsize < PAGE_SIZE then PAGE_SIZE else bsize, a);
    }
  }

  /**
   * A free keeps the assumption, unless it frees the only block of the heading page of the list, while the next page is
   * full and a later one is not.
   */
  lemma {:induction false} FreeKeepsHead(base: Addr, lim: Addr, m: Moment, a: Addr, m': Moment, k: int)
    requires MomentOk(base, lim, m) && FreeStep(base, m, a, m') && 0 <= k < MAX_BUCKETS
    requires HeadTells(base, m.live, m.rings[k], k + MIN_LOG2)
    ensures |m'.rings| == MAX_BUCKETS
    ensures HeadTells(base, m'.live, m'.rings[k], k + MIN_LOG2)
       <==> !(LastBlock(base, m.live, m.rings[k], a) && RoomBehind(base, m.live, m.rings[k], k + MIN_LOG2))
  {
    hide MomentOk, HeadTells, PageFull, RoomBehind, PageEmpty, AddedFront;
    var l, s, p := k + MIN_LOG2, m.rings[k], PageOf(a, base);
    LogOfSize(l);
    if p in s {
      ListedOnce(base, lim, m, k);
      SlotOfList(base, lim, m, k, a);
      TellsFreed(base, m.live, s, l, a);
    } else {
      assert Place(s, p) == |s|;
      assert m'.rings[k] == s;
      TellsElsewhere(base, m.live, m'.live, a, s, l);
    }
  }

  lemma {:induction false} SlotOfList(base: Addr, lim: Addr, m: Moment, k: int, a: Addr)
    requires MomentOk(base, lim, m) && 0 <= k < MAX_BUCKETS && a in m.live && PageOf(a, base) in m.rings[k]
    ensures m.live[a] == Size(k + MIN_LOG2) && IsSlot(base, a, k + MIN_LOG2)
  {
    assert SlotsOnly(base, m.live, m.rings[k], k + MIN_LOG2);
  }

  // ---------- A run after which the heading page is full and another one is not ----------

  /** The bucket of 256 bytes, which has two slots in a page. */
  const BIG: int := 8

  ghost predicate Bits(base: Addr, live: map<Addr, int>, p: int, b: (bool, bool)) {
    (SlotAddr(base, p, 0, BIG) in live <==> b.0) && (SlotAddr(base, p, 1, BIG) in live <==> b.1)
  }

  /** All blocks are in the pages `s`, which are the list of the bucket, and `busy` says in which slots. */
  ghost predicate At(base: Addr, m: Moment, s: seq<int>, busy: map<int, (bool, bool)>) {
    && |m.rings| == MAX_BUCKETS && m.rings[BIG - MIN_LOG2] == s
    && (forall p :: p in s ==> p in busy && Bits(base, m.live, p, busy[p]))
    && (forall a :: a in m.live ==> PageOf(a, base) in s)
  }

  lemma {:induction false} FullBits(base: Addr, live: map<Addr, int>, p: int, b: (bool, bool))
    requires Bits(base, live, p, b)
    ensures PageFull(base, live, p, BIG) <==> b.0 && b.1
  {
    assert Slots(BIG) == 2;
  }

  lemma {:induction false} BitsElsewhere(base: Addr, live: map<Addr, int>, live': map<Addr, int>, a: Addr, p: int,
                                         b: (bool, bool))
    requires SameBut(live, live', a) && PageOf(a, base) != p
    ensures Bits(base, live, p, b) <==> Bits(base, live', p, b)
  {
    SlotAddrOf(base, p, 0, BIG);
    SlotAddrOf(base, p, 1, BIG);
  }

  /** The bits of a page after a change of slot `k`. */
  lemma {:induction false} BitsSet(base: Addr, live: map<Addr, int>, live': map<Addr, int>, p: int, k: int,
                                   b: (bool, bool))
    requires Bits(base, live, p, b) && 0 <= k < 2 && SameBut(live, live', SlotAddr(base, p, k, BIG))
    ensures var x := SlotAddr(base, p, k, BIG) in live';
            PageOf(SlotAddr(base, p, k, BIG), base) == p
            && Bits(base, live', p, if k == 0 then (x, b.1) else (b.0, x))
  {
    SlotAddrOf(base, p, k, BIG);
    assert SlotAddr(base, p, 0, BIG) != SlotAddr(base, p, 1, BIG);
  }

  /** The pool is empty exactly when every page is in the list. */
  lemma {:induction false} PoolEmpty(base: Addr, lim: Addr, m: Moment, s: seq<int>, busy: map<int, (bool, bool)>)
    requires MomentOk(base, lim, m) && At(base, m, s, busy)
    ensures NoFit(m.ranges, PAGE_SIZE) <==> forall p :: 0 <= p < PageOf(lim, base) ==> p in s
  {
    hide MomentOk, Free, Bits;
    if p :| 0 <= p < PageOf(lim, base) && p !in s {
      UnlistedFree(base, lim, m, s, busy, p);
    } else {
      forall f ensures f !in m.ranges {
        if f in m.ranges {
          StartFree(base, lim, m, f);
          ListedBusy(base, lim, m, PageOf(f, base));
        }
      }
    }
  }

  lemma {:induction false} UnlistedFree(base: Addr, lim: Addr, m: Moment, s: seq<int>, busy: map<int, (bool, bool)>,
                                        p: int)
    requires MomentOk(base, lim, m) && At(base, m, s, busy) && 0 <= p < PageOf(lim, base) && p !in s
    ensures !NoFit(m.ranges, PAGE_SIZE)
  {
    hide Slotting, SlotsOnly, Bits;
    forall a | a in m.live ensures !(a < PageAddr(base, p) + PAGE_SIZE && PageAddr(base, p) < a + m.live[a]) {
      SlotOfList(base, lim, m, BIG - MIN_LOG2, a);
      InOnePage(base, a, p);
    }
    assert !Met(m.live, PageAddr(base, p));
    assert Free(m.ranges, PageAddr(base, p));
    var f :| f in m.ranges && f <= PageAddr(base, p) < f + m.ranges[f];
    assert WholePages(f, m.ranges[f], base, lim);
  }

  lemma {:induction false} StartFree(base: Addr, lim: Addr, m: Moment, f: Addr)
    requires MomentOk(base, lim, m) && f in m.ranges
    ensures 0 <= PageOf(f, base) < PageOf(lim, base) && Free(m.ranges, PageAddr(base, PageOf(f, base)))
  {
    assert WholePages(f, m.ranges[f], base, lim);
    EndPage(base, lim, f, m.ranges[f], m.ranges[f]);
    assert f <= f < f + m.ranges[f];
  }

  lemma {:induction false} ListedBusy(base: Addr, lim: Addr, m: Moment, p: int)
    requires MomentOk(base, lim, m) && 0 <= p < PageOf(lim, base) && p in m.rings[BIG - MIN_LOG2]
    ensures !Free(m.ranges, PageAddr(base, p))
  {
    assert Slotting(base, m.live, p, BIG);
    var a :| a in m.live && PageOf(a, base) == p && m.live[a] == Size(BIG);
    assert Met(m.live, PageAddr(base, p));
  }

  lemma {:induction false} InOnePage(base: Addr, a: Addr, p: int)
    requires IsSlot(base, a, BIG) && PageOf(a, base) != p
    ensures !(a < PageAddr(base, p) + PAGE_SIZE && PageAddr(base, p) < a + Size(BIG))
  {
  }

  /** A new page is added. */
  lemma {:induction false} RunNew(base: Addr, lim: Addr, m: Moment, a: Addr, m': Moment, s: seq<int>,
                                  busy: map<int, (bool, bool)>)
    requires MomentOk(base, lim, m) && At(base, m, s, busy) && AllocStep(base, m, Size(BIG), a, m')
    requires s == [] || busy[s[0]] == (true, true)
    requires exists p :: 0 <= p < PageOf(lim, base) && p !in s
    ensures var p := PageOf(a, base);
            && a != NULL && a == SlotAddr(base, p, 0, BIG) && p !in s && 0 <= p < PageOf(lim, base)
            && At(base, m', AddedFront(s, p), busy[p := (true, false)])
  {
    hide MomentOk, PageFull, FirstSlot, BestFitEnd, NoFit, Bits;
    LogOfSize(BIG);
    PoolEmpty(base, lim, m, s, busy);
    if s != [] {
      FullBits(base, m.live, s[0], busy[s[0]]);
    }
    FreshPage(base, lim, m, PAGE_SIZE, a);
    var p := PageOf(a, base);
    EmptyBits(base, m.live, p);
    BitsSet(base, m.live, m'.live, p, 0, (false, false));
    forall q | q in s ensures Bits(base, m'.live, q, busy[q]) {
      BitsElsewhere(base, m.live, m'.live, a, q, busy[q]);
    }
  }

  lemma {:induction false} EmptyBits(base: Addr, live: map<Addr, int>, p: int)
    requires PageEmpty(base, live, p)
    ensures Bits(base, live, p, (false, false))
  {
    SlotAddrOf(base, p, 0, BIG);
    SlotAddrOf(base, p, 1, BIG);
  }

  /** The last slot of the heading page is taken. */
  lemma {:induction false} RunFill(base: Addr, lim: Addr, m: Moment, a: Addr, m': Moment, s: seq<int>,
                                   busy: map<int, (bool, bool)>)
    requires MomentOk(base, lim, m) && At(base, m, s, busy) && AllocStep(base, m, Size(BIG), a, m')
    requires s != [] && (busy[s[0]] == (true, false) || busy[s[0]] == (false, true))
    ensures a != NULL && a == SlotAddr(base, s[0], if busy[s[0]].0 then 1 else 0, BIG)
    ensures At(base, m', RemoveAt(s, 0) + [s[0]], busy[s[0] := (true, true)])
  {
    hide MomentOk, PageFull, BestFitEnd, NoFit, Bits, SlotAddr;
    LogOfSize(BIG);
    var p, b := s[0], busy[s[0]];
    FullBits(base, m.live, p, b);
    FirstClear(base, m.live, p, b, a);
    BitsSet(base, m.live, m'.live, p, if b.0 then 1 else 0, b);
    FullBits(base, m'.live, p, (true, true));
    ListedOnce(base, lim, m, BIG - MIN_LOG2);
    RemovedAt(s, 0);
    forall q | q in s && q != p ensures Bits(base, m'.live, q, busy[q]) {
      BitsElsewhere(base, m.live, m'.live, a, q, busy[q]);
    }
  }

  lemma {:induction false} FirstClear(base: Addr, live: map<Addr, int>, p: int, b: (bool, bool), a: Addr)
    requires FirstSlot(base, live, p, BIG, a) && Bits(base, live, p, b)
    ensures a == SlotAddr(base, p, if b.0 then 1 else 0, BIG)
  {
    assert SlotOf(a, base, BIG) == 0 || SlotOf(a, base, BIG) == 1;
  }

  /** The first slot of a full page, at place `i` of the list, is freed. */
  lemma {:induction false} RunFree(base: Addr, lim: Addr, m: Moment, m': Moment, s: seq<int>,
                                   busy: map<int, (bool, bool)>, i: int)
    requires MomentOk(base, lim, m) && At(base, m, s, busy) && 0 < i < |s|
    requires s[i] in busy && busy[s[i]] == (true, true)
    requires FreeStep(base, m, SlotAddr(base, s[i], 0, BIG), m')
    ensures At(base, m', AddedFront(RemoveAt(s, i), s[i]), busy[s[i] := (false, true)])
  {
    hide MomentOk, PageFull, PageEmpty, Bits, SlotAddr;
    LogOfSize(BIG);
    var p, a := s[i], SlotAddr(base, s[i], 0, BIG);
    FullBits(base, m.live, p, (true, true));
    BitsSet(base, m.live, m'.live, p, 0, (true, true));
    NotEmpty(base, m'.live, p);
    SlotOfList(base, lim, m, BIG - MIN_LOG2, a);
    ListedOnce(base, lim, m, BIG - MIN_LOG2);
    PlaceIs(s, i);
    RemovedAt(s, i);
    forall q | q in s && q != p ensures Bits(base, m'.live, q, busy[q]) {
      BitsElsewhere(base, m.live, m'.live, a, q, busy[q]);
    }
  }

  lemma {:induction false} NotEmpty(base: Addr, live: map<Addr, int>, p: int)
    requires Bits(base, live, p, (false, true))
    ensures !PageEmpty(base, live, p)
  {
    SlotAddrOf(base, p, 1, BIG);
  }

  /** Two blocks fill a new page, which goes last. */
  method FillPage(h: EvlHeap, ghost s: seq<int>, ghost busy: map<int, (bool, bool)>)
    returns (a: Addr, ghost p: int, ghost busy': map<int, (bool, bool)>)
    requires h.Valid() && At(h.pool.membase, h.Now(), s, busy) && (s == [] || busy[s[0]] == (true, true))
    requires exists q :: 0 <= q < PageOf(h.pool.memlim, h.pool.membase) && q !in s
    modifies h, h.pool, h.pool.addrTree, h.pool.sizeTree, h.table, h.table.pagemap, h.table.buckets
    ensures h.Valid() && p !in s && 0 <= p < PageOf(h.pool.memlim, h.pool.membase)
    ensures a == SlotAddr(h.pool.membase, p, 0, BIG)
    ensures busy' == busy[p := (true, true)]
    ensures At(h.pool.membase, h.Now(), Turned(s) + [p], busy')
  {
    hide EvlHeap.Valid, MomentOk, At, AllocStep, SlotAddr, RemoveAt;
    var b;
    ghost var n;
    BigRequest();
    NowOk(h);
    ghost var m := h.Now();
    a, n := h.AllocBlock(Size(BIG));
    LeastUnique(Size(BIG), n, Size(BIG));
    RunNew(h.pool.membase, h.pool.memlim, m, a, h.Now(), s, busy);
    p := PageOf(a, h.pool.membase);
    NowOk(h);
    m := h.Now();
    b, n := h.AllocBlock(Size(BIG));
    LeastUnique(Size(BIG), n, Size(BIG));
    RunFill(h.pool.membase, h.pool.memlim, m, b, h.Now(), AddedFront(s, p), busy[p := (true, false)]);
    busy' := busy[p := (true, true)];
    assert busy[p := (true, false)][p := (true, true)] == busy';
    TurnedRest(s, p);
  }

  lemma {:induction false} BigRequest()
    ensures 0 < Size(BIG) <= MAX_REQUEST && LeastBlock(Size(BIG), Size(BIG))
  {
    var l := BIG;
    assert IsLog2(l) && Size(BIG) == Size(l) && Size(l - 1) < Size(BIG);
  }

  /** The pages behind a page that was added. */
  function Turned(s: seq<int>): seq<int> {
    if s == [] then [] else s[1..] + [s[0]]
  }

  lemma {:induction false} TurnedRest(s: seq<int>, p: int)
    ensures RemoveAt(AddedFront(s, p), 0) == Turned(s)
  {
  }

  lemma {:induction false} TurnedAll(p: int, q: int, r: int)
    ensures Turned([]) + [p] == [p] && Turned([p]) + [q] == [p, q] && Turned([p, q]) + [r] == [q, p, r]
  {
  }

  lemma {:induction false} FrontAll(p: int, q: int, r: int)
    ensures AddedFront(RemoveAt([q, p, r], 1), p) == [p, r, q] && AddedFront(RemoveAt([p, r, q], 2), q) == [q, r, p]
    ensures RemoveAt([q, r, p], 0) + [q] == [r, p, q]
  {
  }

  lemma {:induction false} RunEmpty(base: Addr, lim: Addr, m: Moment)
    requires MomentOk(base, lim, m) && m.live == map[]
    ensures At(base, m, [], map[])
  {
    if m.rings[BIG - MIN_LOG2] != [] {
      SomeLive(base, lim, m);
    }
  }

  lemma {:induction false} SomeLive(base: Addr, lim: Addr, m: Moment)
    requires MomentOk(base, lim, m) && m.rings[BIG - MIN_LOG2] != []
    ensures m.live != map[]
  {
    var p := m.rings[BIG - MIN_LOG2][0];
    assert p in m.rings[BIG - MIN_LOG2] <==> Slotting(base, m.live, p, BIG);
  }

  /** Two pages are not three. */
  lemma {:induction false} PageLeft(base: Addr, lim: Addr, s: seq<int>)
    requires lim == base + 3 * PAGE_SIZE && |s| < 3
    ensures exists p :: 0 <= p < PageOf(lim, base) && p !in s
  {
    assert PageOf(lim, base) == 3;
    if 0 in s && 1 in s {
      assert 2 !in s;
    } else {
      assert 0 !in s || 1 !in s;
    }
  }

  lemma {:induction false} FirstLive(base: Addr, m: Moment, s: seq<int>, busy: map<int, (bool, bool)>, p: int)
    requires At(base, m, s, busy) && p in s
    ensures p in busy && (SlotAddr(base, p, 0, BIG) in m.live <==> busy[p].0)
    ensures PageFull(base, m.live, p, BIG) <==> busy[p].0 && busy[p].1
    ensures |m.rings| == MAX_BUCKETS && m.rings[BIG - MIN_LOG2] == s
  {
    FullBits(base, m.live, p, busy[p]);
  }

  lemma {:induction false} AllListed(base: Addr, lim: Addr, m: Moment, busy: map<int, (bool, bool)>,
                                     p: int, q: int, r: int)
    requires MomentOk(base, lim, m) && At(base, m, [r, p, q], busy) && lim == base + 3 * PAGE_SIZE
    requires Three(p, q, r) && r in busy && busy[r] == (true, true)
    ensures |m.rings| == MAX_BUCKETS && NoRoom(base, m, Size(BIG))
  {
    hide MomentOk, NoFit;
    assert PageOf(lim, base) == 3;
    PoolEmpty(base, lim, m, [r, p, q], busy);
    FirstLive(base, m, [r, p, q], busy, r);
    LogOfSize(BIG);
  }

  ghost predicate Three(p: int, q: int, r: int) {
    p != q && q != r && p != r && 0 <= p < 3 && 0 <= q < 3 && 0 <= r < 3
  }

  /**
   * Six blocks fill the three pages of a heap, the first block of the first two pages is freed, and one is allocated:
   * the heading page is full, the next request is refused, and the slot at `missed` is free.
   */
  method RoomMissed(base: Addr, debug: bool) returns (h: EvlHeap, block: Addr, missed: Addr)
    requires 0 < base
    ensures h.Valid() && block == NULL && missed !in h.live
    ensures |h.table.rings| == MAX_BUCKETS && NoRoom(h.pool.membase, h.Now(), Size(BIG))
    ensures PageOf(missed, h.pool.membase) in h.table.rings[BIG - MIN_LOG2] && IsSlot(h.pool.membase, missed, BIG)
    ensures !HeadTells(h.pool.membase, h.live, h.table.rings[BIG - MIN_LOG2], BIG)
  {
    hide EvlHeap.Valid, MomentOk, At, AllocStep, FreeStep, SlotAddr, LeastBlock, NoRoom, PageFull,
         RemoveAt, AddedFront, FirstSlot;
    h := new EvlHeap(base, 3 * PAGE_SIZE, debug);
    var a, b, d;
    ghost var p, q, r, n, m, busy;
    BigRequest();
    NowOk(h);
    a, b, p, q, r, busy := ThreePages(h);
    FrontAll(p, q, r);
    busy := FreeFirst(h, a, p, [q, p, r], [p, r, q], busy, 1);
    busy := FreeFirst(h, b, q, [p, r, q], [q, r, p], busy, 2);
    NowOk(h);
    m := h.Now();
    d, n := h.AllocBlock(Size(BIG));
    LeastUnique(Size(BIG), n, Size(BIG));
    RunFill(base, h.pool.memlim, m, d, h.Now(), [q, r, p], busy);
    busy := busy[q := (true, true)];
    NowOk(h);
    AllListed(base, h.pool.memlim, h.Now(), busy, p, q, r);
    FirstLive(base, h.Now(), [r, p, q], busy, r);
    FirstLive(base, h.Now(), [r, p, q], busy, p);
    assert [r, p, q][1] == p;
    SlotAddrOf(base, p, 0, BIG);
    missed := a;
    block, n := h.AllocBlock(Size(BIG));
    LeastUnique(Size(BIG), n, Size(BIG));
  }

  /** The first blocks of the pages `p` and `q` are at `a` and `b`. */
  method ThreePages(h: EvlHeap)
    returns (a: Addr, b: Addr, ghost p: int, ghost q: int, ghost r: int, ghost busy: map<int, (bool, bool)>)
    requires h.Valid() && h.live == map[] && h.pool.memlim == h.pool.membase + 3 * PAGE_SIZE
    modifies h, h.pool, h.pool.addrTree, h.pool.sizeTree, h.table, h.table.pagemap, h.table.buckets
    ensures h.Valid() && Three(p, q, r)
    ensures a == SlotAddr(h.pool.membase, p, 0, BIG) && b == SlotAddr(h.pool.membase, q, 0, BIG)
    ensures busy == map[p := (true, true), q := (true, true), r := (true, true)]
    ensures At(h.pool.membase, h.Now(), [q, p, r], busy)
  {
    hide EvlHeap.Valid, MomentOk, At, SlotAddr, Turned, HeadTells, AddedFront, RemoveAt, Distinct, Slotting, SlotsOnly;
    var c, base := 0, h.pool.membase;
    NowOk(h);
    RunEmpty(base, h.pool.memlim, h.Now());
    PageLeft(base, h.pool.memlim, []);
    a, p, busy := FillPage(h, [], map[]);
    TurnedAll(p, p, p);
    PageLeft(base, h.pool.memlim, [p]);
    b, q, busy := FillPage(h, [p], busy);
    TurnedAll(p, q, q);
    PageLeft(base, h.pool.memlim, [p, q]);
    c, r, busy := FillPage(h, [p, q], busy);
    TurnedAll(p, q, r);
  }

  /** The first block of the full page `p` is freed. */
  method FreeFirst(h: EvlHeap, a: Addr, ghost p: int, ghost s: seq<int>, ghost t: seq<int>,
                   ghost busy: map<int, (bool, bool)>, ghost i: int)
    returns (ghost busy': map<int, (bool, bool)>)
    requires h.Valid() && At(h.pool.membase, h.Now(), s, busy) && 0 < i < |s| && s[i] == p
    requires p in busy && busy[p] == (true, true) && a == SlotAddr(h.pool.membase, p, 0, BIG)
    requires t == AddedFront(RemoveAt(s, i), p)
    modifies h, h.pool, h.pool.addrTree, h.pool.sizeTree, h.table, h.table.pagemap, h.table.buckets
    ensures h.Valid() && busy' == busy[p := (false, true)] && At(h.pool.membase, h.Now(), t, busy')
  {
    hide EvlHeap.Valid, MomentOk, At, FreeStep, SlotAddr, RemoveAt, AddedFront;
    NowOk(h);
    ghost var m := h.Now();
    FirstLive(h.pool.membase, m, s, busy, p);
    var err := h.FreeBlock(a);
    RunFree(h.pool.membase, h.pool.memlim, m, h.Now(), s, busy, i);
    busy' := busy[p := (false, true)];
  }
}
