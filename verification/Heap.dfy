/** `struct evl_heap` of lib/heap.c, with one extent. */
module Heap {
  import opened Sequences
  import opened Arithmetic
  import opened AvlShape
  import opened FreeRanges
  import opened RangePool
  import opened PageRings
  import opened PageLists
  import opened HeapState
  import opened HeapSizes
  import opened HeapLayout
  import opened HeapMoments

  /** Blocks of whole pages. */
  lemma {:induction false} TakeRun(use: seq<Use>, r: Ranges, r': Ranges, rings: seq<seq<int>>, e: seq<PageEntry>,
                                   e': seq<PageEntry>, live: map<Addr, int>, base: Addr, checked: bool, p: int, n: int)
    requires Consistent(use, r, rings, e, live, base, checked)
    requires 0 <= p && 0 < n && p + n <= |use| && PagesTaken(r, r', PageAddr(base, p), n * PAGE_SIZE)
    requires BodiesOutside(e, e', p, n) && e'[p].typ == PAGE_LIST && e'[p].payload == Block(n * PAGE_SIZE)
    requires checked ==> forall q :: p < q < p + n ==> e'[q].typ == PAGE_CONT
    ensures var a := PageAddr(base, p);
            && a !in live
            && Consistent(SetRun(use, p, n, Head(n), Tail(p)), r', rings, e', live[a := n * PAGE_SIZE], base, checked)
  {
    hide UseOk, FreeMatch, RingsMatch, EntriesOk, LiveMatch, PagesTaken, BodiesOutside, SetRun;
    FreeRun(use, r, r', base, p, n);
    RunTaken(e, e', use, live, base, checked, p, n);
    UseTaken(use, p, n);
    FreeTaken(use, r, r', base, p, n, Head(n), Tail(p));
    RingsElsewhere(rings, use, p, n, Head(n), Tail(p));
  }

  lemma {:induction false} GiveRun(use: seq<Use>, r: Ranges, r': Ranges, rings: seq<seq<int>>, e: seq<PageEntry>,
                                   e': seq<PageEntry>, live: map<Addr, int>, base: Addr, checked: bool, p: int, n: int)
    requires Consistent(use, r, rings, e, live, base, checked)
    requires 0 <= p < |use| && use[p] == Head(n) && PagesGiven(r, r', PageAddr(base, p), n * PAGE_SIZE)
    requires BodiesOutside(e, e', p, n)
    requires checked ==> forall q :: p <= q < p + n <= |e'| ==> e'[q].typ == PAGE_FREE
    ensures var a := PageAddr(base, p);
            && a in live && live[a] == n * PAGE_SIZE
            && Consistent(SetRun(use, p, n, Idle, Idle), r', rings, e', live - {a}, base, checked)
  {
    hide FreeMatch, RingsMatch, EntriesOk, LiveMatch, PagesGiven, BodiesOutside, SetRun;
    HeadRun(use, p, n);
    RunGiven(e, e', use, live, base, checked, p, n);
    UseGiven(use, p, n);
    FreeGiven(use, r, r', base, p, n);
    RingsElsewhere(rings, use, p, n, Idle, Idle);
  }

  /** A free page becomes the first one of a bucket. */
  lemma {:induction false} TakePage(use: seq<Use>, r: Ranges, r': Ranges, rings: seq<seq<int>>, s: seq<int>,
                                    e: seq<PageEntry>,
                                    e': seq<PageEntry>, live: map<Addr, int>, base: Addr, checked: bool, p: int, l: int)
    requires Consistent(use, r, rings, e, live, base, checked) && IsLog2(l)
    requires 0 <= p < |use| && PagesTaken(r, r', PageAddr(base, p), PAGE_SIZE)
    requires BodiesOutside(e, e', p, 1) && e'[p].typ == l && e'[p].payload == Busy(FreshMap(l))
    requires |rings| == MAX_BUCKETS && forall q :: q in s <==> q in rings[l - MIN_LOG2] || q == p
    ensures var a := PageAddr(base, p);
            && a !in live
            && Consistent(SetRun(use, p, 1, Slotted(l), Idle), r', rings[l - MIN_LOG2 := s], e', live[a := Size(l)],
                          base, checked)
  {
    hide UseOk, FreeMatch, RingsMatch, EntriesOk, LiveMatch, PagesTaken, BodiesOutside, SetRun, FreshMap;
    FreeRun(use, r, r', base, p, 1);
    PageSlotted(e, e', use, live, base, checked, p, l);
    UseSlotted(use, p, l);
    FreeTaken(use, r, r', base, p, 1, Slotted(l), Idle);
    RingsSlotted(rings, use, p, l, s);
  }

  /** The last block of a page is freed, and so is the page. */
  lemma {:induction false} GivePage(use: seq<Use>, r: Ranges, r': Ranges, rings: seq<seq<int>>, s: seq<int>,
                                    e: seq<PageEntry>,
                                    e': seq<PageEntry>, live: map<Addr, int>, base: Addr, checked: bool,
                                    p: int, b: int, l: int)
    requires Consistent(use, r, rings, e, live, base, checked) && IsLog2(l)
    requires 0 <= p < |use| == |e| && use[p] == Slotted(l) && PagesGiven(r, r', PageAddr(base, p), PAGE_SIZE)
    requires SlotLive(e[p], b, l) && AllIdle(e[p].payload.map_[b := false], l)
    requires BodiesOutside(e, e', p, 1) && (checked ==> e'[p].typ == PAGE_FREE)
    requires |rings| == MAX_BUCKETS && forall q :: q in s <==> q in rings[l - MIN_LOG2] && q != p
    ensures var a := SlotAddr(base, p, b, l);
            && a in live && live[a] == Size(l)
            && Consistent(SetRun(use, p, 1, Idle, Idle), r', rings[l - MIN_LOG2 := s], e', live - {a}, base, checked)
  {
    hide UseOk, FreeMatch, RingsMatch, EntriesOk, LiveMatch, PagesGiven, BodiesOutside, SetRun, AllIdle, SlotAddr;
    PageIdle(e, e', use, live, base, checked, p, b, l);
    UseGiven(use, p, 1);
    FreeGiven(use, r, r', base, p, 1);
    RingsDropped(rings, use, p, l, s);
  }

  lemma {:induction false} TakeSlot(use: seq<Use>, r: Ranges, rings: seq<seq<int>>, e: seq<PageEntry>,
                                    live: map<Addr, int>, base: Addr, checked: bool, p: int, b: int, l: int)
    requires Consistent(use, r, rings, e, live, base, checked)
    requires 0 <= p < |use| == |e| && use[p] == Slotted(l) && 0 <= b < MAP_BITS
    requires e[p].payload.Busy? && |e[p].payload.map_| == MAP_BITS && !e[p].payload.map_[b]
    ensures var e' := e[p := e[p].(payload := Busy(e[p].payload.map_[b := true]))];
            var a := SlotAddr(base, p, b, l);
            a !in live && Consistent(use, r, rings, e', live[a := Size(l)], base, checked)
  {
    hide UseOk, FreeMatch, RingsMatch, EntriesOk, LiveMatch, SlotAddr;
    SlotTaken(e, use, live, base, checked, p, b, l);
  }

  lemma {:induction false} GiveSlot(use: seq<Use>, r: Ranges, rings: seq<seq<int>>, e: seq<PageEntry>,
                                    live: map<Addr, int>, base: Addr, checked: bool, p: int, b: int, l: int)
    requires Consistent(use, r, rings, e, live, base, checked)
    requires 0 <= p < |use| == |e| && use[p] == Slotted(l) && SlotLive(e[p], b, l)
    requires !AllIdle(e[p].payload.map_[b := false], l)
    ensures var e' := e[p := e[p].(payload := Busy(e[p].payload.map_[b := false]))];
            var a := SlotAddr(base, p, b, l);
            && a in live && live[a] == Size(l) && Consistent(use, r, rings, e', live - {a}, base, checked)
  {
    hide UseOk, FreeMatch, RingsMatch, EntriesOk, LiveMatch, SlotAddr, AllIdle, SlotLive;
    SlotGiven(e, use, live, base, checked, p, b, l);
  }

  /** A page moves within its list. */
  lemma {:induction false} Reorder(use: seq<Use>, r: Ranges, rings: seq<seq<int>>, e: seq<PageEntry>,
                                   e': seq<PageEntry>,
                                   live: map<Addr, int>, base: Addr, checked: bool, k: int, s: seq<int>, t: seq<int>)
    requires Consistent(use, r, rings, e, live, base, checked)
    requires 0 <= k < MAX_BUCKETS == |rings| && LinksOnly(e, e', t) && forall q :: q in s <==> q in rings[k]
    ensures Consistent(use, r, rings[k := s], e', live, base, checked)
  {
    hide UseOk, FreeMatch, RingsMatch, EntriesOk, LiveMatch, LinksOnly, SameBodies;
    LinksAreBodies(e, e', t);
    BodiesKeep(e, e', use, live, base, checked);
    RingsReordered(rings, use, k, s);
  }

  class EvlHeap {
    const pool: PagePool
    const table: PageTable
    /** Built without __OPTIMIZE__: the page map tells free pages and inner pages of blocks. */
    const checked: bool
    var usedSize: int
    ghost var use: seq<Use>
    /** The blocks handed out and not freed since, with their sizes. */
    ghost var live: map<Addr, int>

    ghost predicate Valid()
      reads this, pool, pool.addrTree, pool.sizeTree, table, table.pagemap, table.buckets
    {
      && 0 < pool.membase && pool.Valid() && table.Valid()
      && 0 < |use| <= MAX_PAGES && table.pagemap.Length == |use| && pool.memlim == PageAddr(pool.membase, |use|)
      && Consistent(use, pool.ranges, table.rings, table.pagemap[..], live, pool.membase, checked)
      && usedSize == Total(live)
    }

    ghost function Now(): Moment
      reads this, pool, table
    {
      Moment(live, pool.ranges, table.rings)
    }

    /** pagenr_to_addr (): the shift is done on a 32-bit int. */
    function PageToAddr(pg: int): Addr {
      pool.membase + Int32(pg * PAGE_SIZE)
    }

    /** page_is_valid () */
    predicate PageIsValid(pg: int)
      reads table.pagemap
      requires 0 <= pg < table.pagemap.Length
    {
      !checked || (table.pagemap[pg].typ != PAGE_FREE && table.pagemap[pg].typ != PAGE_CONT)
    }

    lemma {:induction false} PageBounds(p: int, n: int)
      requires 0 <= p && 0 < n && p + n <= |use| <= MAX_PAGES && pool.memlim == PageAddr(pool.membase, |use|)
      ensures PageToAddr(p) == PageAddr(pool.membase, p)
      ensures pool.PageNr(PageAddr(pool.membase, p)) == p
      ensures WholePages(PageAddr(pool.membase, p), n * PAGE_SIZE, pool.membase, pool.memlim)
    {
    }

    lemma {:induction false} PagesWithin(p: int, bsize: int)
      requires WholePages(PageAddr(pool.membase, p), bsize, pool.membase, pool.memlim)
      requires |use| <= MAX_PAGES && pool.memlim == PageAddr(pool.membase, |use|)
      ensures 0 <= p && 0 < bsize / PAGE_SIZE && p + bsize / PAGE_SIZE <= |use|
      ensures bsize == bsize / PAGE_SIZE * PAGE_SIZE && bsize < UINT32_RANGE
      ensures PageToAddr(p) == PageAddr(pool.membase, p) && PageAddr(pool.membase, p) >= pool.membase
    {
    }

    /** add_free_range () for a block of whole pages. */
    method AddBlockRange(bsize: int) returns (block: Addr)
      requires Valid() && 0 < bsize <= MAX_REQUEST && bsize % PAGE_SIZE == 0
      modifies this, pool, pool.addrTree, pool.sizeTree, table.pagemap
      ensures Valid()
      ensures block == NULL <==> NoFit(old(pool.ranges), bsize)
      ensures block == NULL ==> Unchanged(old(use), old(Now()))
      ensures block != NULL ==> block !in old(live) && live == old(live)[block := bsize]
      ensures block != NULL ==> BestFitEnd(old(pool.ranges), bsize, block)
    {
      hide Consistent, NoFit, Fittest, Taken, PagesTaken, WholePages, Int32, PagePool.Valid, PageTable.Valid;
      ghost var e, r := table.pagemap[..], pool.ranges;
      var pg;
      ghost var a;
      pg, a := pool.ReservePageRange(bsize);
      if pg < 0 {
        return NULL;
      }
      PagesWithin(pg, bsize);
      table.SetPage(pg, PAGE_LIST, Block(bsize % UINT32_RANGE));
      table.MarkPages(pg + 1, bsize / PAGE_SIZE - 1, PAGE_CONT, checked);
      usedSize := usedSize + bsize;
      block := PageToAddr(pg);
      ghost var n := bsize / PAGE_SIZE;
      TakeRun(use, r, pool.ranges, table.rings, e, table.pagemap[..], live, pool.membase, checked, pg, n);
      TotalAdd(live, block, bsize);
      use, live := SetRun(use, pg, n, Head(n), Tail(pg)), live[block := bsize];
    }

    /** add_free_range () for a page of bucketed memory. */
    method AddBucketPage(log2size: int) returns (block: Addr)
      requires Valid() && IsLog2(log2size)
      modifies this, pool, pool.addrTree, pool.sizeTree, table, table.pagemap, table.buckets
      ensures Valid()
      ensures block == NULL <==> NoFit(old(pool.ranges), PAGE_SIZE)
      ensures block == NULL ==> Unchanged(old(use), old(Now()))
      ensures block != NULL ==> block !in old(live) && live == old(live)[block := Size(log2size)]
      ensures block != NULL ==> BestFitEnd(old(pool.ranges), PAGE_SIZE, block)
      ensures var k := log2size - MIN_LOG2;
              block != NULL ==>
                table.rings == old(table.rings)[k := AddedFront(old(table.rings)[k], PageOf(block, pool.membase))]
    {
      hide Consistent, NoFit, Fittest, Taken, PagesTaken, WholePages, Int32, FreshMap, PagePool.Valid, PageTable.Valid;
      ghost var e, r, rings := table.pagemap[..], pool.ranges, table.rings;
      var pg;
      ghost var a;
      pg, a := pool.ReservePageRange(PAGE_SIZE);
      if pg < 0 {
        return NULL;
      }
      PagesWithin(pg, PAGE_SIZE);
      table.SetPage(pg, log2size, Busy(FreshMap(log2size)));
      FreePageUnlisted(use, r, pool.ranges, rings, e, live, pool.membase, checked, pg);
      ghost var e1 := table.pagemap[..];
      table.AddPageFront(pg, log2size);
      ghost var s := AddedFront(rings[log2size - MIN_LOG2], pg);
      LinksAreBodies(e1, table.pagemap[..], rings[log2size - MIN_LOG2] + [pg]);
      usedSize := usedSize + Size(log2size);
      block := PageToAddr(pg);
      TakePage(use, r, pool.ranges, rings, s, e, table.pagemap[..], live, pool.membase, checked, pg, log2size);
      TotalAdd(live, block, Size(log2size));
      use, live := SetRun(use, pg, 1, Slotted(log2size), Idle), live[block := Size(log2size)];
    }

    /** The first free slot of a page is marked as busy and handed out. */
    method TakeFirstFree(pg: int, log2size: int) returns (block: Addr)
      requires Valid() && IsLog2(log2size) && |table.rings| == MAX_BUCKETS && pg in table.rings[log2size - MIN_LOG2]
      requires 0 <= pg < table.pagemap.Length && table.pagemap[pg].payload.Busy?
      requires !AllBusy(table.pagemap[pg].payload.map_)
      modifies this`usedSize, this`live, table.pagemap
      ensures Valid() && use == old(use)
      ensures block != NULL && block !in old(live) && live == old(live)[block := Size(log2size)]
      ensures FirstSlot(pool.membase, old(live), pg, log2size, block)
    {
      hide Consistent, FirstSlot, Int32, SlotMap, PagePool.Valid, PageTable.Valid;
      ghost var e := table.pagemap[..];
      InBucket(use, pool.ranges, table.rings, e, live, pool.membase, checked, pg, log2size);
      PageBounds(pg, 1);
      var b := FirstFree(table.pagemap[pg].payload.map_);
      table.SetPage(pg, table.pagemap[pg].typ, Busy(table.pagemap[pg].payload.map_[b := true]));
      usedSize := usedSize + Size(log2size);
      block := PageToAddr(pg) + b * Size(log2size);
      FirstBit(use, pool.ranges, table.rings, e, live, pool.membase, checked, pg, log2size, b);
      TakeSlot(use, pool.ranges, table.rings, e, live, pool.membase, checked, pg, b, log2size);
      TotalAdd(live, block, Size(log2size));
      live := live[block := Size(log2size)];
    }

    /** A page that has become full goes to the back of its list. */
    method BackIfFull(pg: int, log2size: int)
      requires Valid() && IsLog2(log2size) && |table.rings| == MAX_BUCKETS
      requires var s := table.rings[log2size - MIN_LOG2]; s != [] && s[0] == pg
      requires 0 <= pg < table.pagemap.Length
      modifies table, table.pagemap, table.buckets
      ensures Valid() && SameBodies(old(table.pagemap[..]), table.pagemap[..])
      ensures var k := log2size - MIN_LOG2;
              table.rings == if AllBusy(AsMap(old(table.pagemap[pg].payload)))
                             then old(table.rings)[k := RemoveAt(old(table.rings)[k], 0) + [pg]] else old(table.rings)
    {
      hide Consistent, SlotMap, PagePool.Valid, PageTable.Valid, RemoveAt, LinksOnly, AllBusy;
      ghost var e, rings, k := table.pagemap[..], table.rings, log2size - MIN_LOG2;
      table.BucketHead(k);
      if AllBusy(AsMap(table.pagemap[pg].payload)) {
        table.MovePageBack(pg, log2size, 0);
        RemovedAt(rings[k], 0);
        Reorder(use, pool.ranges, rings, e, table.pagemap[..], live, pool.membase, checked, k,
                RemoveAt(rings[k], 0) + [pg], rings[k]);
        LinksAreBodies(e, table.pagemap[..], rings[k]);
      }
    }

    /** The heading page of a bucket has a free slot: evl_alloc_block_unlocked () hands it out. */
    method TakeFromPage(pg: int, log2size: int) returns (block: Addr)
      requires Valid() && IsLog2(log2size) && |table.rings| == MAX_BUCKETS
      requires var s := table.rings[log2size - MIN_LOG2]; s != [] && s[0] == pg
      requires 0 <= pg < table.pagemap.Length && table.pagemap[pg].payload.Busy?
      requires !AllBusy(table.pagemap[pg].payload.map_)
      modifies this`usedSize, this`live, table, table.pagemap, table.buckets
      ensures Valid() && use == old(use)
      ensures block != NULL && block !in old(live) && live == old(live)[block := Size(log2size)]
      ensures FirstSlot(pool.membase, old(live), pg, log2size, block)
      ensures var k := log2size - MIN_LOG2;
              table.rings == old(table.rings)[k := RingTaken(pool.membase, live, old(table.rings)[k], log2size)]
    {
      hide Consistent, FirstSlot, PagePool.Valid, PageTable.Valid, RemoveAt, AllBusy, AsMap, PageFull;
      InBucket(use, pool.ranges, table.rings, table.pagemap[..], live, pool.membase, checked, pg, log2size);
      block := TakeFirstFree(pg, log2size);
      FullPage(use, pool.ranges, table.rings, table.pagemap[..], live, pool.membase, checked, pg, log2size);
      BackIfFull(pg, log2size);
    }

    /** evl_alloc_block_unlocked () */
    method AllocBlock(size: int) returns (block: Addr, ghost bsize: int)
      requires Valid() && 0 <= size <= MAX_REQUEST
      modifies this, pool, pool.addrTree, pool.sizeTree, table, table.pagemap, table.buckets
      ensures Valid()
      ensures size > 0 ==> LeastBlock(size, bsize)
      ensures |old(table.rings)| == MAX_BUCKETS
      ensures block == NULL <==> size == 0 || NoRoom(pool.membase, old(Now()), bsize)
      ensures block == NULL ==> Unchanged(old(use), old(Now()))
      ensures block != NULL ==> block !in old(live) && live == old(live)[block := bsize]
      ensures size > 0 ==> AllocStep(pool.membase, old(Now()), bsize, block, Now())
    {
      hide Consistent, NoFit, LeastBlock, AllBusy, SlotMap, PagePool.Valid, PageTable.Valid, Pow2,
           FirstSlot, BestFitEnd, PageFull, RingTaken, AddedFront, AsMap;
      table.BucketHead(0);
      if size == 0 {
        return NULL, 0;
      }
      var rounded, log2size := BlockSize(size);
      bsize := rounded;
      if rounded < PAGE_SIZE {
        var ilog := log2size - MIN_LOG2;
        LogOfSize(log2size);
        table.BucketHead(ilog);
        var pg := table.buckets[ilog];
        if pg >= 0 {
          InBucket(use, pool.ranges, table.rings, table.pagemap[..], live, pool.membase, checked, pg, log2size);
          FullPage(use, pool.ranges, table.rings, table.pagemap[..], live, pool.membase, checked, pg, log2size);
          var bmask := table.pagemap[pg].payload.map_;
          if !AllBusy(bmask) {
            block := TakeFromPage(pg, log2size);
            return;
          }
        }
        block := AddBucketPage(log2size);
      } else {
        block := AddBlockRange(rounded);
      }
    }

    /** Nothing the heap is about has changed. */
    ghost predicate Unchanged(use0: seq<Use>, m: Moment)
      reads this, pool, table
    {
      use == use0 && Now() == m
    }

    /** release_page_range () of page `pg` on, as evl_free_block_unlocked () calls it. */
    method ReleasePages(pg: int, bsize: int)
      requires pool.Valid() && table.Valid() && 0 <= pg && 0 < bsize && bsize % PAGE_SIZE == 0 && 0 < pool.membase
      requires pg + bsize / PAGE_SIZE <= table.pagemap.Length <= MAX_PAGES
      requires pool.memlim == PageAddr(pool.membase, table.pagemap.Length)
      requires NoneFree(pool.ranges, PageAddr(pool.membase, pg), bsize)
      modifies pool, pool.addrTree, pool.sizeTree, table.pagemap
      ensures pool.Valid() && table.Valid()
      ensures PagesGiven(old(pool.ranges), pool.ranges, PageAddr(pool.membase, pg), bsize)
      ensures BodiesOutside(old(table.pagemap[..]), table.pagemap[..], pg, bsize / PAGE_SIZE)
      ensures checked ==> forall q :: pg <= q < pg + bsize / PAGE_SIZE ==> table.pagemap[q].typ == PAGE_FREE
    {
      hide NoneFree, PagesGiven, PagePool.Valid, PageTable.Valid, WholePages, Int32;
      PagesBack(pg, bsize);
      var page := PageToAddr(pg);
      pool.ReleasePageRange(page, bsize);
      table.MarkPages(pool.PageNr(page), bsize / PAGE_SIZE, PAGE_FREE, checked);
    }

    lemma {:induction false} PagesBack(pg: int, bsize: int)
      requires 0 <= pg && 0 < bsize && bsize % PAGE_SIZE == 0 && 0 < pool.membase
      requires pg + bsize / PAGE_SIZE <= table.pagemap.Length <= MAX_PAGES
      requires pool.memlim == PageAddr(pool.membase, table.pagemap.Length)
      ensures WholePages(PageAddr(pool.membase, pg), bsize, pool.membase, pool.memlim)
      ensures PageToAddr(pg) == PageAddr(pool.membase, pg) && pool.PageNr(PageAddr(pool.membase, pg)) == pg
    {
    }

    /** The page_list case of evl_free_block_unlocked (). */
    method FreePages(pg: int, bsize: int, ghost n: int)
      requires Valid() && 0 <= pg < |use| && use[pg] == Head(n) && bsize == n * PAGE_SIZE
      modifies this, pool, pool.addrTree, pool.sizeTree, table.pagemap
      ensures Valid() && PageAddr(pool.membase, pg) in old(live)
      ensures live == old(live) - {PageAddr(pool.membase, pg)} && old(live)[PageAddr(pool.membase, pg)] == bsize
      ensures bsize >= PAGE_SIZE
    {
      hide Consistent, NoneFree, PagesGiven, PagePool.Valid, PageTable.Valid, SetRun, BodiesOutside,
           PagePool.ByAddr, PagePool.BySize;
      ghost var e, r := table.pagemap[..], pool.ranges;
      pool.WholePool();
      BusyPages(use, r, table.rings, e, live, pool.membase, pool.memlim, checked, pg, n);
      ReleasePages(pg, bsize);
      usedSize := usedSize - bsize;
      GiveRun(use, r, pool.ranges, table.rings, e, table.pagemap[..], live, pool.membase, checked, pg, n);
      ghost var a := PageAddr(pool.membase, pg);
      TotalDrop(live, a);
      use, live := SetRun(use, pg, n, Idle, Idle), live - {a};
    }

    /** The other case of evl_free_block_unlocked (): slot `n` of page `pg`. */
    method FreeSlot(pg: int, log2size: int, n: int)
      requires Valid() && IsLog2(log2size) && 0 <= pg < |use| && use[pg] == Slotted(log2size)
      requires SlotLive(table.pagemap[pg], n, log2size)
      modifies this, pool, pool.addrTree, pool.sizeTree, table, table.pagemap, table.buckets
      ensures Valid() && SlotAddr(pool.membase, pg, n, log2size) in old(live)
      ensures live == old(live) - {SlotAddr(pool.membase, pg, n, log2size)}
      ensures old(live)[SlotAddr(pool.membase, pg, n, log2size)] == Size(log2size)
      ensures var k := log2size - MIN_LOG2;
              && |old(table.rings)| == MAX_BUCKETS
              && table.rings == old(table.rings)[k := RingFreed(pool.membase, old(live), live, old(table.rings)[k], pg,
                                                                log2size)]
    {
      hide Consistent, AllIdle, SlotMap, PagePool.Valid, PageTable.Valid, SlotAddr, AllBusy, PageFull, PageEmpty,
           AddedFront, RemoveAt;
      table.BucketHead(log2size - MIN_LOG2);
      ghost var i := WhereListed(use, pool.ranges, table.rings, table.pagemap[..], live, pool.membase, checked,
                                 pg, log2size);
      var oldmap := AsMap(table.pagemap[pg].payload);
      var map_ := oldmap[n := false];
      ghost var e := table.pagemap[..];
      FullPage(use, pool.ranges, table.rings, e, live, pool.membase, checked, pg, log2size);
      EmptyPage(use, pool.ranges, table.rings, e, live, pool.membase, checked, pg, log2size, n);
      PlaceIs(table.rings[log2size - MIN_LOG2], i);
      table.SetPage(pg, table.pagemap[pg].typ, Busy(map_));
      if AllIdle(map_, log2size) {
        FreeLastSlot(pg, log2size, n, i, e);
      } else {
        FreeOtherSlot(pg, log2size, n, oldmap, i, e);
      }
      usedSize := usedSize - Size(log2size);
      TotalDrop(old(live), SlotAddr(pool.membase, pg, n, log2size));
    }

    /** The page of the freed slot, at place `i` of its list, is fully idle; `e` is the page map before. */
    method FreeLastSlot(pg: int, log2size: int, ghost n: int, ghost i: int, ghost e: seq<PageEntry>)
      requires 0 < pool.membase && pool.Valid() && table.Valid() && |use| == table.pagemap.Length <= MAX_PAGES
      requires pool.memlim == PageAddr(pool.membase, |use|) && |table.rings| == MAX_BUCKETS && IsLog2(log2size)
      requires Consistent(use, pool.ranges, table.rings, e, live, pool.membase, checked)
      requires 0 <= pg < |use| == |e| && use[pg] == Slotted(log2size) && SlotLive(e[pg], n, log2size)
      requires AllIdle(e[pg].payload.map_[n := false], log2size)
      requires table.pagemap[..] == e[pg := e[pg].(payload := Busy(e[pg].payload.map_[n := false]))]
      requires var s := table.rings[log2size - MIN_LOG2]; 0 <= i < |s| && s[i] == pg && Distinct(s)
      modifies this`use, this`live, pool, pool.addrTree, pool.sizeTree, table, table.pagemap, table.buckets
      ensures pool.Valid() && table.Valid() && |use| == old(|use|)
      ensures var k := log2size - MIN_LOG2; table.rings == old(table.rings)[k := RemoveAt(old(table.rings)[k], i)]
      ensures SlotAddr(pool.membase, pg, n, log2size) in old(live)
      ensures live == old(live) - {SlotAddr(pool.membase, pg, n, log2size)}
      ensures old(live)[SlotAddr(pool.membase, pg, n, log2size)] == Size(log2size)
      ensures Consistent(use, pool.ranges, table.rings, table.pagemap[..], live, pool.membase, checked)
    {
      hide Consistent, AllIdle, SlotMap, NoneFree, PagesGiven, PagePool.Valid, PageTable.Valid, SetRun, BodiesOutside,
           RemoveAt, LinksOnly, SameBodies, SlotAddr, SlotLive;
      ghost var e1, r, rings, k := table.pagemap[..], pool.ranges, table.rings, log2size - MIN_LOG2;
      ghost var a := SlotAddr(pool.membase, pg, n, log2size);
      RemovedAt(rings[k], i);
      pool.WholePool();
      BusyPage(use, r, rings, e, live, pool.membase, pool.memlim, checked, pg, log2size);
      table.RemovePage(pg, log2size, i);
      LinksAreBodies(e1, table.pagemap[..], rings[k]);
      ghost var e2 := table.pagemap[..];
      ReleasePages(pg, PAGE_SIZE);
      BodiesChain(e, e1, e2, table.pagemap[..], pg);
      GivePage(use, r, pool.ranges, rings, RemoveAt(rings[k], i), e, table.pagemap[..], live, pool.membase, checked,
               pg, n, log2size);
      use, live := SetRun(use, pg, 1, Idle, Idle), live - {a};
    }

    /** The page of the freed slot still has live slots; it goes to the front of its list when it was full. */
    method FreeOtherSlot(pg: int, log2size: int, ghost n: int, oldmap: seq<bool>, ghost i: int, ghost e: seq<PageEntry>)
      requires table.Valid() && |use| == table.pagemap.Length && |table.rings| == MAX_BUCKETS && IsLog2(log2size)
      requires Consistent(use, pool.ranges, table.rings, e, live, pool.membase, checked)
      requires 0 <= pg < |use| == |e| && use[pg] == Slotted(log2size) && SlotLive(e[pg], n, log2size)
      requires !AllIdle(e[pg].payload.map_[n := false], log2size)
      requires table.pagemap[..] == e[pg := e[pg].(payload := Busy(e[pg].payload.map_[n := false]))]
      requires var s := table.rings[log2size - MIN_LOG2]; 0 <= i < |s| && s[i] == pg && Distinct(s)
      modifies this`live, table, table.pagemap, table.buckets
      ensures table.Valid() && SlotAddr(pool.membase, pg, n, log2size) in old(live)
      ensures var k := log2size - MIN_LOG2;
              table.rings == if AllBusy(oldmap) && i != 0
                             then old(table.rings)[k := AddedFront(RemoveAt(old(table.rings)[k], i), pg)]
                             else old(table.rings)
      ensures live == old(live) - {SlotAddr(pool.membase, pg, n, log2size)}
      ensures old(live)[SlotAddr(pool.membase, pg, n, log2size)] == Size(log2size)
      ensures Consistent(use, pool.ranges, table.rings, table.pagemap[..], live, pool.membase, checked)
    {
      hide Consistent, AllIdle, SlotMap, PageTable.Valid, RemoveAt, LinksOnly, SlotAddr, AllBusy, SlotLive, AddedFront;
      ghost var e1, rings, k := table.pagemap[..], table.rings, log2size - MIN_LOG2;
      GiveSlot(use, pool.ranges, rings, e, live, pool.membase, checked, pg, n, log2size);
      live := live - {SlotAddr(pool.membase, pg, n, log2size)};
      if AllBusy(oldmap) {
        table.MovePageFront(pg, log2size, i);
        MovedFront(rings[k], i, pg);
        Reorder(use, pool.ranges, rings, e1, table.pagemap[..], live, pool.membase, checked, k, table.rings[k],
                rings[k]);
      }
    }

    /** Addresses that evl_free_block_unlocked () tells from those of blocks. */
    ghost predicate Rejected(block: Addr)
      reads this
    {
      || !(pool.membase <= block < pool.memlim)
      || (var p := PageOf(block, pool.membase);
          0 <= p < |use| && match use[p]
                            case Idle => checked
                            case Tail(_) => checked
                            case Head(_) => false
                            case Slotted(l) => (block - pool.membase) % PAGE_SIZE % Size(l) != 0)
    }

    /** evl_free_block_unlocked (): `block` is live, or an address it rejects. */
    method FreeBlock(block: Addr) returns (err: int)
      requires Valid() && (block in live || Rejected(block))
      modifies this, pool, pool.addrTree, pool.sizeTree, table, table.pagemap, table.buckets
      ensures Valid()
      ensures block in old(live) ==> err == 0 && live == old(live) - {block}
      ensures block in old(live) ==> FreeStep(pool.membase, old(Now()), block, Now())
      ensures block !in old(live) ==> err == -EINVAL && Unchanged(old(use), old(Now()))
    {
      hide Consistent, PagePool.Valid, PageTable.Valid, Pow2, SlotLive, PageAddr, SlotAddr, RingFreed;
      table.BucketHead(0);
      LiveInside(use, pool.ranges, table.rings, table.pagemap[..], live, pool.membase, checked, block);
      if !(pool.membase <= block < pool.memlim) {
        return -EINVAL;
      }
      var pgoff := block - pool.membase;
      var pg := pgoff / PAGE_SIZE;
      Lookup(use, pool.ranges, table.rings, table.pagemap[..], live, pool.membase, checked, block);
      if !PageIsValid(pg) {
        return -EINVAL;
      }
      if table.pagemap[pg].typ == PAGE_LIST {
        var bsize := AsNumber(table.pagemap[pg].payload);
        FreePages(pg, bsize, use[pg].n);
      } else {
        var log2size := table.pagemap[pg].typ;
        var bsize := Pow2(log2size);
        var boff := pgoff % PAGE_SIZE;
        if boff % bsize != 0 {
          return -EINVAL;
        }
        LogOfSize(log2size);
        FreeSlot(pg, log2size, boff / bsize);
      }
      err := 0;
    }

    /** evl_check_block_unlocked () */
    method CheckBlock(block: Addr) returns (ret: int)
      requires Valid()
      ensures block in live ==> ret == live[block]
      ensures Rejected(block) ==> ret == -EINVAL
      ensures var p := PageOf(block, pool.membase);
              !Rejected(block) && (checked || use[p].Head? || use[p].Slotted?)
              ==> ret == SizeAt(block, use, pool.membase)
    {
      hide Consistent, PagePool.Valid, PageTable.Valid, Pow2, PageAddr, SlotAddr;
      LiveInside(use, pool.ranges, table.rings, table.pagemap[..], live, pool.membase, checked, block);
      ret := -EINVAL;
      if !(pool.membase <= block < pool.memlim) {
        return;
      }
      var pgoff := block - pool.membase;
      var pg := pgoff / PAGE_SIZE;
      Entry(use, pool.ranges, table.rings, table.pagemap[..], live, pool.membase, checked, block);
      if PageIsValid(pg) {
        var bsize;
        if table.pagemap[pg].typ == PAGE_LIST {
          bsize := AsNumber(table.pagemap[pg].payload);
        } else {
          bsize := Pow2(table.pagemap[pg].typ);
          var boff := pgoff % PAGE_SIZE;
          if boff % bsize != 0 {
            return -EINVAL;
          }
        }
        ret := bsize;
      }
    }

    constructor (base: Addr, userSize: int, debug: bool)
      requires 0 < base && userSize % PAGE_SIZE == 0 && PAGE_SIZE <= userSize <= MAX_PAGES * PAGE_SIZE
      ensures Valid() && pool.membase == base && pool.memlim == base + userSize && checked == debug
      ensures live == map[] && pool.ranges == map[base := userSize]
      ensures fresh(pool) && fresh(pool.addrTree) && fresh(pool.sizeTree)
      ensures fresh(table) && fresh(table.pagemap) && fresh(table.buckets)
    {
      hide Consistent, WholePages, PagePool.Valid, PageTable.Valid;
      pool := new PagePool(base, base + userSize);
      table := new PageTable(userSize / PAGE_SIZE);
      checked := debug;
      usedSize := 0;
      use := seq(userSize / PAGE_SIZE, i => Idle);
      live := map[];
      new;
      ghost var r := pool.ranges;
      StartAt(base, userSize);
      pool.ReleasePageRange(base, userSize);
      table.MarkPages(0, userSize / PAGE_SIZE, PAGE_FREE, checked);
      GivenAll(r, pool.ranges, base, userSize);
      pool.WhollyFree(userSize);
      StartsConsistent(use, pool.ranges, table.rings, table.pagemap[..], base, checked);
      TotalNone();
    }
  }

  /**
   * evl_init_heap_unlocked () and add_extent () on `size` bytes at `mem`: the descriptor and the page map lie between
   * `mem` and the page pool.
   */
  method InitHeap(mem: Addr, size: int, debug: bool) returns (ret: int, h: EvlHeap?)
    requires 0 < mem && 0 <= size < UINT64_RANGE && AddExtent(size, EXTENT_BYTES) <= MAX_PAGES * PAGE_SIZE
    ensures ret == AddExtent(size, EXTENT_BYTES) && (h == null <==> ret < 0)
    ensures h != null ==> h.Valid() && h.live == map[] && h.pool.ranges == map[h.pool.membase := ret]
    ensures h != null ==> h.pool.memlim == mem + size && (h.pool.membase - mem) % MIN_ALIGN == 0
    ensures h != null ==> mem + EXTENT_BYTES + ret / PAGE_SIZE * PGMAP_BYTES <= h.pool.membase
  {
    hide AddExtent, Overhead, Consistent, PagePool.Valid, PageTable.Valid;
    ret := AddExtent(size, EXTENT_BYTES);
    if ret < 0 {
      return ret, null;
    }
    MetadataFits(size, EXTENT_BYTES);
    h := new EvlHeap(mem + Overhead(size, EXTENT_BYTES), ret, debug);
  }

  /**
   * The first block of a fresh extent is taken from its upper end. On extents that add_extent () accepts, the address
   * computed for it is right exactly when it starts below page 2^22; otherwise it lies below the extent.
   */
  method FirstBlock(base: Addr, nrpages: int, n: int) returns (pg: int, addr: Addr)
    requires 0 < base && 0 < n <= nrpages <= MAX_EXTENT / PAGE_SIZE
    ensures pg == nrpages - n && addr == base + Int32(pg * PAGE_SIZE)
    ensures addr == base + pg * PAGE_SIZE <==> pg < MAX_PAGES
    ensures pg >= MAX_PAGES ==> addr < base
  {
    hide PagePool.Valid, WholePages, PagesGiven, PagesTaken;
    var size := nrpages * PAGE_SIZE;
    var pool := new PagePool(base, base + size);
    StartAt(base, size);
    ghost var none := pool.ranges;
    pool.ReleasePageRange(base, size);
    GivenAll(none, pool.ranges, base, size);
    pool.WhollyFree(size);
    ghost var a;
    assert base in pool.ranges && pool.ranges[base] >= n * PAGE_SIZE;
    pg, a := pool.ReservePageRange(n * PAGE_SIZE);
    assert a == base;
    addr := base + Int32(pg * PAGE_SIZE);
    PageShift(pg);
    if pg >= MAX_PAGES {
      BeyondTwoGiB(base, pg);
    }
  }

  lemma {:induction false} StartAt(base: Addr, size: int)
    requires size % PAGE_SIZE == 0 && PAGE_SIZE <= size
    ensures WholePages(base, size, base, base + size) && NoneFree(map[], base, size)
    ensures base + size == PageAddr(base, size / PAGE_SIZE) && size == size / PAGE_SIZE * PAGE_SIZE
  {
  }

  lemma {:induction false} GivenAll(r: Ranges, r': Ranges, page: Addr, n: int)
    requires PagesGiven(r, r', page, n)
    ensures AllFree(r', page, n)
  {
  }

  lemma {:induction false} StartsConsistent(use: seq<Use>, r: Ranges, rings: seq<seq<int>>, e: seq<PageEntry>,
                                            base: Addr, checked: bool)
    requires |e| == |use| && (forall p :: 0 <= p < |use| ==> use[p].Idle? && e[p].typ == PAGE_FREE)
    requires rings == [[], [], [], [], []] && AllFree(r, base, |use| * PAGE_SIZE)
    ensures Consistent(use, r, rings, e, map[], base, checked)
  {
    forall p | 0 <= p < |use| ensures Free(r, PageAddr(base, p)) {
      PageInside(base, 0, |use|, p);
    }
    assert forall p :: 0 <= p < |use| ==> UseAt(use, p);
  }

  lemma {:induction false} FreePageUnlisted(use: seq<Use>, r: Ranges, r': Ranges, rings: seq<seq<int>>,
                                            e: seq<PageEntry>,
                                            live: map<Addr, int>, base: Addr, checked: bool, p: int)
    requires Consistent(use, r, rings, e, live, base, checked) && 0 <= p < |use|
    requires PagesTaken(r, r', PageAddr(base, p), PAGE_SIZE)
    ensures |rings| == MAX_BUCKETS && Unlisted(rings, p)
  {
    FreeRun(use, r, r', base, p, 1);
    ListedUse(rings, use, p);
  }

  lemma {:induction false} InBucket(use: seq<Use>, r: Ranges, rings: seq<seq<int>>, e: seq<PageEntry>,
                                    live: map<Addr, int>, base: Addr, checked: bool, p: int, l: int)
    requires Consistent(use, r, rings, e, live, base, checked) && IsLog2(l) && 0 <= p < |e|
    requires |rings| == MAX_BUCKETS && p in rings[l - MIN_LOG2]
    ensures |e| == |use| && use[p] == Slotted(l)
    ensures e[p].typ == l && e[p].payload.Busy? && |e[p].payload.map_| == MAP_BITS && SlotMap(e[p].payload.map_, l)
  {
    SlottedPage(rings, use, e, checked, p, l);
  }

  lemma {:induction false} BusyPages(use: seq<Use>, r: Ranges, rings: seq<seq<int>>, e: seq<PageEntry>,
                                     live: map<Addr, int>, base: Addr, lim: Addr, checked: bool, p: int, n: int)
    requires Consistent(use, r, rings, e, live, base, checked) && AllWhole(r, base, lim)
    requires 0 <= p < |use| && use[p] == Head(n)
    ensures NoneFree(r, PageAddr(base, p), n * PAGE_SIZE) && 0 < n && p + n <= |use|
  {
    HeadRun(use, p, n);
    BusyRun(use, r, base, lim, p, n);
  }

  lemma {:induction false} BusyPage(use: seq<Use>, r: Ranges, rings: seq<seq<int>>, e: seq<PageEntry>,
                                    live: map<Addr, int>, base: Addr, lim: Addr, checked: bool, p: int, l: int)
    requires Consistent(use, r, rings, e, live, base, checked) && AllWhole(r, base, lim)
    requires 0 <= p < |use| && use[p] == Slotted(l)
    ensures NoneFree(r, PageAddr(base, p), PAGE_SIZE)
  {
    BusyRun(use, r, base, lim, p, 1);
  }

  lemma {:induction false} WhereListed(use: seq<Use>, r: Ranges, rings: seq<seq<int>>, e: seq<PageEntry>,
                                       live: map<Addr, int>, base: Addr, checked: bool, p: int, l: int) returns (i: int)
    requires Consistent(use, r, rings, e, live, base, checked) && IsLog2(l)
    requires |rings| == MAX_BUCKETS && 0 <= p < |use| && use[p] == Slotted(l)
    ensures 0 <= i < |rings[l - MIN_LOG2]| && rings[l - MIN_LOG2][i] == p
    ensures |e| == |use| && e[p].payload.Busy? && |e[p].payload.map_| == MAP_BITS
  {
    SlottedPage(rings, use, e, checked, p, l);
    i :| 0 <= i < |rings[l - MIN_LOG2]| && rings[l - MIN_LOG2][i] == p;
  }

  lemma {:induction false} BodiesChain(e: seq<PageEntry>, e1: seq<PageEntry>, e2: seq<PageEntry>, e': seq<PageEntry>,
                                       p: int)
    requires 0 <= p < |e| == |e1| && (forall q :: 0 <= q < |e| && q != p ==> e1[q] == e[q])
    requires SameBodies(e1, e2) && BodiesOutside(e2, e', p, 1)
    ensures BodiesOutside(e, e', p, 1)
  {
  }

  lemma {:induction false} MovedFront(s: seq<int>, i: int, pg: int)
    requires 0 <= i < |s| && Distinct(s) && s[i] == pg
    ensures forall q :: q in (if i == 0 then s else AddedFront(RemoveAt(s, i), pg)) <==> q in s
  {
    RemovedAt(s, i);
  }

  lemma {:induction false} LiveInside(use: seq<Use>, r: Ranges, rings: seq<seq<int>>, e: seq<PageEntry>,
                                      live: map<Addr, int>, base: Addr, checked: bool, a: Addr)
    requires Consistent(use, r, rings, e, live, base, checked)
    ensures a in live ==> base <= a < PageAddr(base, |use|)
    ensures 0 <= PageOf(a, base) < |use| <==> base <= a < PageAddr(base, |use|)
  {
    if a in live {
      assert IsLive(a, use, e, base);
    }
  }

  /** What the page map says about the page of an address. */
  lemma {:induction false} Entry(use: seq<Use>, r: Ranges, rings: seq<seq<int>>, e: seq<PageEntry>,
                                 live: map<Addr, int>, base: Addr, checked: bool, a: Addr)
    requires Consistent(use, r, rings, e, live, base, checked) && 0 <= PageOf(a, base) < |use|
    ensures |e| == |use|
    ensures var p := PageOf(a, base);
            match use[p]
            case Idle => checked ==> e[p].typ == PAGE_FREE
            case Tail(_) => checked ==> e[p].typ == PAGE_CONT
            case Head(n) => e[p].typ == PAGE_LIST && AsNumber(e[p].payload) == n * PAGE_SIZE
            case Slotted(l) => IsLog2(l) && e[p].typ == l && Pow2(l) == Size(l)
    ensures a in live ==> use[PageOf(a, base)].Head? || use[PageOf(a, base)].Slotted?
    ensures a in live ==> live[a] == SizeAt(a, use, base)
    ensures a in live && use[PageOf(a, base)].Slotted? ==> (a - base) % PAGE_SIZE % Size(use[PageOf(a, base)].l) == 0
  {
    var p := PageOf(a, base);
    assert UseAt(use, p) && EntryOk(e[p], use[p], checked);
    if use[p].Slotted? {
      SizeIsPow(use[p].l);
    }
    if a in live {
      assert IsLive(a, use, e, base);
      if use[p].Slotted? {
        SlotAligned(base, p, SlotOf(a, base, use[p].l), use[p].l);
      }
    }
  }

  lemma {:induction false} SlotAligned(base: Addr, p: int, s: int, l: int)
    requires IsLog2(l) && 0 <= s < Slots(l)
    ensures (SlotAddr(base, p, s, l) - base) % PAGE_SIZE % Size(l) == 0
  {
    assert 0 <= s * Size(l) < PAGE_SIZE;
    assert (p * PAGE_SIZE + s * Size(l)) % PAGE_SIZE == s * Size(l);
    SizeDivides(s, l);
  }

  lemma {:induction false} SizeDivides(s: int, l: int)
    requires IsLog2(l)
    ensures s * Size(l) % Size(l) == 0
  {
    if l == 4 {
      assert s * 16 % 16 == 0;
    } else if l == 5 {
      assert s * 32 % 32 == 0;
    } else if l == 6 {
      assert s * 64 % 64 == 0;
    } else if l == 7 {
      assert s * 128 % 128 == 0;
    } else {
      assert s * 256 % 256 == 0;
    }
  }

  /** What a live block is. */
  lemma {:induction false} Lookup(use: seq<Use>, r: Ranges, rings: seq<seq<int>>, e: seq<PageEntry>,
                                  live: map<Addr, int>, base: Addr, checked: bool, a: Addr)
    requires Consistent(use, r, rings, e, live, base, checked) && 0 <= PageOf(a, base) < |use|
    ensures |e| == |use|
    ensures var p := PageOf(a, base);
            match use[p]
            case Idle => checked ==> e[p].typ == PAGE_FREE
            case Tail(_) => checked ==> e[p].typ == PAGE_CONT
            case Head(n) => e[p].typ == PAGE_LIST && AsNumber(e[p].payload) == n * PAGE_SIZE
            case Slotted(l) => IsLog2(l) && e[p].typ == l && Pow2(l) == Size(l)
    ensures a in live ==> var p := PageOf(a, base);
              match use[p]
              case Head(n) => a == PageAddr(base, p)
              case Slotted(l) => var s := SlotOf(a, base, l);
                && (a - base) % PAGE_SIZE % Size(l) == 0 && a == SlotAddr(base, p, s, l) && SlotLive(e[p], s, l)
              case _ => false
  {
    Entry(use, r, rings, e, live, base, checked, a);
    if a in live {
      assert IsLive(a, use, e, base);
    }
  }

  // ---------- What holds after any history of allocations and frees of live blocks ----------

  /** Live blocks do not overlap. */
  lemma {:induction false} Disjoint(h: EvlHeap, a: Addr, b: Addr)
    requires h.Valid() && a in h.live && b in h.live && a < b
    ensures a + h.live[a] <= b
  {
    BlocksApart(h.use, h.table.pagemap[..], h.live, h.pool.membase, a, b);
  }

  lemma {:induction false} BlocksApart(use: seq<Use>, e: seq<PageEntry>, live: map<Addr, int>, base: Addr, a: Addr,
                                       b: Addr)
    requires UseOk(use) && LiveMatch(live, use, e, base) && a in live && b in live && a < b
    ensures a + live[a] <= b
  {
    assert IsLive(a, use, e, base) && IsLive(b, use, e, base);
    var p, q := PageOf(a, base), PageOf(b, base);
    assert UseAt(use, p);
    match use[p] {
      case Head(n) =>
        assert use[q] != Tail(p);
      case Slotted(l) =>
        SlotsApart(base, p, SlotOf(a, base, l), l, q, b);
        if p == q {
          SlotOrder(base, p, SlotOf(a, base, l), SlotOf(b, base, l), l);
        }
    }
  }

  lemma {:induction false} SlotsApart(base: Addr, p: int, s: int, l: int, q: int, b: Addr)
    requires IsLog2(l) && 0 <= s < Slots(l) && q == PageOf(b, base)
    ensures p < q ==> SlotAddr(base, p, s, l) + Size(l) <= b
    ensures q < p ==> b < SlotAddr(base, p, s, l)
  {
    assert 0 <= s * Size(l) <= PAGE_SIZE - Size(l);
  }

  lemma {:induction false} SlotOrder(base: Addr, p: int, s: int, t: int, l: int)
    requires IsLog2(l)
    ensures s < t <==> SlotAddr(base, p, s, l) < SlotAddr(base, p, t, l)
    ensures s < t ==> SlotAddr(base, p, s, l) + Size(l) <= SlotAddr(base, p, t, l)
  {
  }

  /** Live blocks lie within the extent, on 16-byte boundaries, and use no free byte. */
  lemma {:induction false} Placed(h: EvlHeap, a: Addr)
    requires h.Valid() && a in h.live
    ensures h.pool.membase <= a && a + h.live[a] <= h.pool.memlim && (a - h.pool.membase) % MIN_ALIGN == 0
    ensures h.live[a] >= MIN_ALIGN && NoneFree(h.pool.ranges, a, h.live[a])
  {
    h.pool.WholePool();
    BlockPlaced(h.use, h.pool.ranges, h.table.pagemap[..], h.live, h.pool.membase, h.pool.memlim, a);
  }

  lemma {:induction false} BlockPlaced(use: seq<Use>, r: Ranges, e: seq<PageEntry>, live: map<Addr, int>,
                                       base: Addr, lim: Addr, a: Addr)
    requires UseOk(use) && FreeMatch(use, r, base) && LiveMatch(live, use, e, base) && AllWhole(r, base, lim)
    requires a in live
    ensures base <= a && a + live[a] <= PageAddr(base, |use|) && (a - base) % MIN_ALIGN == 0
    ensures live[a] >= MIN_ALIGN && NoneFree(r, a, live[a])
  {
    assert IsLive(a, use, e, base);
    var p := PageOf(a, base);
    assert UseAt(use, p);
    match use[p] {
      case Head(n) =>
        HeadRun(use, p, n);
        BusyRun(use, r, base, lim, p, n);
      case Slotted(l) =>
        BusyRun(use, r, base, lim, p, 1);
        SlotInPage(base, p, SlotOf(a, base, l), l);
        assert forall x :: Inside(x, a, live[a]) ==> Inside(x, PageAddr(base, p), PAGE_SIZE);
    }
  }

  lemma {:induction false} SlotInPage(base: Addr, p: int, s: int, l: int)
    requires IsLog2(l) && 0 <= s < Slots(l)
    ensures PageAddr(base, p) <= SlotAddr(base, p, s, l)
    ensures SlotAddr(base, p, s, l) + Size(l) <= PageAddr(base, p) + PAGE_SIZE
    ensures (SlotAddr(base, p, s, l) - base) % MIN_ALIGN == 0
  {
    assert 0 <= s * Size(l) <= PAGE_SIZE - Size(l);
    var q := Sixteens(s, l);
    assert p * PAGE_SIZE + s * Size(l) == 16 * (32 * p + q);
    SixteenTimes(32 * p + q);
  }

  lemma {:induction false} SixteenTimes(k: int)
    ensures 16 * k % MIN_ALIGN == 0
  {
  }

  lemma {:induction false} Sixteens(s: int, l: int) returns (q: int)
    requires IsLog2(l)
    ensures s * Size(l) == 16 * q
  {
    q := if l == 4 then s else if l == 5 then 2 * s else if l == 6 then 4 * s else if l == 7 then 8 * s else 16 * s;
  }

  /** Free ranges and page lists of a heap agree with its live blocks. */
  lemma {:induction false} NowOk(h: EvlHeap)
    requires h.Valid()
    ensures MomentOk(h.pool.membase, h.pool.memlim, h.Now())
  {
    hide PagePool.Valid, PageTable.Valid, Consistent, Met, Slotting, SlotsOnly, Coalesced;
    var base, e, rings := h.pool.membase, h.table.pagemap[..], h.table.rings;
    h.pool.WholePool();
    h.table.BucketHead(0);
    PageAddrOf(base, |h.use|);
    forall p | 0 <= p < |h.use| ensures Free(h.pool.ranges, PageAddr(base, p)) <==> !Met(h.live, PageAddr(base, p)) {
      FreeMet(h.use, h.pool.ranges, rings, e, h.live, base, h.pool.memlim, h.checked, p);
    }
    forall k | 0 <= k < MAX_BUCKETS ensures Distinct(rings[k]) {
      h.table.BucketHead(k);
    }
    forall k, p | 0 <= k < MAX_BUCKETS ensures p in rings[k] <==> Slotting(base, h.live, p, k + MIN_LOG2) {
      if p in rings[k] {
        h.table.InRange(k, p);
      }
      RingMember(h.use, h.pool.ranges, rings, e, h.live, base, h.checked, k, p);
    }
    forall k | 0 <= k < MAX_BUCKETS ensures SlotsOnly(base, h.live, rings[k], k + MIN_LOG2) {
      BlocksListed(h.use, h.pool.ranges, rings, e, h.live, base, h.checked, k);
    }
    forall a | a in h.live ensures h.live[a] > 0 {
      Placed(h, a);
    }
  }

  lemma {:induction false} BlocksListed(use: seq<Use>, r: Ranges, rings: seq<seq<int>>, e: seq<PageEntry>,
                                        live: map<Addr, int>, base: Addr, checked: bool, k: int)
    requires Consistent(use, r, rings, e, live, base, checked) && 0 <= k < MAX_BUCKETS == |rings|
    ensures SlotsOnly(base, live, rings[k], k + MIN_LOG2)
  {
    var l := k + MIN_LOG2;
    forall a | a in live && PageOf(a, base) in rings[k] ensures live[a] == Size(l) && IsSlot(base, a, l) {
      assert IsLive(a, use, e, base);
    }
  }

  /** A page is free exactly when no block meets it. */
  lemma {:induction false} FreeMet(use: seq<Use>, r: Ranges, rings: seq<seq<int>>, e: seq<PageEntry>,
                                   live: map<Addr, int>, base: Addr, lim: Addr, checked: bool, p: int)
    requires Consistent(use, r, rings, e, live, base, checked) && AllWhole(r, base, lim) && 0 <= p < |use|
    ensures Free(r, PageAddr(base, p)) <==> !Met(live, PageAddr(base, p))
  {
    hide AllWhole, EntriesOk, LiveMatch, UseOk, Free;
    var page := PageAddr(base, p);
    PageAddrOf(base, p);
    if Met(live, page) {
      var a :| a in live && a < page + PAGE_SIZE && page < a + live[a];
      var x := if a < page then page else a;
      BlockPlaced(use, r, e, live, base, lim, a);
      assert Inside(x, a, live[a]) && PageOf(x, base) == p;
      FreePage(r, base, lim, x);
    } else if use[p].Slotted? {
      var a := SomeBlock(use, e, live, base, checked, p);
      BlockPlaced(use, r, e, live, base, lim, a);
    } else if !use[p].Idle? {
      var a := BlockOver(use, e, live, base, page);
    }
  }

  /** A page is listed exactly when it holds blocks of the bucket's size. */
  lemma {:induction false} RingMember(use: seq<Use>, r: Ranges, rings: seq<seq<int>>, e: seq<PageEntry>,
                                      live: map<Addr, int>, base: Addr, checked: bool, k: int, p: int)
    requires Consistent(use, r, rings, e, live, base, checked) && 0 <= k < MAX_BUCKETS == |rings|
    requires p in rings[k] ==> 0 <= p < |use|
    ensures p in rings[k] <==> Slotting(base, live, p, k + MIN_LOG2)
  {
    if p in rings[k] {
      var a := SomeBlock(use, e, live, base, checked, p);
      assert live[a] == SizeAt(a, use, base);
    }
    if Slotting(base, live, p, k + MIN_LOG2) {
      var a :| a in live && PageOf(a, base) == p && live[a] == Size(k + MIN_LOG2);
      assert IsLive(a, use, e, base) && live[a] == SizeAt(a, use, base);
      assert UseAt(use, p);
    }
  }

  /** Once every block is freed, in any order, the pool is again one range covering the extent, in both trees. */
  lemma {:induction false} AllFreed(h: EvlHeap)
    requires h.Valid() && h.live == map[]
    ensures h.pool.ranges == map[h.pool.membase := h.pool.memlim - h.pool.membase]
    ensures h.pool.ByAddr() == [h.pool.membase] && h.pool.BySize() == [h.pool.membase] && h.usedSize == 0
  {
    hide PagePool.Valid, PageTable.Valid;
    h.pool.WholePool();
    var n := |h.use|;
    NoBlockNoUse(h.use, h.table.pagemap[..], h.pool.membase, h.checked);
    IdleIsFree(h.use, h.pool.ranges, h.pool.membase, h.pool.memlim);
    h.pool.WhollyFree(n * PAGE_SIZE);
    TotalNone();
  }

  /** A page of a bucket, and the first page of a multi-page block, always hold a live block. */
  lemma {:induction false} SomeBlock(use: seq<Use>, e: seq<PageEntry>, live: map<Addr, int>, base: Addr,
                                     checked: bool, p: int)
    returns (a: Addr)
    requires UseOk(use) && EntriesOk(e, use, checked) && LiveMatch(live, use, e, base)
    requires 0 <= p < |use| && (use[p].Head? || use[p].Slotted?)
    ensures a in live && PageOf(a, base) == p
  {
    assert UseAt(use, p) && EntryOk(e[p], use[p], checked);
    if use[p].Slotted? {
      var l := use[p].l;
      var s :| 0 <= s < Slots(l) && e[p].payload.map_[s];
      SlotAddrOf(base, p, s, l);
      a := SlotAddr(base, p, s, l);
    } else {
      PageAddrOf(base, p);
      a := PageAddr(base, p);
    }
    assert IsLive(a, use, e, base);
  }

  lemma {:induction false} NoBlockNoUse(use: seq<Use>, e: seq<PageEntry>, base: Addr, checked: bool)
    requires UseOk(use) && EntriesOk(e, use, checked) && LiveMatch(map[], use, e, base)
    ensures forall p :: 0 <= p < |use| ==> use[p].Idle?
  {
    forall p | 0 <= p < |use| ensures !use[p].Head? && !use[p].Slotted? {
      if use[p].Head? || use[p].Slotted? {
        var a := SomeBlock(use, e, map[], base, checked, p);
      }
    }
    forall p | 0 <= p < |use| ensures !use[p].Tail? {
      assert UseAt(use, p);
    }
  }

  /** The busy map of a bucket page tells which of its slots are live; the bits beyond the last slot stay set. */
  lemma {:induction false} BusyMap(h: EvlHeap, l: int, p: int, s: int)
    requires h.Valid() && IsLog2(l) && |h.table.rings| == MAX_BUCKETS && p in h.table.rings[l - MIN_LOG2]
    requires 0 <= s < MAP_BITS
    ensures 0 <= p < h.table.pagemap.Length && h.table.pagemap[p].typ == l
    ensures h.table.pagemap[p].payload.Busy? && |h.table.pagemap[p].payload.map_| == MAP_BITS
    ensures h.table.pagemap[p].payload.map_[s] <==> s >= Slots(l) || SlotAddr(h.pool.membase, p, s, l) in h.live
    ensures exists t :: 0 <= t < Slots(l) && h.table.pagemap[p].payload.map_[t]
  {
    hide PagePool.Valid;
    h.table.BucketHead(l - MIN_LOG2);
    h.table.InRange(l - MIN_LOG2, p);
    SlottedPage(h.table.rings, h.use, h.table.pagemap[..], h.checked, p, l);
    var a := SlotAddr(h.pool.membase, p, s, l);
    if s < Slots(l) {
      SlotAddrOf(h.pool.membase, p, s, l);
      assert a in h.live <==> IsLive(a, h.use, h.table.pagemap[..], h.pool.membase);
    }
  }

  /** Byte `x` is in a page of the list of bucket `k`. */
  ghost predicate InList(h: EvlHeap, x: Addr, k: int)
    reads h, h.table
  {
    0 <= k < |h.table.rings| && PageOf(x, h.pool.membase) in h.table.rings[k]
  }

  /** Byte `x` is in the live multi-page block at `a`. */
  ghost predicate InBlock(h: EvlHeap, x: Addr, a: Addr)
    reads h
  {
    a in h.live && a <= x < a + h.live[a] && h.live[a] >= PAGE_SIZE
  }

  /** Every byte of the extent is in a free range, in one bucket page, or in one multi-page block. */
  lemma {:induction false} Partition(h: EvlHeap, x: Addr)
    requires h.Valid() && h.pool.membase <= x < h.pool.memlim
    ensures Free(h.pool.ranges, x) ==> (forall k :: !InList(h, x, k)) && (forall a :: !InBlock(h, x, a))
    ensures !Free(h.pool.ranges, x) ==> ((exists k :: InList(h, x, k)) <==> (forall a :: !InBlock(h, x, a)))
    ensures forall k, j :: InList(h, x, k) && InList(h, x, j) ==> k == j
    ensures forall a, b :: InBlock(h, x, a) && InBlock(h, x, b) ==> a == b
  {
    hide PagePool.Valid, PageTable.Valid;
    h.pool.WholePool();
    var p, base := PageOf(x, h.pool.membase), h.pool.membase;
    FreePage(h.pool.ranges, base, h.pool.memlim, x);
    forall k | InList(h, x, k) ensures h.use[p] == Slotted(k + MIN_LOG2) {
    }
    forall a, b | InBlock(h, x, a) && InBlock(h, x, b) ensures a == b {
      if a < b {
        Disjoint(h, a, b);
      } else if b < a {
        Disjoint(h, b, a);
      }
    }
    forall a | InBlock(h, x, a) ensures h.use[p].Head? || h.use[p].Tail? {
      BlockPages(h.use, h.table.pagemap[..], h.live, base, a, x);
    }
    if h.use[p].Slotted? {
      assert UseAt(h.use, p);
      assert InList(h, x, h.use[p].l - MIN_LOG2);
    } else if !h.use[p].Idle? {
      var a := BlockOver(h.use, h.table.pagemap[..], h.live, base, x);
      assert InBlock(h, x, a);
    }
  }

  lemma {:induction false} BlockPages(use: seq<Use>, e: seq<PageEntry>, live: map<Addr, int>, base: Addr, a: Addr,
                                      x: Addr)
    requires UseOk(use) && LiveMatch(live, use, e, base) && a in live && a <= x < a + live[a] && live[a] >= PAGE_SIZE
    ensures var p := PageOf(x, base); 0 <= p < |use| && (use[p].Head? || use[p].Tail?)
  {
    assert IsLive(a, use, e, base);
    var q := PageOf(a, base);
    assert UseAt(use, q);
    assert use[q].Head?;
    HeadRun(use, q, use[q].n);
    assert q <= PageOf(x, base) < q + use[q].n;
  }

  lemma {:induction false} BlockOver(use: seq<Use>, e: seq<PageEntry>, live: map<Addr, int>, base: Addr, x: Addr)
    returns (a: Addr)
    requires UseOk(use) && LiveMatch(live, use, e, base)
    requires var p := PageOf(x, base); 0 <= p < |use| && (use[p].Head? || use[p].Tail?)
    ensures a in live && a <= x < a + live[a] && live[a] >= PAGE_SIZE
  {
    var p := PageOf(x, base);
    var q := if use[p].Head? then p else use[p].h;
    assert UseAt(use, p) && UseAt(use, q);
    PageAddrOf(base, q);
    a := PageAddr(base, q);
    assert IsLive(a, use, e, base);
  }

  lemma {:induction false} IdleIsFree(use: seq<Use>, r: Ranges, base: Addr, lim: Addr)
    requires FreeMatch(use, r, base) && AllWhole(r, base, lim) && forall p :: 0 <= p < |use| ==> use[p].Idle?
    ensures AllFree(r, base, |use| * PAGE_SIZE)
  {
    forall x | Inside(x, base, |use| * PAGE_SIZE) ensures Free(r, x) {
      FreePage(r, base, lim, x);
      assert use[PageOf(x, base)].Idle?;
    }
  }
}
