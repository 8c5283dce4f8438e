# Verified model of libevl's heap, ring, reader/writer lock and packet helpers

This project models the parts of libevl whose correctness is hardest to see in the C code, and proves it:

- **The memory heap** (`lib/heap.c`, `include/evl/heap.h`), one extent. Three layers, each a class whose fields the
  methods update in place:
  - a parent-linked AVL tree (`Avl*.dfy`). The holders live in a memory that maps addresses to `struct avlh`; a ghost
    tree and its context (a zipper) say which holders are linked how. `Valid` states that child, `up` and `type` links
    agree, that each `balance` is the height difference of its subtrees in {-1, 0, 1}, and that count, height, head and
    tail are exact. Every operation keeps it and changes the in-order sequence by exactly one holder;
  - the pool of free page ranges (`FreeRanges.dfy`, `RangePool.dfy`), indexed by address and by size. The two trees
    always index the same ranges, which never overlap nor touch;
  - the page map, the circular page lists of the buckets (`PageRings.dfy`, `PageLists.dfy`) and the busy maps
    (`HeapState.dfy`), under the allocator itself (`Heap.dfy`). The ghost map `live` holds the blocks that were handed
    out and not freed, with their sizes; the ghost sequence `use` says what each page is for. Any history of calls that
    frees only live blocks keeps `Valid` (`HeapHistory.dfy`), so the lemmas about a valid heap hold after any history.
    `HeapMoments.dfy` says what each call does to the blocks, the free ranges and the page lists, and that the replies
    leave no choice about it; `HeapHeads.dfy` is about the heading pages of the lists.
- **The MP/MC ring** (`include/evl/ring_ptr.h`), twice: as a system of atomic steps of any number of threads
  (`RingSteps.dfy`, `RingSafety.dfy`), and as a class used by one thread, which is a bounded FIFO (`RingQueue.dfy`).
  `RingCalls.dfy` adds a log of the calls, which an observer of the steps keeps, and relates what a dequeue returns to
  the argument of an enqueue; `RingSerial.dfy` shows that the step system is a bounded FIFO too when calls do not
  overlap; `RingProgress.dfy` says when calls may fail, and that a thread left alone finishes its call. `RingMap.dfy` has
  the tickets, their cycles and the index map.
- **The reader/writer lock** (`lib/rwlock.c`) as a system of atomic steps (`RwLock.dfy`): loads and
  compare-and-exchanges of the lock word are separate steps, the WR flag is a token, a release calls all waiting readers
  at once, and a waiting reader may also wake up uncalled. `RwCalls.dfy` says what each call does when its thread is left
  alone in any state of a run, and that no waiting reader is forgotten.
- **The test frames of latmus** (`latmus/net.c`): the CRC table against the bit-serial CRC (`Crc8.dfy`), and the round
  trip of a frame (`Frame.dfy`).
- **The Internet checksum** (`tidbits/oob-net-icmp.c`) in `Checksum.dfy`.
- **Symbol lookup in the vDSO** (`lib/parse_vdso.c`): both hashed lookups against a linear scan (`ElfHashing.dfy`,
  `VdsoLookup.dfy`).

Where an expected property is false of the code, the project gives an input and the exact condition:

- Page addresses are computed with a shift of a 32-bit int: right exactly for the first 2^22 pages, although an extent
  may have nearly 2^23 (`HeapSizes.PageShift`, `HeapSizes.BeyondTwoGiB`, `Heap.FirstBlock`).
  The heap is modelled for extents of at most 2 GiB.
- A full heading page does not mean that no page of its list has room, contrary to the comment at
  `lib/heap.c:1026-1031`: a request may be refused, or a page added, although a slot is free (`HeapHeads.RoomMissed`).
  A call breaks the rule exactly when it takes the last slot, or frees the only block, of the heading page while the
  second page is full and a later one is not (`HeapHeads.AllocKeepsHead`, `HeapHeads.FreeKeepsHead`).
- Sizes are compared through their difference as a 64-bit long: right exactly when they are less than 2^63 apart
  (`HeapSizes.CompareBySize`). Requests of at most 2^63 bytes are modelled.
- The wrapper of the weak exchange returns the expected value when the exchange fails for no reason, which callers take
  for a success, and `evl_trylock_write` relies on its assertion. The lock excludes two writers on all runs exactly when
  weak exchanges never fail so and the assertion is compiled in (`RwLock.SafeExactly`, `RwLock.TwoWriters`,
  `RwLock.TwoWritersUnchecked`).
- The last reader wakes a writer exactly when one writer is queued (`RwLock.LastReader`). Writers wait forever exactly
  when several of them were queued, at some time, behind readers (`RwLock.StuckReached`, `RwLock.StuckExactly`,
  `RwLock.StuckForever`), contrary to the comment at `lib/rwlock.c:165-172`.
- The assertion of `evl_trylock_write` fails on reachable states (`RwLock.WriteTryAssertFires`), exactly when the lock is
  crowded (`RwLock.WriteTryAsserts`).
- A frame gives its serial number back exactly when that is below 2^31 or at least 2^64 - 2^31, since the products are
  computed in an int (`Frame.ReadBackExact`).
- The CRC test accepts a frame in which one byte was changed exactly when that byte is a digit of the CRC and became
  a character that is read as the same digit (`Frame.DamageExactly`, `Frame.DamageUnnoticed`).
- On a 64-bit processor `elf_hash` keeps the carries of the last eight bytes beyond bit 31. It is the standard hash
  exactly when none of them carries (`ElfHashing.StandardIffNoCarry`), and a System V lookup finds a symbol exactly when
  the number of buckets divides them (`VdsoLookup.LookupSysV`), as powers of two do. `VdsoLookup.WideTable` and
  `VdsoLookup.WideLookup` show a symbol that is there and not found.
- An odd number of bytes is summed as RFC 1071 asks, except on a big-endian processor (`Checksum.OddByte`).

Bit operations on words whose fields the code takes apart (page entries, lock word, ring entries, busy maps, hashes) are
modelled on those fields. Integer widths are written out where they matter.

## Model

| member | source | states |
|---|---|---|
| `AvlRotation.RotationDone` | lib/heap.c:348-371 | the writes of a rotation leave the rotated subtree linked in the same context: child, `up` and `type` links all agree |
| `AvlRotation.RotationKeepsOrder` | lib/heap.c:348-371 | a rotation does not change the in-order sequence |
| `AvlRotation.SingleDone` | lib/heap.c:383-420 | after a single rotation with the balances it writes, the subtree is balanced, holds the same holders in the same order, and has the height the caller is told |
| `AvlRotation.DoubleDone` | lib/heap.c:373-420 | the same after a double rotation |
| `Avl.AvlTree.Rotate` | lib/heap.c:348-371 | the child on the opposite side becomes the root of the subtree, with all links right and no balance changed |
| `Avl.AvlTree.DblRotate` | lib/heap.c:373-381 | the inner grandchild becomes the root of the subtree, with all links right and no balance changed |
| `Avl.AvlTree.Rebalance` | lib/heap.c:383-420 | a holder two levels too heavy on one side becomes a balanced subtree with the same holders in order; the result tells whether its height dropped |
| `Avl.AvlTree.BalanceAdd` | lib/heap.c:422-433 | after one side has grown or the other shrunk, the subtree is balanced again, and its height is what its root's balance implies |
| `Avl.AvlTree.ClimbAfterInsert` | lib/heap.c:491-522 | the loop from a new leaf up restores every balance and the height of the whole tree |
| `Avl.AvlTree.ClimbAfterDelete` | lib/heap.c:435-477 | the loop from a removed holder up restores every balance and the height of the whole tree |
| `Avl.AvlTree.InsertInner` | lib/heap.c:479-522 | a leaf attached beside the holder at place i shows up just before or after it in order; the tree is valid again |
| `Avl.AvlTree.DeleteLeaf` | lib/heap.c:293-308 | a leaf is unlinked, and head or tail moves to its parent if it was at that end |
| `Avl.AvlTree.DeleteOneChild` | lib/heap.c:310-330 | the only child takes the place of its parent, and head or tail moves to it if needed |
| `Avl.AvlTree.DeleteTwoChildren` | lib/heap.c:334-346 | the neighbour on the heavier side, deleted recursively, takes the place of the holder: exactly that holder leaves the in-order sequence |
| `Avl.AvlTree.Delete` | lib/heap.c:435-477 | the tree stays valid and its in-order sequence loses exactly the entry at the given place |
| `Avl.AvlTree.ReplaceHolder` | lib/heap.c:203-216 | the new holder has the parent, side and children of the old one, and they point to it |
| `Avl.AvlTree.Replace` | lib/heap.c:563-581 | the in-order sequence has the new holder in the place of the old one; the tree is valid and sorted |
| `Avl.AvlTree.Inorder` | lib/heap.c:218-246 | the true predecessor or successor in order, NULL at the end; a neighbour found below a child has no child on the near side |
| `Avl.AvlTree.Search` | lib/heap.c:87-118 | stops at a match, leftmost or rightmost of its duplicates as asked, or beside the only place where the key can go; goes down from child to child to that holder, over at most `height` holders |
| `Avl.AvlTree.SearchNearest` | lib/heap.c:255-284 | the greatest key at most k, or the least key at least k, or NULL when there is none, duplicates included |
| `Avl.AvlTree.Insert` | lib/heap.c:524-534 | a new key goes to its sorted place; nothing else moves |
| `Avl.AvlTree.InsertBack` | lib/heap.c:536-546 | a holder goes behind the holders with the same key and before the greater ones |
| `Avl.AvlTree.Prepend` | lib/heap.c:548-557 | a holder with the least key goes first |
| `Avl.AvlTree.InitHolder` | lib/heap.c:583-587 | writing the balance and type of a holder outside the tree keeps the tree valid |
| `Avl.AvlTree.constructor` | lib/heap.c:589-597 | an empty valid tree |
| `Avl.CountBound` | lib/heap.c:435-522 | a valid tree of height h counts at least Fib(h + 2) - 1 holders |
| `AvlKeys.Nearest` | lib/heap.c:255-268 | the match, or its neighbour on the side searched, is the nearest key |
| `AvlSteps.TwoChildren` | lib/heap.c:334-346 | a holder with two children has neighbours on both sides in order |
| `FreeRanges.Canonical` | lib/heap.c:803-850 | two coalesced pools that leave the same bytes free are equal |
| `FreeRanges.FullyCoalesced` | lib/heap.c:1236-1270 | when every byte is free the pool is one range |
| `FreeRanges.TakenOne` | lib/heap.c:747-762 | taking the upper part of a range removes exactly those bytes from the free ones and leaves the pool coalesced |
| `FreeRanges.JoinedOne` | lib/heap.c:818-844 | releasing pages frees exactly those bytes and leaves the pool coalesced, whichever neighbours are merged |
| `FreeRanges.BestFit` | lib/heap.c:720-733 | the least size at least n in the size tree is the shortest range that is long enough, or none is |
| `RangePool.PagePool.FindSuitableRange` | lib/heap.c:720-733 | best fit: a range of minimal size at least n, NULL exactly when none is long enough |
| `RangePool.PagePool.ReservePageRange` | lib/heap.c:735-763 | -1 exactly when no range is long enough, and then nothing changes; else the upper end of a best-fit range is taken, exactly those pages stop being free, and both trees index the new pool |
| `RangePool.PagePool.FindLeftNeighbour` | lib/heap.c:765-776 | the last range that starts at or before an address |
| `RangePool.PagePool.FindRightNeighbour` | lib/heap.c:778-789 | the first range that starts after an address |
| `RangePool.PagePool.FindNextNeighbour` | lib/heap.c:791-801 | the first range that starts after a given one |
| `RangePool.PagePool.MergeLeft` | lib/heap.c:812-828 | the freed pages are merged with the range that ends where they start, exactly when there is one |
| `RangePool.PagePool.MergeRight` | lib/heap.c:830-844 | they are merged with the range that starts where they end, exactly when there is one; the address tree indexes the result |
| `RangePool.PagePool.ReleasePageRange` | lib/heap.c:809-850 | exactly the given pages become free, and the pool is coalesced and indexed by both trees again |
| `RangePool.PagePool.WhollyFree` | lib/heap.c:1256-1270 | once all pages are free, each tree holds exactly one range covering the extent |
| `RangePool.PagePool.constructor` | lib/heap.c:1268-1269 | an empty valid pool |
| `PageRings.AddedFrontRing` | lib/heap.c:852-875 | the writes of add_page_front turn the list [h] + rest into [pg] + rest + [h] |
| `PageRings.UnlinkedRing` | lib/heap.c:877-897 | the writes of remove_page take exactly one page out of the circular list |
| `PageRings.LinkedLast` | lib/heap.c:914-937 | the writes of move_page_back put the page last |
| `PageLists.PageTable.AddPageFront` | lib/heap.c:852-875 | the list of the bucket becomes [pg] + rest + [h]; other lists, types and payloads are unchanged |
| `PageLists.PageTable.RemovePage` | lib/heap.c:877-897 | the list loses exactly that page; other lists, types and payloads are unchanged |
| `PageLists.PageTable.MovePageFront` | lib/heap.c:899-912 | the page becomes the head, unless it was |
| `PageLists.PageTable.MovePageBack` | lib/heap.c:914-937 | the page becomes the last one |
| `PageLists.PageTable.MarkPages` | lib/heap.c:634-668 | in a debug build, the types of exactly the given pages change; otherwise nothing does |
| `PageLists.PageTable.constructor` | lib/heap.c:1275-1286 | all lists are empty |
| `HeapSizes.BlockSize` | lib/heap.c:1006-1019 | the rounded size is the least block size that holds the request, and its log2 selects the bucket |
| `HeapSizes.FirstFree` | lib/heap.c:1050 | the first clear bit of a map |
| `HeapSizes.PageShift` | lib/heap.c:620-624 | the address of a page is right exactly for pages below 2^22 |
| `HeapSizes.BeyondTwoGiB` | lib/heap.c:620-624 | from page 2^22 on the computed address lies below the extent |
| `Heap.FirstBlock` | lib/heap.c:735-763 | on any extent that is accepted, the first block starts at the page its size leaves below the upper end; its address is right exactly when that page is below 2^22, and below the extent otherwise |
| `HeapSizes.CompareBySize` | lib/heap.c:1173-1179 | two sizes are ordered right exactly when they are less than 2^63 apart |
| `HeapState.SizeIsPow` | include/evl/heap.h:17-28 | the block size of a bucket is a power of two, and its slots fill a page exactly |
| `HeapState.SlotTaken` | lib/heap.c:1057-1061 | setting a clear bit adds exactly one live block |
| `HeapState.SlotGiven` | lib/heap.c:1134-1135 | clearing a set bit, when others remain, removes exactly one live block |
| `HeapState.PageIdle` | lib/heap.c:1143-1146 | a page whose last live slot is freed holds no block any more |
| `HeapState.PageSlotted` | lib/heap.c:971-978 | a fresh bucket page has exactly its first slot live |
| `HeapState.RunTaken` | lib/heap.c:984-989 | a fresh multi-page block adds exactly one live block |
| `HeapState.RunGiven` | lib/heap.c:1117-1121 | releasing a multi-page block removes exactly that live block |
| `Heap.EvlHeap.AddBlockRange` | lib/heap.c:939-994 | fails exactly when no range is long enough, changing nothing; else adds one live block of that size, the upper end of a best-fit range |
| `Heap.EvlHeap.AddBucketPage` | lib/heap.c:939-994 | fails exactly when no page is free, changing nothing; else adds one live block of the bucket's size, at the start of a best-fit page that heads the list |
| `Heap.EvlHeap.TakeFromPage` | lib/heap.c:1044-1065 | adds one live block in the first slot of the heading page that is not live; the page goes to the back of its list exactly when that fills it |
| `Heap.EvlHeap.AllocBlock` | lib/heap.c:996-1075 | NULL exactly for size 0 or when neither the heading page of the bucket nor the pool can serve the least sufficient block size, and then nothing changes; else `live` gains exactly one block of that size, from the first free slot of the heading page or from a best-fit range, and the page lists change as that requires |
| `Heap.EvlHeap.ReleasePages` | lib/heap.c:809-850 | the pages become free, and a debug build marks exactly them |
| `Heap.EvlHeap.FreePages` | lib/heap.c:1117-1121 | `live` loses exactly the multi-page block |
| `Heap.EvlHeap.FreeSlot` | lib/heap.c:1123-1150 | `live` loses exactly the block in that slot; its page leaves the list when it has lost its last block, and becomes the head when it was full |
| `Heap.EvlHeap.FreeOtherSlot` | lib/heap.c:1146-1149 | a page that was full becomes the head of its list; otherwise the lists are unchanged |
| `Heap.EvlHeap.FreeBlock` | lib/heap.c:1091-1156 | a live block leaves `live` and nothing else does, and the page lists change as for FreeSlot; an address that is recognized as wrong gives -EINVAL and changes nothing |
| `Heap.EvlHeap.CheckBlock` | lib/heap.c:670-703 | the rounded size of any live block; -EINVAL for addresses recognized as wrong; in a debug build, the result for every address |
| `Heap.EvlHeap.constructor` | lib/heap.c:1200-1297 | a valid heap with no block, whose pool is one range covering the extent |
| `Heap.InitHeap` | lib/heap.c:1200-1297 | the heap is set up exactly when the size is accepted, with its metadata below an aligned page pool that ends where the memory ends |
| `Heap.Disjoint` | lib/heap.c:996-1075 | live blocks never overlap |
| `Heap.Placed` | lib/heap.c:996-1075 | a live block lies within the extent, on a 16-byte boundary, and shares no byte with a free range |
| `Heap.Partition` | lib/heap.c:939-994 | every byte of the extent is in exactly one of: a free range, one bucket's pages, one multi-page block |
| `Heap.BusyMap` | lib/heap.c:608-612 | in a bucket page, bit s is set exactly when slot s is live or does not exist, and some slot is live |
| `Heap.SomeBlock` | lib/heap.c:1136-1146 | a page in use always holds a live block |
| `Heap.NowOk` | lib/heap.c:939-1156 | in a valid heap the free ranges are coalesced whole pages, a page is free exactly when no live block meets it, and listed in a bucket exactly when it holds a block of that bucket's size, and then no others |
| `Heap.AllFreed` | lib/heap.c:809-850 | once all blocks are freed, in any order, both trees hold exactly one range covering the extent, and `used_size` is 0 |
| `HeapMoments.RangesDetermined` | lib/heap.c:803-850 | the live blocks determine the free ranges |
| `HeapMoments.AllocDetermined` | lib/heap.c:996-1075 | the state before an allocation and its reply determine the blocks, free ranges and page lists after it |
| `HeapMoments.FreeDetermined` | lib/heap.c:1091-1156 | so do the state before a free and the block freed |
| `HeapHistory.Serve` | lib/heap.c:996-1156 | over any history, every reply is the one that the blocks, free ranges and page lists of that moment require, and changes them as required; the client ends up with the fold of requests and replies, which are the live blocks: disjoint, within the extent, 16-byte aligned, each at least as large as was requested |
| `HeapHistory.RefusedExactly` | lib/heap.c:1044-1072 | over any history, an allocation is refused exactly for size 0 or when the heap of that moment has no room for the least sufficient block size; then nothing changes |
| `HeapHistory.HistoryDetermined` | lib/heap.c:996-1156 | the first state, the requests and the replies determine every later state of a history |
| `HeapHistory.HeldUsable` | lib/heap.c:996-1075 | blocks held of a valid heap are disjoint, placed, aligned and as large as requested |
| `HeapHistory.FreeAll` | lib/heap.c:1091-1156 | after any history, freeing all blocks in any order leaves one range covering the extent in both trees, and `used_size` 0 |
| `HeapHeads.AllocKeepsHead` | lib/heap.c:1026-1065 | an allocation keeps "a full heading page means a full list" exactly unless it takes the last slot of the heading page while the second page is full and a later one is not |
| `HeapHeads.FreeKeepsHead` | lib/heap.c:1134-1150 | a free keeps it exactly unless it frees the only block of the heading page in that situation |
| `HeapHeads.RoomMissed` | lib/heap.c:1026-1031 | a run on three pages after which a request is refused although a slot of its size is free |
| `HeapLayout.RawSizeRoundTrip` | lib/heap.c:1200-1225 | add_extent on EVL_HEAP_RAW_SIZE (u) gives back u rounded to whole pages, for every u up to the largest extent |
| `HeapLayout.MetadataFits` | lib/heap.c:1215-1257 | for any accepted size the extent descriptor and the page map end at or below the page pool |
| `HeapLayout.Exact` | include/evl/heap.h:98-113 | the padding of the page map does not change the quotient from which add_extent recovers the overhead |
| `RingMap.MapDigits` | include/evl/ring_ptr.h:123-127 | the index map swaps the two digits of a ticket's residue |
| `RingMap.MapBijection` | include/evl/ring_ptr.h:123-127 | two tickets share a cell exactly when they are a multiple of n apart |
| `RingMap.MapOnto` | include/evl/ring_ptr.h:123-127 | among any n consecutive tickets exactly one has a given cell |
| `RingMap.TicketOrder` | include/evl/ring_ptr.h:163-164 | on one cell, tickets and their cycles are ordered alike |
| `RingSafety.InitInv` | include/evl/ring_ptr.h:133-143 | a cleared ring satisfies the invariant |
| `RingSafety.StepInv` | include/evl/ring_ptr.h:145-257 | every atomic step of any thread keeps the invariant |
| `RingSafety.WonStep` | include/evl/ring_ptr.h:167-184 | a producer that wins ticket t does so before the consumer of t has given up, and overwrites nothing |
| `RingSafety.TakenStep` | include/evl/ring_ptr.h:226-231 | the consumer of ticket h takes exactly what was stored for ticket h |
| `RingSafety.RefusedStep` | include/evl/ring_ptr.h:233-244 | a consumer that marks its cell does so only when nothing was stored for its ticket |
| `RingSafety.GiveStep` | include/evl/ring_ptr.h:233-244 | the same for a consumer that leaves its cell as it found it |
| `RingSafety.CatchStep` | include/evl/ring_ptr.h:193-205 | moving the tail up to the head keeps the invariant: no ticket that is stored or in use is at or beyond the new tail |
| `RingSafety.ExactDelivery` | include/evl/ring_ptr.h:218-231 | in every run, what is delivered for a ticket is what was stored for it |
| `RingSafety.OneDelivery` | include/evl/ring_ptr.h:226-231 | a step delivers at most one pointer, for a ticket that had none, and no record is ever changed |
| `RingSafety.NothingLost` | include/evl/ring_ptr.h:167-184 | in every run, what is stored is delivered or sits in its cell, and its consumer is at work or still to come |
| `RingSafety.WinIsSafe` | include/evl/ring_ptr.h:170-184 | in every run, a ticket is won before its consumer gives up, in an unoccupied cell |
| `RingSafety.CycleIsOccupied` | include/evl/ring_ptr.h:224-231 | in every run, a cell seen with the cycle of the head ticket has its occupied bit set |
| `RingSafety.TicketsApart` | include/evl/ring_ptr.h:161-163 | in every run, no two threads hold the same ticket, and a ticket in use has no outcome yet |
| `RingSafety.Quiet` | include/evl/ring_ptr.h:145-257 | when all threads are idle, exactly the stored tickets below the head have been delivered |
| `RingCalls.LogOf` | include/evl/ring_ptr.h:145-257 | every run has a log of its calls: argument, reply, and the tickets that were served meanwhile |
| `RingCalls.EnqueueStores` | include/evl/ring_ptr.h:145-191 | in every run, an enqueue that returned true has stored the pointer it was called with, for exactly one ticket; one that returned false has stored none |
| `RingCalls.DequeueDelivers` | include/evl/ring_ptr.h:207-231 | in every run, a dequeue that returned a pointer returned the argument of exactly one enqueue call, which was not refused |
| `RingCalls.DeliveredOnce` | include/evl/ring_ptr.h:207-231 | in every run, no two dequeues return the pointer of the same enqueue |
| `RingCalls.StoredOrDelivered` | include/evl/ring_ptr.h:145-257 | in every run, the argument of an enqueue that returned true has been taken by a dequeue, or is in its cell with its consumer at work or still to come |
| `RingSerial.SerialIsFifo` | include/evl/ring_ptr.h:145-257 | in every run in which calls do not overlap, spurious failures and stale cursors included, the replies are those of a FIFO of n pointers |
| `RingProgress.AloneReturns` | include/evl/ring_ptr.h:145-257 | from every state of every run, a thread left alone finishes its call within a bounded number of steps, unless an exchange fails on the expected value |
| `RingProgress.MayCall` | include/evl/ring_ptr.h:145-211 | in any state of a run, an idle thread may enqueue any pointer, with any head seen so far in its cursor, and may dequeue |
| `RingProgress.TicketOnly` | include/evl/ring_ptr.h:152-160 | in every run, a producer goes for a ticket only when fewer than n tickets lie between the head and the tail it has seen, and a consumer only while the threshold lasts |
| `RingProgress.AgainOnly` | include/evl/ring_ptr.h:246-254 | a dequeue goes on only because the tail was beyond its ticket |
| `RingProgress.BalanceStep` | include/evl/ring_ptr.h:178-256 | every head ticket that is given up costs exactly one unit of the threshold, nothing else does, and only an enqueue resets it, to 2n - 1 |
| `RingProgress.ThresholdFalls` | include/evl/ring_ptr.h:178-256 | so in every run, between two resets, the threshold and the tickets given up and counted have a constant sum |
| `RingProgress.FullOnly` | include/evl/ring_ptr.h:152-158 | in every run, an enqueue gives up only when n tickets are out |
| `RingProgress.DropOnly` | include/evl/ring_ptr.h:167-189 | in every run, a producer drops a ticket only when its cell holds a pointer, or the head has passed the ticket |
| `RingProgress.NoneOnly` | include/evl/ring_ptr.h:214-256 | in every run, a dequeue finds the ring empty only when the threshold is negative at its start or has run out, or when, in this call, the tail was not beyond its ticket |
| `RingQueue.Ring.Enqueue` | include/evl/ring_ptr.h:145-191 | fails exactly when n pointers are queued, even with a stale cursor, which is refreshed exactly when the ring looks full; else appends and resets the threshold |
| `RingQueue.Ring.Dequeue` | include/evl/ring_ptr.h:207-257 | fails exactly when the ring is empty, moving head and tail on together and counting the threshold down; else removes the oldest pointer |
| `RingQueue.Ring.Catchup` | include/evl/ring_ptr.h:193-205 | the tail ends at the given head, or at the current one if it had moved below it |
| `RingQueue.Ring.constructor` | include/evl/ring_ptr.h:133-143 | an empty queue |
| `RingQueue.Pushed` | include/evl/ring_ptr.h:160-184 | storing at the tail extends the window of queued tickets and leaves the other cells alone |
| `RingQueue.Passed` | include/evl/ring_ptr.h:226-244 | emptying or refusing the cell of the head moves the window one ticket on |
| `RwLock.TallyRead` | lib/rwlock.c:76-103 | the word stored by a read lock attempt tells the new number of readers |
| `RwLock.TallyReadEnd` | lib/rwlock.c:156-178 | the word stored by a read release tells the new number of readers, and is 0 exactly on a hand-over |
| `RwLock.TallyWrite` | lib/rwlock.c:193-230 | the word stored by a write lock attempt tells who holds and who waits, and is never positive |
| `RwLock.TallyWriteEnd` | lib/rwlock.c:267-297 | the word stored by a write release tells who waits, and whether ownership is passed on |
| `RwLock.StepInv` | lib/rwlock.c:66-300 | every step keeps the closed form of the count: BIAS - r without writers, -r - (q - 1) behind readers, -q with an owner |
| `RwLock.AlwaysSafe` | lib/rwlock.c:66-300 | in every run with assertions and without spurious failures there are never two writers, nor a writer and a reader |
| `RwLock.OneToken` | lib/rwlock.c:177-178 | in every run at most one grant is on its way, with a writer waiting for it and nobody holding the lock |
| `RwLock.AssertionsHold` | lib/rwlock.c:95-281 | in every run the assertions of the lock and unlock paths hold, that of evl_trylock_write holds exactly under the condition above, and every stored count fits its 31-bit field |
| `RwLock.WriteTryAsserts` | lib/rwlock.c:249-251 | in every run the assertion of evl_trylock_write fails exactly when more than one writer waits behind an owner, or when at least three threads, a queued writer among them, read or wait behind readers |
| `RwLock.WriteTryAssertFires` | lib/rwlock.c:249-251 | a run with an owner and two queued writers in which it fails |
| `RwLock.TwoWritersUnchecked` | lib/rwlock.c:239-259 | when the assertion is compiled out, that run goes on to two writers |
| `RwLock.TwoWriters` | include/evl/atomic.h:39-47 | a run with two writers, when a weak exchange fails on the expected word |
| `RwLock.SafeExactly` | lib/rwlock.c:66-300 | mutual exclusion holds on all runs exactly when weak exchanges never fail on the expected word and the assertion of evl_trylock_write is compiled in |
| `RwLock.LastReader` | lib/rwlock.c:165-178 | the last reader hands the lock over exactly when one writer is queued |
| `RwLock.StuckReached` | lib/rwlock.c:165-178 | a run in which two writers wait and nobody holds the lock |
| `RwLock.StuckForever` | lib/rwlock.c:165-178 | from then on nobody ever gets the lock |
| `RwLock.StarvedForever` | lib/rwlock.c:165-178 | once several writers are queued behind readers, no writer ever gets the lock |
| `RwLock.StuckExactly` | lib/rwlock.c:165-178 | a run is stuck exactly when no reader is left and, at some time, several writers were queued behind readers |
| `RwCalls.ReadersRemembered` | lib/rwlock.c:272-297 | in every run, while a reader waits, the lock word says so or a release is about to call the waiting readers |
| `RwCalls.MayCall` | lib/rwlock.c:66-259 | in any state of a run, an idle thread may make any of the four calls that try to get the lock |
| `RwCalls.OneWay` | lib/rwlock.c:66-300 | within a call, a thread has one way to go on |
| `RwCalls.TryReadAlone` | lib/rwlock.c:128-148 | from any state of a run, evl_trylock_read alone gets the lock exactly when no writer holds it, waits or is granted it; else the word is unchanged |
| `RwCalls.TryWriteAlone` | lib/rwlock.c:239-259 | where its assertion holds, evl_trylock_write alone gets the lock exactly when nobody holds it, waits or is granted it; else the word is unchanged |
| `RwCalls.TryWriteStops` | lib/rwlock.c:251 | where its assertion fails, the thread goes no further |
| `RwCalls.TrySwapAlone` | lib/rwlock.c:255-258 | the exchange of a try-lock takes the lock exactly when the word has not changed since it was read |
| `RwCalls.ReadAlone` | lib/rwlock.c:66-125 | from any point of the attempt, evl_lock_read alone gets the lock exactly when no writer holds it, waits or is granted it, and else waits with the flag set |
| `RwCalls.WriteAlone` | lib/rwlock.c:183-237 | the same for evl_lock_write, which gets the lock exactly when nobody is at it, and else queues up |
| `RwCalls.ReadEndAlone` | lib/rwlock.c:150-181 | evl_unlock_read alone returns, and hands the lock over exactly when it is the last reader and one writer is queued |
| `RwCalls.WriteEndAlone` | lib/rwlock.c:261-300 | evl_unlock_write alone hands the lock to a queued writer if there is one |
| `RwCalls.FreeAlone` | lib/rwlock.c:261-300 | otherwise it leaves the lock free, with no reader waiting unless another thread is about to call the readers |
| `Crc8.GenerateCrc` | latmus/net.c:106-115 | the loop computes the fold of the table over the buffer |
| `Crc8.TableIsShift` | latmus/net.c:71-104 | every entry of the table is eight shifts by the polynomial 0x18D |
| `Crc8.TableMatchesBits` | latmus/net.c:71-115 | over any buffer the table-driven CRC is the bit-serial one, most significant bit first |
| `Crc8.TableInjective` | latmus/net.c:71-104 | the table is a permutation |
| `Crc8.OneByteDetected` | latmus/net.c:106-115 | changing one byte anywhere in a buffer changes its CRC |
| `Frame.HexWritten` | latmus/net.c:117-120 | d_to_x writes the digits "0123456789abcdef" |
| `Frame.HexDigit` | latmus/net.c:162-176 | those characters, and no others, are read as digits, with their values |
| `Frame.CharRead` | latmus/net.c:122-125 | what x_to_d makes of any character |
| `Frame.CrcDigits` | latmus/net.c:117-125 | two digits written for a CRC are read as that CRC |
| `Frame.PrepareOutput` | latmus/net.c:127-143 | the whole frame: marker, sixteen digits, payload, terminator, and the two hexadecimal digits, high one first, of the bit-serial remainder of the rest |
| `Frame.ParseInput` | latmus/net.c:145-183 | accepts exactly the frames whose CRC matches and whose serial number has only digits; the result is the low 32 bits of the number they spell, sign-extended |
| `Frame.ReadAny` | latmus/net.c:162-182 | the same of the loop over any sixteen characters |
| `Frame.ParseSerial` | latmus/net.c:162-182 | the loop computes the sum of the digits times an overflowing power of 16 |
| `Frame.ReadAll` | latmus/net.c:162-182 | for any frame that prepare_output writes, the sixteen digits give the low 32 bits of the serial number, sign-extended |
| `Frame.ReadBackExact` | latmus/net.c:151-179 | that is the serial number itself exactly below 2^31 and from 2^64 - 2^31 on |
| `Frame.RoundTrip` | latmus/net.c:127-183 | both together, for any packet size above 20 |
| `Frame.SendAndReceive` | latmus/net.c:127-183 | every prepared frame is accepted, and gives its serial number back exactly in that range |
| `Frame.DamageDetected` | latmus/net.c:157-160 | an accepted frame that is changed in one byte before its CRC is rejected |
| `Frame.DamageExactly` | latmus/net.c:117-160 | a change of one byte anywhere in an accepted frame passes the CRC test exactly when it turns a CRC digit into a character read as the same digit |
| `Frame.DamageUnnoticed` | latmus/net.c:117-125 | an accepted frame that ends in the digit 3 is still accepted when that becomes 'Z' |
| `Checksum.IpChecksum` | tidbits/oob-net-icmp.c:36-54 | both loops terminate and compute the complement of the folded sum |
| `Checksum.Fold` | tidbits/oob-net-icmp.c:50-51 | folding ends below 2^16 with the same residue modulo 65535, and gives 0 only for 0 |
| `Checksum.StoredChecksum` | tidbits/oob-net-icmp.c:166-181 | storing the checksum in its zeroed field at an even offset makes the checksum of the whole zero |
| `Checksum.Seal` | tidbits/oob-net-icmp.c:166-181 | clearing and filling the field changes no other byte and makes the checksum zero |
| `Checksum.SumOfBytes` | tidbits/oob-net-icmp.c:36-48 | the sum adds each byte once, with its weight in the word |
| `Checksum.ByteOrder` | tidbits/oob-net-icmp.c:36-54 | for an even number of bytes, the two bytes stored are the same on a little-endian and a big-endian processor |
| `Checksum.OddByte` | tidbits/oob-net-icmp.c:47-48 | the sum is that of the zero-padded data, except for an odd length on a big-endian processor |
| `ElfHashing.ElfHash` | lib/parse_vdso.c:69-83 | the loop computes the fold of its body over the name |
| `ElfHashing.StepBits` | lib/parse_vdso.c:76-80 | one turn, bit by bit, on 64 and on 32 bits: after the shifted addition, bits 28 to 31 flip bits 4 to 7 and are cleared, other bits stay |
| `ElfHashing.GnuHash` | lib/parse_vdso.c:85-93 | the loop computes 5381 * 33^n + s[0] * 33^(n - 1) + ... + s[n - 1] modulo 2^32 |
| `ElfHashing.GnuClosed` | lib/parse_vdso.c:85-93 | the fold of the loop body has that closed form |
| `ElfHashing.LowBits` | lib/parse_vdso.c:69-83 | the low 32 bits of elf_hash are the standard hash of every name |
| `ElfHashing.ElfIsStandardAndCarries` | lib/parse_vdso.c:69-83 | for every name, elf_hash is the standard hash plus 2^32 times the base-16 number of the carries past bit 31 of the last eight bytes |
| `ElfHashing.StandardIffNoCarry` | lib/parse_vdso.c:76-80 | elf_hash is the standard hash exactly when none of the last eight bytes of the name carries past bit 31 |
| `ElfHashing.SameBucketIff` | lib/parse_vdso.c:288 | both hashes select the same bucket exactly when the number of buckets divides those carries, placed above bit 31 |
| `ElfHashing.PowerOfTwoBuckets` | lib/parse_vdso.c:288 | so they always do when the number of buckets divides 2^32 |
| `ElfHashing.WideHash` | lib/parse_vdso.c:76-80 | a name whose last byte carries |
| `VdsoLookup.WideTable` | lib/parse_vdso.c:287-296 | a well-formed table in which a linear scan finds a symbol of that name |
| `VdsoLookup.WideLookup` | lib/parse_vdso.c:287-296 | the lookup of that name returns 0 on this table, and on any well-formed table of three buckets |
| `VdsoLookup.MatchVersion` | lib/parse_vdso.c:201-237 | true exactly when the first definition with that index has this hash and name |
| `VdsoLookup.CheckSym` | lib/parse_vdso.c:239-257 | true exactly for a global or weak function of that name and version, the version hash being the standard one |
| `VdsoLookup.LookupGnu` | lib/parse_vdso.c:268-286 | on a well-formed GNU table, the first symbol that a linear scan accepts, or none exactly when there is none |
| `VdsoLookup.LookupSysV` | lib/parse_vdso.c:287-296 | on a well-formed System V table, a symbol that a linear scan accepts, exactly when there is one and the number of buckets divides 2^32 times the number of the last eight carries of the name |

## Left out

- Heap, several extents: bucket heads are per heap while page numbers are per extent, so lists of pages are modelled for one extent only; evl_extend_heap and the scan of the extents are not modelled.
- Heap.EvlHeap.constructor: requires a page pool of at most 2 GiB, for the same reason as InitHeap.
- BlockSize: requires a request of at most 2^63 bytes, as AllocBlock does.
- AddBlockRange: requires a block of at most 2^63 bytes, as AllocBlock does.
- InitHeap: requires that the accepted extent has at most 2 GiB, because page addresses are wrong beyond (PageShift, BeyondTwoGiB).
- AllocBlock: requires a request of at most 2^63 bytes, because sizes beyond are not ordered right (CompareBySize).
- ReservePageRange: sizes are compared exactly, which is what the code does for the requests that AllocBlock admits.
- FreeBlock: requires a live block or an address that the code recognizes as wrong; double frees and other foreign addresses are not modelled.
- CheckBlock: without a debug build, says nothing of addresses in free pages or in inner pages of a block, where the page map is stale.
- Heap, holders inside free pages: the descriptors of free ranges are kept in memories of their own, apart from user data.
- Heap, locking, initialization of the mutex and destruction.
- Ring, weak memory orders, counter wrap-around, and whether "empty" results can be put in order with the other calls while threads are at work (NoneOnly says when they occur).
- Enqueue: the weak exchange succeeds at once when one thread uses the ring; the step system also has its spurious failures. The same goes for Dequeue and Catchup.
- Step: in the reader/writer lock, a thread whose assertion fails goes no further, while the others may; the program would stop altogether.
- Reader/writer lock, errors and time-outs of the waits, lazy initialization, and progress other than the lost wake-up shown above.
- Frames, sockets, statistics and sequence checks around prepare_output and parse_input.
- IpChecksum: requires at most 131072 bytes, twice what an IP packet holds, because the 32-bit sum may overflow beyond.
- Checksum, the rest of build_icmp_reply: only the clearing and storing of the checksum fields is modelled.
- vDSO, parsing of the ELF headers and of the dynamic table: the tables are taken as found, with strings and version entries read into sequences.
- Mutexes, semaphores, events, flags, proxies and the other system call wrappers: what decides their correctness is in the kernel.
