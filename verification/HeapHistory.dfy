/** Whole histories of allocations and frees on a heap. */
module HeapHistory {
  import opened Sequences
  import opened AvlShape
  import opened HeapSizes
  import opened PageLists
  import opened HeapMoments
  import opened Heap

  /** What a client asks for: a block, or to free the k-th of the blocks it holds. */
  datatype Request = Alloc(size: nat) | Free(k: nat)

  /** A block of a size, no block of that size, a block freed, or nothing to free. */
  datatype Reply = Granted(a: Addr, bsize: int) | Refused(bsize: int) | Freed | Ignored

  /** The blocks a client holds, and the sizes it asked for. */
  datatype Hand = Hand(blocks: seq<Addr>, wanted: seq<int>)

  /** The reply to a request, and what it changes; an allocation is refused exactly when there is no room. */
  ghost predicate Answered(base: Addr, m: Moment, hand: Hand, request: Request, reply: Reply, m': Moment) {
    match (request, reply)
    case (Alloc(size), Granted(a, bsize)) =>
      size > 0 && LeastBlock(size, bsize) && a != NULL && AllocStep(base, m, bsize, a, m')
    case (Alloc(size), Refused(bsize)) =>
      if size == 0 then m' == m else LeastBlock(size, bsize) && AllocStep(base, m, bsize, NULL, m')
    case (Free(k), Freed) => k < |hand.blocks| && FreeStep(base, m, hand.blocks[k], m')
    case (Free(k), Ignored) => k >= |hand.blocks| && m' == m
    case _ => false
  }

  /** What the client holds after a reply. */
  function After(hand: Hand, request: Request, reply: Reply): Hand {
    match (request, reply)
    case (Alloc(size), Granted(a, _)) => Hand(hand.blocks + [a], hand.wanted + [size])
    case (Free(k), Freed) =>
      if k < |hand.blocks| == |hand.wanted| then Hand(RemoveAt(hand.blocks, k), RemoveAt(hand.wanted, k)) else hand
    case _ => hand
  }

  function AfterAll(hand: Hand, requests: seq<Request>, replies: seq<Reply>): Hand
    requires |replies| == |requests|
  {
    if requests == [] then hand
    else
      var n := |requests| - 1;
      After(AfterAll(hand, requests[..n], replies[..n]), requests[n], replies[n])
  }

  /** Every request is answered, from the first moment to the last one, and every moment is one of a heap. */
  ghost predicate Happened(base: Addr, lim: Addr, moments: seq<Moment>, hand: Hand, requests: seq<Request>,
                           replies: seq<Reply>)
  {
    && |replies| == |requests| && |moments| == |requests| + 1
    && (forall n :: 0 <= n <= |requests| ==> MomentOk(base, lim, moments[n]))
    && (forall n :: 0 <= n < |requests| ==> AnsweredAt(base, moments, hand, requests, replies, n))
  }

  ghost predicate AnsweredAt(base: Addr, moments: seq<Moment>, hand: Hand, requests: seq<Request>, replies: seq<Reply>,
                             n: int)
    requires 0 <= n < |requests| == |replies| == |moments| - 1
  {
    Answered(base, moments[n], AfterAll(hand, requests[..n], replies[..n]), requests[n], replies[n], moments[n + 1])
  }

  lemma {:induction false} HappenedNext(base: Addr, lim: Addr, moments: seq<Moment>, hand: Hand,
                                        requests: seq<Request>, replies: seq<Reply>,
                                        request: Request, reply: Reply, m: Moment)
    requires Happened(base, lim, moments, hand, requests, replies) && MomentOk(base, lim, m)
    requires Answered(base, moments[|requests|], AfterAll(hand, requests, replies), request, reply, m)
    ensures Happened(base, lim, moments + [m], hand, requests + [request], replies + [reply])
    ensures AfterAll(hand, requests + [request], replies + [reply])
         == After(AfterAll(hand, requests, replies), request, reply)
  {
    hide Answered, After, MomentOk;
    var qs, rs := requests + [request], replies + [reply];
    assert qs[..|requests|] == requests && rs[..|requests|] == replies;
    forall n | 0 <= n < |requests| ensures AnsweredAt(base, moments + [m], hand, qs, rs, n) {
      assert qs[..n] == requests[..n] && rs[..n] == replies[..n];
      assert AnsweredAt(base, moments, hand, requests, replies, n);
    }
  }

  /** The reply determines the moment after it. */
  lemma {:induction false} AnswerDetermined(base: Addr, lim: Addr, m: Moment, hand: Hand, request: Request,
                                            reply: Reply, m1: Moment, m2: Moment)
    requires Answered(base, m, hand, request, reply, m1) && Answered(base, m, hand, request, reply, m2)
    requires MomentOk(base, lim, m1) && MomentOk(base, lim, m2)
    ensures m1 == m2
  {
    hide MomentOk, AllocStep, FreeStep, LeastBlock;
    match (request, reply) {
      case (Alloc(size), Granted(a, bsize)) =>
        AllocDetermined(base, lim, m, bsize, a, m1, m2);
      case (Alloc(size), Refused(bsize)) =>
        if size > 0 {
          AllocDetermined(base, lim, m, bsize, NULL, m1, m2);
        }
      case (Free(k), Freed) =>
        FreeDetermined(base, lim, m, hand.blocks[k], m1, m2);
      case _ =>
    }
  }

  /** An allocation is refused exactly when the heap of that moment has no room for the least block that would do. */
  lemma {:induction false} RefusedExactly(base: Addr, lim: Addr, moments: seq<Moment>, hand: Hand,
                                          requests: seq<Request>, replies: seq<Reply>, n: nat, bsize: int)
    requires Happened(base, lim, moments, hand, requests, replies)
    requires n < |requests| && requests[n].Alloc? && LeastBlock(requests[n].size, bsize)
    ensures |moments[n].rings| == MAX_BUCKETS
    ensures replies[n].Refused? <==> requests[n].size == 0 || NoRoom(base, moments[n], bsize)
    ensures replies[n].Refused? ==> moments[n + 1] == moments[n]
  {
    hide LeastBlock, NoRoom;
    assert MomentOk(base, lim, moments[n]);
    assert AnsweredAt(base, moments, hand, requests, replies, n);
    if requests[n].size > 0 {
      LeastUnique(requests[n].size, bsize, replies[n].bsize);
    }
  }

  /** The replies leave no choice about what happened: blocks, free ranges and page lists of every moment follow. */
  lemma {:induction false} HistoryDetermined(base: Addr, lim: Addr, hand: Hand, requests: seq<Request>,
                                             replies: seq<Reply>, s: seq<Moment>, t: seq<Moment>, n: nat)
    requires Happened(base, lim, s, hand, requests, replies) && Happened(base, lim, t, hand, requests, replies)
    requires s[0] == t[0] && n <= |requests|
    ensures s[n] == t[n]
  {
    hide Answered, MomentOk;
    if n > 0 {
      HistoryDetermined(base, lim, hand, requests, replies, s, t, n - 1);
      assert AnsweredAt(base, s, hand, requests, replies, n - 1) && AnsweredAt(base, t, hand, requests, replies, n - 1);
      AnswerDetermined(base, lim, s[n - 1], AfterAll(hand, requests[..n - 1], replies[..n - 1]), requests[n - 1],
                       replies[n - 1], s[n], t[n]);
    }
  }

  // ---------- What the client holds ----------

  /** The blocks held are the live ones, each of them once, and no smaller than what was asked for. */
  ghost predicate Holds(live: map<Addr, int>, hand: Hand) {
    && |hand.wanted| == |hand.blocks|
    && (forall a :: a in live <==> a in hand.blocks)
    && Distinct(hand.blocks)
    && (forall i :: 0 <= i < |hand.blocks| ==> hand.blocks[i] in live && live[hand.blocks[i]] >= hand.wanted[i])
  }

  /** The blocks held are disjoint, within the extent, on 16-byte boundaries, and large enough. */
  ghost predicate Usable(h: EvlHeap, hand: Hand)
    reads h, h.pool
  {
    && |hand.wanted| == |hand.blocks|
    && (forall i :: 0 <= i < |hand.blocks| ==>
          && h.pool.membase <= hand.blocks[i] && (hand.blocks[i] - h.pool.membase) % MIN_ALIGN == 0
          && hand.blocks[i] + hand.wanted[i] <= h.pool.memlim)
    && (forall i, j :: 0 <= i < |hand.blocks| && 0 <= j < |hand.blocks| && hand.blocks[i] < hand.blocks[j] ==>
          hand.blocks[i] + hand.wanted[i] <= hand.blocks[j])
    && Distinct(hand.blocks)
  }

  lemma {:induction false} HeldUsable(h: EvlHeap, hand: Hand)
    requires h.Valid() && Holds(h.live, hand)
    ensures Usable(h, hand)
  {
    hide EvlHeap.Valid;
    var blocks := hand.blocks;
    forall i | 0 <= i < |blocks|
      ensures h.pool.membase <= blocks[i] && (blocks[i] - h.pool.membase) % MIN_ALIGN == 0
      ensures blocks[i] + hand.wanted[i] <= h.pool.memlim {
      Placed(h, blocks[i]);
    }
    forall i, j | 0 <= i < |blocks| && 0 <= j < |blocks| && blocks[i] < blocks[j]
      ensures blocks[i] + hand.wanted[i] <= blocks[j] {
      Disjoint(h, blocks[i], blocks[j]);
    }
  }

  lemma {:induction false} HoldsMore(live: map<Addr, int>, hand: Hand, a: Addr, size: nat, bsize: int)
    requires Holds(live, hand) && a !in live && bsize >= size
    ensures Holds(live[a := bsize], After(hand, Alloc(size), Granted(a, bsize)))
  {
    var hand' := After(hand, Alloc(size), Granted(a, bsize));
    assert forall i :: 0 <= i < |hand.blocks| ==> hand.blocks[i] in hand.blocks;
    forall x ensures x in live[a := bsize] <==> x in hand'.blocks {
      assert x in live <==> x in hand.blocks;
    }
  }

  /** Where the sizes that stay come from. */
  lemma {:induction false} SizesLeft(s: seq<int>, k: nat)
    requires k < |s|
    ensures |RemoveAt(s, k)| == |s| - 1
    ensures forall i :: 0 <= i < |s| - 1 ==> RemoveAt(s, k)[i] == s[Kept(i, k)]
  {
  }

  lemma {:induction false} HoldsLess(live: map<Addr, int>, hand: Hand, k: nat)
    requires Holds(live, hand) && k < |hand.blocks|
    ensures hand.blocks[k] in live && Holds(live - {hand.blocks[k]}, After(hand, Free(k), Freed))
  {
    hide RemoveAt;
    var b, rest, sizes := hand.blocks[k], RemoveAt(hand.blocks, k), RemoveAt(hand.wanted, k);
    SizesLeft(hand.blocks, k);
    SizesLeft(hand.wanted, k);
    RemovedAt(hand.blocks, k);
    forall a ensures a in live - {b} <==> a in rest {
      assert a in live <==> a in hand.blocks;
      assert a in rest <==> a in hand.blocks && a != b;
    }
    forall i | 0 <= i < |rest| ensures rest[i] in live - {b} && (live - {b})[rest[i]] >= sizes[i] {
      assert rest[i] in rest;
    }
    assert Holds(live - {b}, Hand(rest, sizes));
  }

  // ---------- Histories ----------

  /** One allocation, with the reply and the moment after it. */
  method Ask(h: EvlHeap, size: nat, ghost hand: Hand) returns (a: Addr, ghost reply: Reply)
    requires h.Valid() && Holds(h.live, hand) && size <= MAX_REQUEST
    modifies h, h.pool, h.pool.addrTree, h.pool.sizeTree, h.table, h.table.pagemap, h.table.buckets
    ensures h.Valid() && Holds(h.live, After(hand, Alloc(size), reply))
    ensures Answered(h.pool.membase, old(h.Now()), hand, Alloc(size), reply, h.Now())
    ensures if a == NULL then reply.Refused? else reply.Granted? && reply.a == a
  {
    hide EvlHeap.Valid, Holds, LeastBlock, AllocStep, NoRoom;
    ghost var live := h.live;
    ghost var bsize;
    a, bsize := h.AllocBlock(size);
    reply := if a == NULL then Refused(bsize) else Granted(a, bsize);
    if a != NULL {
      AtLeast(size, bsize);
      HoldsMore(live, hand, a, size, bsize);
    }
  }

  lemma {:induction false} AtLeast(size: int, bsize: int)
    requires LeastBlock(size, bsize)
    ensures size <= bsize
  {
  }

  /** One free of a block held, with the moment after it. */
  method GiveBack(h: EvlHeap, k: nat, block: Addr, ghost hand: Hand)
    requires h.Valid() && Holds(h.live, hand) && k < |hand.blocks| && hand.blocks[k] == block
    modifies h, h.pool, h.pool.addrTree, h.pool.sizeTree, h.table, h.table.pagemap, h.table.buckets
    ensures h.Valid() && Holds(h.live, After(hand, Free(k), Freed))
    ensures Answered(h.pool.membase, old(h.Now()), hand, Free(k), Freed, h.Now())
  {
    hide EvlHeap.Valid, Holds, After, FreeStep;
    HoldsLess(h.live, hand, k);
    var err := h.FreeBlock(block);
  }

  /**
   * Any sequence of requests to a heap whose blocks the client holds: every request is answered as the state of the
   * heap at that moment requires, the client ends up with what the replies gave it, and can use all of it.
   */
  method Serve(h: EvlHeap, requests: seq<Request>, held: seq<Addr>, ghost owed: seq<int>)
    returns (blocks: seq<Addr>, ghost wanted: seq<int>, ghost replies: seq<Reply>, ghost moments: seq<Moment>)
    requires h.Valid() && Holds(h.live, Hand(held, owed))
    requires forall i :: 0 <= i < |requests| && requests[i].Alloc? ==> requests[i].size <= MAX_REQUEST
    modifies h, h.pool, h.pool.addrTree, h.pool.sizeTree, h.table, h.table.pagemap, h.table.buckets
    ensures Happened(h.pool.membase, h.pool.memlim, moments, Hand(held, owed), requests, replies)
    ensures moments[0] == old(h.Now()) && moments[|requests|] == h.Now()
    ensures Hand(blocks, wanted) == AfterAll(Hand(held, owed), requests, replies)
    ensures h.Valid() && Holds(h.live, Hand(blocks, wanted)) && Usable(h, Hand(blocks, wanted))
  {
    hide EvlHeap.Valid, Holds, Answered, EvlHeap.Now, Happened, AfterAll, MomentOk;
    ghost var hand := Hand(held, owed);
    SameLength(h.live, hand);
    blocks, wanted, replies, moments := held, owed, [], [h.Now()];
    NowOk(h);
    HappenedNothing(h.pool.membase, h.pool.memlim, h.Now(), hand);
    for n := 0 to |requests|
      invariant h.Valid() && Holds(h.live, Hand(blocks, wanted)) && |wanted| == |blocks|
      invariant |replies| == n && |moments| == n + 1
      invariant Happened(h.pool.membase, h.pool.memlim, moments, hand, requests[..n], replies)
      invariant moments[0] == old(h.Now()) && moments[n] == h.Now()
      invariant Hand(blocks, wanted) == AfterAll(hand, requests[..n], replies)
    {
      ghost var reply;
      assert requests[..n + 1] == requests[..n] + [requests[n]];
      match requests[n] {
        case Alloc(size) =>
          var a;
          a, reply := Ask(h, size, Hand(blocks, wanted));
          if a != NULL {
            blocks, wanted := blocks + [a], wanted + [size];
          }
        case Free(k) =>
          if k < |blocks| {
            GiveBack(h, k, blocks[k], Hand(blocks, wanted));
            blocks, wanted, reply := RemoveAt(blocks, k), RemoveAt(wanted, k), Freed;
          } else {
            reply := Ignored;
            NothingToFree(h.pool.membase, h.Now(), Hand(blocks, wanted), k);
          }
      }
      NowOk(h);
      HappenedNext(h.pool.membase, h.pool.memlim, moments, hand, requests[..n], replies, requests[n], reply, h.Now());
      replies, moments := replies + [reply], moments + [h.Now()];
    }
    assert requests[..|requests|] == requests;
    HeldUsable(h, Hand(blocks, wanted));
  }

  lemma {:induction false} SameLength(live: map<Addr, int>, hand: Hand)
    requires Holds(live, hand)
    ensures |hand.wanted| == |hand.blocks|
  {
  }

  lemma {:induction false} NothingToFree(base: Addr, m: Moment, hand: Hand, k: nat)
    requires k >= |hand.blocks|
    ensures Answered(base, m, hand, Free(k), Ignored, m)
  {
  }

  lemma {:induction false} HappenedNothing(base: Addr, lim: Addr, m: Moment, hand: Hand)
    requires MomentOk(base, lim, m)
    ensures Happened(base, lim, [m], hand, [], []) && AfterAll(hand, [], []) == hand
  {
  }

  /** Frees the blocks held, in the order of the list: the page pool is whole again. */
  method FreeAll(h: EvlHeap, held: seq<Addr>, ghost owed: seq<int>)
    requires h.Valid() && Holds(h.live, Hand(held, owed))
    modifies h, h.pool, h.pool.addrTree, h.pool.sizeTree, h.table, h.table.pagemap, h.table.buckets
    ensures h.Valid() && h.live == map[] && h.usedSize == 0
    ensures h.pool.ranges == map[h.pool.membase := h.pool.memlim - h.pool.membase]
    ensures h.pool.ByAddr() == [h.pool.membase] && h.pool.BySize() == [h.pool.membase]
  {
    hide EvlHeap.Valid, Holds, Answered, EvlHeap.Now;
    var blocks := held;
    ghost var wanted := owed;
    SameLength(h.live, Hand(held, owed));
    while blocks != []
      invariant h.Valid() && Holds(h.live, Hand(blocks, wanted)) && |wanted| == |blocks|
      decreases |blocks|
    {
      GiveBack(h, 0, blocks[0], Hand(blocks, wanted));
      blocks, wanted := RemoveAt(blocks, 0), RemoveAt(wanted, 0);
    }
    HoldsNone(h.live, Hand(blocks, wanted));
    AllFreed(h);
  }

  lemma {:induction false} HoldsNone(live: map<Addr, int>, hand: Hand)
    requires Holds(live, hand) && hand.blocks == []
    ensures live == map[]
  {
    assert forall a :: a in live <==> a in hand.blocks;
  }
}
