/** The page map of an extent and the page lists of the buckets (lib/heap.c). */
module PageLists {
  import opened Sequences
  import opened PageRings

  const MIN_LOG2: int := 4
  const MAX_BUCKETS: int := 5

  ghost predicate NoCommon(s: seq<int>, t: seq<int>) {
    forall p :: p in s ==> p !in t
  }

  /** Every bucket heads a well-formed list, and no page is in two of them. */
  ghost predicate AllRings(e: seq<PageEntry>, rings: seq<seq<int>>, buckets: seq<int>) {
    && |buckets| == MAX_BUCKETS && |rings| == MAX_BUCKETS
    && (forall l :: 0 <= l < MAX_BUCKETS ==> Ring(e, rings[l], buckets[l]))
    && (forall l, k :: 0 <= l < k < MAX_BUCKETS ==> NoCommon(rings[l], rings[k]))
  }

  ghost predicate Unlisted(rings: seq<seq<int>>, pg: int) {
    forall l :: 0 <= l < |rings| ==> pg !in rings[l]
  }

  lemma {:induction false} RingFrame(e: seq<PageEntry>, e': seq<PageEntry>, s: seq<int>, t: seq<int>, bucket: int)
    requires Ring(e, t, bucket) && LinksOnly(e, e', s) && NoCommon(t, s)
    ensures Ring(e', t, bucket)
  {
    forall i | 0 <= i < |t| ensures LinkedAt(e', t, i) {
      assert LinkedAt(e, t, i) && t[i] in t;
    }
  }

  /** Writing one list, and possibly one more page, keeps the others. */
  lemma {:induction false} OneRing(e: seq<PageEntry>, e': seq<PageEntry>, rings: seq<seq<int>>, buckets: seq<int>,
                                   l: int, s: seq<int>, head: int, pg: int)
    requires AllRings(e, rings, buckets) && 0 <= l < MAX_BUCKETS
    requires Ring(e', s, head) && LinksOnly(e, e', rings[l] + [pg])
    requires forall p :: p in s ==> p in rings[l] || p == pg
    requires forall k :: 0 <= k < MAX_BUCKETS && k != l ==> pg !in rings[k]
    ensures AllRings(e', rings[l := s], buckets[l := head])
  {
    hide Ring, LinksOnly;
    forall k | 0 <= k < MAX_BUCKETS && k != l ensures Ring(e', rings[k], buckets[k]) {
      assert if k < l then NoCommon(rings[k], rings[l]) else NoCommon(rings[l], rings[k]);
      RingFrame(e, e', rings[l] + [pg], rings[k], buckets[k]);
    }
    forall k | 0 <= k < MAX_BUCKETS && k != l ensures NoCommon(s, rings[k]) && NoCommon(rings[k], s) {
      assert if k < l then NoCommon(rings[k], rings[l]) else NoCommon(rings[l], rings[k]);
    }
  }

  lemma {:induction false} RingOf(e: seq<PageEntry>, rings: seq<seq<int>>, buckets: seq<int>, l: int)
    requires AllRings(e, rings, buckets) && 0 <= l < MAX_BUCKETS
    ensures |rings| == |buckets| == MAX_BUCKETS && Ring(e, rings[l], buckets[l])
  {
  }

  lemma {:induction false} Singleton(e: seq<PageEntry>, pg: int)
    requires 0 <= pg < |e| && e[pg].prev == pg && e[pg].next == pg
    ensures Ring(e, [pg], pg)
  {
    assert LinkedAt(e, [pg], 0);
  }

  lemma {:induction false} EmptyRing(e: seq<PageEntry>)
    ensures Ring(e, [], NO_PAGE)
  {
  }

  lemma {:induction false} NextInRing(e: seq<PageEntry>, s: seq<int>, i: int)
    requires InMap(s, |e|) && Threaded(e, s) && Distinct(s) && 0 <= i < |s|
    ensures 0 <= s[i] < |e| && e[s[i]].next in s && e[s[i]].prev in s
    ensures e[s[i]].next == s[Succ(i, |s|)] && e[s[i]].prev == s[Pred(i, |s|)]
    ensures 0 <= e[s[i]].next < |e| && 0 <= e[s[i]].prev < |e|
    ensures (e[s[i]].next == s[i] <==> |s| == 1) && (e[s[i]].prev == s[i] <==> |s| == 1)
  {
    assert LinkedAt(e, s, i);
  }

  lemma {:induction false} OthersUnlisted(e: seq<PageEntry>, rings: seq<seq<int>>, buckets: seq<int>, l: int, pg: int)
    requires AllRings(e, rings, buckets) && 0 <= l < MAX_BUCKETS && pg in rings[l]
    ensures forall k :: 0 <= k < MAX_BUCKETS && k != l ==> pg !in rings[k]
  {
    forall k | 0 <= k < MAX_BUCKETS && k != l ensures pg !in rings[k] {
      assert if k < l then NoCommon(rings[k], rings[l]) else NoCommon(rings[l], rings[k]);
    }
  }

  lemma {:induction false} LinksWider(e: seq<PageEntry>, e': seq<PageEntry>, s: seq<int>, t: seq<int>)
    requires LinksOnly(e, e', s) && forall p :: p in s ==> p in t
    ensures LinksOnly(e, e', t)
  {
  }

  lemma {:induction false} LinksChain(e: seq<PageEntry>, e1: seq<PageEntry>, e': seq<PageEntry>, s: seq<int>,
                                      t: seq<int>)
    requires LinksOnly(e, e1, s) && LinksOnly(e1, e', t) && forall p :: p in t ==> p in s
    ensures LinksOnly(e, e', s)
  {
  }

  lemma {:induction false} UnlistedRemoved(rings: seq<seq<int>>, l: int, i: int, pg: int)
    requires 0 <= l < |rings| && 0 <= i < |rings[l]| && rings[l][i] == pg && Distinct(rings[l])
    requires forall k :: 0 <= k < |rings| && k != l ==> pg !in rings[k]
    ensures Unlisted(rings[l := RemoveAt(rings[l], i)], pg)
  {
    RemovedAt(rings[l], i);
  }

  lemma {:induction false} LinksNone(e: seq<PageEntry>, s: seq<int>)
    ensures LinksOnly(e, e, s)
  {
  }

  lemma {:induction false} RemovedEnds(s: seq<int>, i: int)
    requires 0 <= i < |s|
    ensures |RemoveAt(s, i)| == |s| - 1
    ensures |s| > 1 ==> RemoveAt(s, i)[0] == if i == 0 then s[1] else s[0]
    ensures |s| == 1 ==> RemoveAt(s, i) == [] && RemoveAt(s, i) + [s[i]] == s
  {
  }

  lemma {:induction false} SingleMoved(rings: seq<seq<int>>, l: int, i: int)
    requires 0 <= l < |rings| && 0 <= i < |rings[l]| && |rings[l]| == 1
    ensures rings[l := RemoveAt(rings[l], i) + [rings[l][i]]] == rings
  {
    RemovedEnds(rings[l], i);
  }

  lemma {:induction false} LinksOne(e: seq<PageEntry>, e': seq<PageEntry>, s: seq<int>, pg: int)
    requires 0 <= pg < |e| && |e'| == |e| && e'[pg].typ == e[pg].typ && e'[pg].payload == e[pg].payload
    requires forall p :: 0 <= p < |e| && p != pg ==> e'[p] == e[p]
    ensures LinksOnly(e, e', s + [pg])
  {
  }

  /** Types and payloads do not matter to the lists. */
  lemma {:induction false} RingsKept(e: seq<PageEntry>, e': seq<PageEntry>, rings: seq<seq<int>>, buckets: seq<int>)
    requires AllRings(e, rings, buckets) && |e'| == |e|
    requires forall p :: 0 <= p < |e| ==> e'[p].prev == e[p].prev && e'[p].next == e[p].next
    ensures AllRings(e', rings, buckets)
  {
    forall l | 0 <= l < MAX_BUCKETS ensures Ring(e', rings[l], buckets[l]) {
      assert Ring(e, rings[l], buckets[l]);
      forall i | 0 <= i < |rings[l]| ensures LinkedAt(e', rings[l], i) {
        assert LinkedAt(e, rings[l], i);
      }
    }
  }

  class PageTable {
    const pagemap: array<PageEntry>
    const buckets: array<int>
    ghost var rings: seq<seq<int>>

    ghost predicate Valid()
      reads this, pagemap, buckets
    {
      && buckets.Length == MAX_BUCKETS && |rings| == MAX_BUCKETS
      && AllRings(pagemap[..], rings, buckets[..])
    }

    lemma {:induction false} BucketHead(k: int)
      requires Valid() && 0 <= k < MAX_BUCKETS
      ensures buckets.Length == MAX_BUCKETS && |rings| == MAX_BUCKETS
      ensures buckets[k] == if rings[k] == [] then NO_PAGE else rings[k][0]
      ensures rings[k] != [] ==> 0 <= rings[k][0] < pagemap.Length
      ensures Distinct(rings[k])
    {
      RingOf(pagemap[..], rings, buckets[..], k);
    }

    lemma {:induction false} InRange(k: int, pg: int)
      requires Valid() && 0 <= k < MAX_BUCKETS && pg in rings[k]
      ensures 0 <= pg < pagemap.Length
    {
      RingOf(pagemap[..], rings, buckets[..], k);
    }

    /** Writes the type and payload of a page. */
    method SetPage(pg: int, typ: nat, payload: Payload)
      requires Valid() && 0 <= pg < pagemap.Length
      modifies pagemap
      ensures Valid()
      ensures pagemap[..] == old(pagemap[..])[pg := old(pagemap[pg]).(typ := typ, payload := payload)]
    {
      ghost var e := pagemap[..];
      pagemap[pg] := pagemap[pg].(typ := typ, payload := payload);
      RingsKept(e, pagemap[..], rings, buckets[..]);
    }

    /** mark_pages (): empty unless `checked`. */
    method MarkPages(start: int, count: int, typ: nat, checked: bool)
      requires Valid() && 0 <= start && 0 <= count && start + count <= pagemap.Length
      modifies pagemap
      ensures Valid()
      ensures forall q :: 0 <= q < pagemap.Length ==>
                pagemap[q] == if checked && start <= q < start + count then old(pagemap[q]).(typ := typ)
                              else old(pagemap[q])
    {
      if checked {
        var pg, nrpages := start, count;
        while nrpages > 0
          invariant 0 <= nrpages && pg + nrpages == start + count && start <= pg && Valid()
          invariant forall q :: 0 <= q < pagemap.Length ==>
                      pagemap[q] == if start <= q < pg then old(pagemap[q]).(typ := typ) else old(pagemap[q])
        {
          SetPage(pg, typ, pagemap[pg].payload);
          nrpages, pg := nrpages - 1, pg + 1;
        }
      }
    }

    /** Inserts page `pg` after page `h` of a list. */
    method LinkAfter(h: int, pg: int)
      requires 0 <= h < pagemap.Length && 0 <= pg < pagemap.Length && h != pg
      requires 0 <= pagemap[h].next < pagemap.Length && pagemap[h].next != pg
      modifies pagemap
      ensures LinkedAfter(old(pagemap[..]), pagemap[..], h, pg)
      ensures LinksOnly(old(pagemap[..]), pagemap[..], [h, pg, old(pagemap[h].next)])
    {
      pagemap[pg] := pagemap[pg].(prev := h, next := pagemap[h].next);
      var next := pagemap[pg].next;
      pagemap[next] := pagemap[next].(prev := pg);
      pagemap[h] := pagemap[h].(next := pg);
    }

    /** add_page_front () */
    method AddPageFront(pg: int, log2size: int)
      requires Valid() && MIN_LOG2 <= log2size < MIN_LOG2 + MAX_BUCKETS
      requires 0 <= pg < pagemap.Length && Unlisted(rings, pg)
      modifies this, pagemap, buckets
      ensures Valid() && LinksOnly(old(pagemap[..]), pagemap[..], old(rings)[log2size - MIN_LOG2] + [pg])
      ensures rings == old(rings)[log2size - MIN_LOG2 := AddedFront(old(rings)[log2size - MIN_LOG2], pg)]
    {
      hide AllRings, Threaded, LinkedAfter, LinksOnly, NoCommon;
      var ilog := log2size - MIN_LOG2;
      ghost var s := rings[ilog];
      ghost var e, b := pagemap[..], buckets[..];
      RingOf(e, rings, b, ilog);
      if buckets[ilog] == NO_PAGE {
        buckets[ilog] := pg;
        pagemap[pg] := pagemap[pg].(prev := pg, next := pg);
        Singleton(pagemap[..], pg);
        LinksOne(e, pagemap[..], s, pg);
      } else {
        var head := buckets[ilog];
        NextInRing(e, s, 0);
        LinkAfter(head, pg);
        LinksWider(e, pagemap[..], [head, pg, e[head].next], s + [pg]);
        AddedFrontRing(e, pagemap[..], s, pg);
        buckets[ilog] := pg;
      }
      assert buckets[..] == b[ilog := pg];
      OneRing(e, pagemap[..], rings, b, ilog, AddedFront(s, pg), pg, pg);
      rings := rings[ilog := AddedFront(s, pg)];
    }

    /** remove_page () of the page at place `i` of its list. */
    method RemovePage(pg: int, log2size: int, ghost i: int)
      requires Valid() && MIN_LOG2 <= log2size < MIN_LOG2 + MAX_BUCKETS
      requires var s := rings[log2size - MIN_LOG2]; 0 <= i < |s| && s[i] == pg
      modifies this, pagemap, buckets
      ensures Valid() && LinksOnly(old(pagemap[..]), pagemap[..], old(rings)[log2size - MIN_LOG2])
      ensures rings == old(rings)[log2size - MIN_LOG2 := RemoveAt(old(rings)[log2size - MIN_LOG2], i)]
      ensures Unlisted(rings, pg)
    {
      hide AllRings, Threaded, Unlinked, NoCommon, RemoveAt;
      var ilog := log2size - MIN_LOG2;
      ghost var s := rings[ilog];
      ghost var e, b := pagemap[..], buckets[..];
      RingOf(e, rings, b, ilog);
      NextInRing(e, s, i);
      RemovedAt(s, i);
      RemovedEnds(s, i);
      OthersUnlisted(e, rings, b, ilog, pg);
      var old_ := pagemap[pg];
      if pg == old_.next {
        buckets[ilog] := NO_PAGE;
        EmptyRing(e);
      } else {
        if pg == buckets[ilog] {
          buckets[ilog] := old_.next;
        }
        Unlink(pg);
        UnlinkedRing(e, pagemap[..], s, i);
        LinksWider(e, pagemap[..], [old_.prev, old_.next], s);
      }
      LinksWider(e, pagemap[..], s, s + [pg]);
      assert buckets[..] == b[ilog := buckets[ilog]];
      OneRing(e, pagemap[..], rings, b, ilog, RemoveAt(s, i), buckets[ilog], pg);
      UnlistedRemoved(rings, ilog, i, pg);
      rings := rings[ilog := RemoveAt(s, i)];
    }

    /** The writes of remove_page () on the neighbours of page `pg`. */
    method Unlink(pg: int)
      requires 0 <= pg < pagemap.Length && 0 <= pagemap[pg].prev < pagemap.Length
      requires 0 <= pagemap[pg].next < pagemap.Length
      requires pagemap[pg].prev != pg && pagemap[pg].next != pg
      modifies pagemap
      ensures Unlinked(old(pagemap[..]), pagemap[..], pg)
      ensures LinksOnly(old(pagemap[..]), pagemap[..], [old(pagemap[pg].prev), old(pagemap[pg].next)])
    {
      var old_ := pagemap[pg];
      pagemap[old_.prev] := pagemap[old_.prev].(next := old_.next);
      pagemap[old_.next] := pagemap[old_.next].(prev := old_.prev);
    }

    /** move_page_front () */
    method MovePageFront(pg: int, log2size: int, ghost i: int)
      requires Valid() && MIN_LOG2 <= log2size < MIN_LOG2 + MAX_BUCKETS
      requires var s := rings[log2size - MIN_LOG2]; 0 <= i < |s| && s[i] == pg
      modifies this, pagemap, buckets
      ensures Valid() && LinksOnly(old(pagemap[..]), pagemap[..], old(rings)[log2size - MIN_LOG2])
      ensures var s := old(rings)[log2size - MIN_LOG2];
              rings == old(rings)[log2size - MIN_LOG2 := if i == 0 then s else AddedFront(RemoveAt(s, i), pg)]
    {
      hide AllRings, Threaded, LinksOnly, NoCommon, RemoveAt, AddedFront;
      var ilog := log2size - MIN_LOG2;
      ghost var s, e := rings[ilog], pagemap[..];
      RingOf(e, rings, buckets[..], ilog);
      LinksNone(e, s);
      if buckets[ilog] == pg {
        return;
      }
      RemovePage(pg, log2size, i);
      ghost var e1 := pagemap[..];
      AddPageFront(pg, log2size);
      RemovedAt(s, i);
      LinksChain(e, e1, pagemap[..], s, RemoveAt(s, i) + [pg]);
    }

    /** move_page_back () */
    method MovePageBack(pg: int, log2size: int, ghost i: int)
      requires Valid() && MIN_LOG2 <= log2size < MIN_LOG2 + MAX_BUCKETS
      requires var s := rings[log2size - MIN_LOG2]; 0 <= i < |s| && s[i] == pg
      modifies this, pagemap, buckets
      ensures Valid() && LinksOnly(old(pagemap[..]), pagemap[..], old(rings)[log2size - MIN_LOG2])
      ensures rings == old(rings)[log2size - MIN_LOG2 := RemoveAt(old(rings)[log2size - MIN_LOG2], i) + [pg]]
    {
      hide AllRings, Threaded, LinkedAfter, LinksOnly, NoCommon, RemoveAt;
      var ilog := log2size - MIN_LOG2;
      ghost var s, e := rings[ilog], pagemap[..];
      RingOf(e, rings, buckets[..], ilog);
      NextInRing(e, s, i);
      LinksNone(e, s);
      RemovedAt(s, i);
      RemovedEnds(s, i);
      if pg == pagemap[pg].next {
        SingleMoved(rings, ilog, i);
        return;
      }
      RemovePage(pg, log2size, i);
      ghost var t, e1 := RemoveAt(s, i), pagemap[..];
      AppendPage(pg, ilog);
      LinksChain(e, e1, pagemap[..], s, t + [pg]);
    }

    /** The end of move_page_back (). */
    method AppendPage(pg: int, ilog: int)
      requires Valid() && 0 <= ilog < MAX_BUCKETS && rings[ilog] != []
      requires 0 <= pg < pagemap.Length && Unlisted(rings, pg)
      modifies this, pagemap
      ensures Valid() && LinksOnly(old(pagemap[..]), pagemap[..], old(rings)[ilog] + [pg])
      ensures rings == old(rings)[ilog := old(rings)[ilog] + [pg]]
    {
      hide AllRings, Threaded, LinkedAfter, LinksOnly, NoCommon, LinkedAt;
      ghost var t, e, b := rings[ilog], pagemap[..], buckets[..];
      RingOf(e, rings, b, ilog);
      NextInRing(e, t, 0);
      NextInRing(e, t, |t| - 1);
      var head := buckets[ilog];
      var last := pagemap[head].prev;
      LinkAfter(last, pg);
      LinksWider(e, pagemap[..], [last, pg, e[last].next], t + [pg]);
      LinkedLast(e, pagemap[..], t, pg);
      OneRing(e, pagemap[..], rings, b, ilog, t + [pg], head, pg);
      assert b[ilog := head] == b;
      rings := rings[ilog := t + [pg]];
    }

    constructor (nrpages: nat)
      ensures Valid() && pagemap.Length == nrpages && fresh(pagemap) && fresh(buckets)
      ensures rings == [[], [], [], [], []]
      ensures forall p :: 0 <= p < nrpages ==> pagemap[p] == PageEntry(0, 0, 0, Block(0))
    {
      pagemap := new PageEntry[nrpages](i => PageEntry(0, 0, 0, Block(0)));
      buckets := new int[5](i => NO_PAGE);
      rings := [[], [], [], [], []];
    }
  }
}
