/** The per-bucket page lists of a heap (lib/heap.c): circular lists threaded through the page map. */
module PageRings {
  import opened Sequences

  const NO_PAGE: int := -1

  /** The union of `struct evl_heap_pgentry`: a busy map, or the size of a multi-page block. */
  datatype Payload = Busy(map_: seq<bool>) | Block(bsize: int)

  /** `struct evl_heap_pgentry` */
  datatype PageEntry = PageEntry(prev: int, next: int, typ: nat, payload: Payload)

  function Succ(i: int, n: int): int {
    if i + 1 == n then 0 else i + 1
  }

  function Pred(i: int, n: int): int {
    if i == 0 then n - 1 else i - 1
  }

  ghost predicate InMap(s: seq<int>, n: int) {
    forall i :: 0 <= i < |s| ==> 0 <= s[i] < n
  }

  /** Entry number `i` of the list points to its neighbours. */
  ghost predicate LinkedAt(e: seq<PageEntry>, s: seq<int>, i: int)
    requires 0 <= i < |s| && InMap(s, |e|)
  {
    e[s[i]].next == s[Succ(i, |s|)] && e[s[i]].prev == s[Pred(i, |s|)]
  }

  /** The pages `s` form a circular list in this order. */
  ghost predicate Threaded(e: seq<PageEntry>, s: seq<int>)
    requires InMap(s, |e|)
  {
    forall i {:trigger LinkedAt(e, s, i)} :: 0 <= i < |s| ==> LinkedAt(e, s, i)
  }

  /** A well-formed page list whose heading page is in the bucket. */
  ghost predicate Ring(e: seq<PageEntry>, s: seq<int>, bucket: int) {
    InMap(s, |e|) && Distinct(s) && Threaded(e, s) && bucket == if s == [] then NO_PAGE else s[0]
  }

  /** Only links may differ, and only those of the pages in `s`. */
  ghost predicate LinksOnly(e: seq<PageEntry>, e': seq<PageEntry>, s: seq<int>) {
    && |e'| == |e|
    && (forall p :: 0 <= p < |e| ==> e'[p].typ == e[p].typ && e'[p].payload == e[p].payload)
    && (forall p :: 0 <= p < |e| && p !in s ==> e'[p] == e[p])
  }

  // ---------- Insertion in front ----------

  function AddedFront(s: seq<int>, pg: int): seq<int> {
    if s == [] then [pg] else [pg] + s[1..] + [s[0]]
  }

  /** The writes of add_page_front () and of the end of move_page_back (): `pg` goes right after `h`. */
  ghost predicate LinkedAfter(e: seq<PageEntry>, e': seq<PageEntry>, h: int, pg: int)
    requires 0 <= h < |e| && 0 <= pg < |e| && |e'| == |e|
  {
    var n := e[h].next;
    && e'[pg].prev == h && e'[pg].next == n
    && (forall q :: 0 <= q < |e| && q != pg ==> e'[q].next == if q == h then pg else e[q].next)
    && (forall q :: 0 <= q < |e| && q != pg ==> e'[q].prev == if q == n then pg else e[q].prev)
  }

  /** Linking a page after the last one of a list makes it the last one. */
  lemma {:induction false} LinkedLast(e: seq<PageEntry>, e': seq<PageEntry>, s: seq<int>, pg: int)
    requires InMap(s, |e|) && Distinct(s) && Threaded(e, s) && s != [] && 0 <= pg < |e| && pg !in s && |e'| == |e|
    requires LinkedAfter(e, e', s[|s| - 1], pg)
    ensures InMap(s + [pg], |e'|) && Distinct(s + [pg]) && Threaded(e', s + [pg])
  {
    var t := s + [pg];
    var n := |s|;
    assert LinkedAt(e, s, n - 1);
    forall i | 0 <= i < n ensures LinkedAt(e', t, i) {
      assert s[i] in s;
      assert t[i] == s[i];
      assert LinkedAt(e, s, i);
    }
  }

  /** Which page of a circular list comes first does not matter. */
  lemma {:induction false} Rotate(e: seq<PageEntry>, s: seq<int>)
    requires InMap(s, |e|) && Distinct(s) && Threaded(e, s) && s != []
    ensures var t := s[1..] + [s[0]]; InMap(t, |e|) && Distinct(t) && Threaded(e, t)
  {
    var t, n := s[1..] + [s[0]], |s|;
    forall i | 0 <= i < n ensures t[i] == s[Succ(i, n)] {
    }
    forall i | 0 <= i < n ensures LinkedAt(e, t, i) {
      var j := Succ(i, n);
      assert LinkedAt(e, s, j);
    }
  }

  lemma {:induction false} RotateBack(e: seq<PageEntry>, s: seq<int>, pg: int)
    requires InMap(s + [pg], |e|) && Distinct(s + [pg]) && Threaded(e, s + [pg])
    ensures var t := [pg] + s; InMap(t, |e|) && Distinct(t) && Threaded(e, t)
  {
    var t, u, n := [pg] + s, s + [pg], |s| + 1;
    forall i | 0 <= i < n ensures t[i] == u[Pred(i, n)] {
    }
    forall i | 0 <= i < n ensures LinkedAt(e, t, i) {
      var j := Pred(i, n);
      assert LinkedAt(e, u, j);
    }
  }

  /** add_page_front () on a non-empty list: the old head goes last. */
  lemma {:induction false} AddedFrontRing(e: seq<PageEntry>, e': seq<PageEntry>, s: seq<int>, pg: int)
    requires s != [] && Ring(e, s, s[0]) && 0 <= pg < |e| && pg !in s && |e'| == |e|
    requires LinkedAfter(e, e', s[0], pg)
    ensures Ring(e', AddedFront(s, pg), pg)
  {
    var t := s[1..] + [s[0]];
    Rotate(e, s);
    LinkedLast(e, e', t, pg);
    RotateBack(e', t, pg);
    assert AddedFront(s, pg) == [pg] + t;
  }

  // ---------- Removal ----------

  /** The writes of remove_page () on the neighbours of page `pg`. */
  ghost predicate Unlinked(e: seq<PageEntry>, e': seq<PageEntry>, pg: int)
    requires 0 <= pg < |e| && |e'| == |e|
  {
    && (forall q :: 0 <= q < |e| ==> e'[q].next == if q == e[pg].prev then e[pg].next else e[q].next)
    && (forall q :: 0 <= q < |e| ==> e'[q].prev == if q == e[pg].next then e[pg].prev else e[q].prev)
  }

  lemma {:induction false} UnlinkedAt(e: seq<PageEntry>, e': seq<PageEntry>, s: seq<int>, i: int, k: int)
    requires InMap(s, |e|) && Distinct(s) && Threaded(e, s) && 0 <= i < |s| && 0 <= k < |s| - 1 && |e'| == |e|
    requires Unlinked(e, e', s[i])
    ensures var a := s[Kept(k, i)];
            && e'[a].next == s[Kept(Succ(k, |s| - 1), i)] && e'[a].prev == s[Kept(Pred(k, |s| - 1), i)]
  {
    var n, j := |s|, Kept(k, i);
    assert LinkedAt(e, s, i) && LinkedAt(e, s, j);
    assert j == Pred(i, n) <==> s[j] == s[Pred(i, n)];
    assert j == Succ(i, n) <==> s[j] == s[Succ(i, n)];
  }

  lemma {:induction false} UnlinkedRing(e: seq<PageEntry>, e': seq<PageEntry>, s: seq<int>, i: int)
    requires InMap(s, |e|) && Distinct(s) && Threaded(e, s) && 0 <= i < |s| && |s| > 1 && |e'| == |e|
    requires Unlinked(e, e', s[i])
    ensures var t := RemoveAt(s, i); InMap(t, |e'|) && Distinct(t) && Threaded(e', t)
  {
    hide RemoveAt, Threaded, Unlinked;
    var t, n := RemoveAt(s, i), |s|;
    RemovedAt(s, i);
    RemovedLength(s, i);
    forall k | 0 <= k < n - 1 ensures LinkedAt(e', t, k) {
      UnlinkedAt(e, e', s, i, k);
    }
    IsThreaded(e', t);
  }

  lemma {:induction false} RemovedLength(s: seq<int>, i: int)
    requires 0 <= i < |s|
    ensures |RemoveAt(s, i)| == |s| - 1
  {
  }

  lemma {:induction false} IsThreaded(e: seq<PageEntry>, s: seq<int>)
    requires InMap(s, |e|) && forall i {:trigger LinkedAt(e, s, i)} :: 0 <= i < |s| ==> LinkedAt(e, s, i)
    ensures Threaded(e, s)
  {
  }
}
