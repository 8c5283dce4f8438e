/** The page pool of an extent (lib/heap.c): free ranges indexed by address and by size in two AVL trees. */
module RangePool {
  import opened AvlShape
  import opened AvlKeys
  import opened Avl
  import opened FreeRanges

  class PagePool {
    const membase: Addr
    const memlim: Addr
    const addrTree: AvlTree
    const sizeTree: AvlTree
    /** The `size` fields of the range descriptors. */
    var size: map<Addr, int>
    ghost var ranges: Ranges

    /** The holders of the two trees. */
    ghost function ByAddr(): seq<Addr>
      reads addrTree
    {
      Order(addrTree.tree)
    }

    ghost function BySize(): seq<Addr>
      reads sizeTree
    {
      Order(sizeTree.tree)
    }

    /** The address tree indexes the ranges `q`. */
    ghost predicate AddrIndexed(q: Ranges)
      reads addrTree
    {
      addrTree.Valid() && Listed(ByAddr(), q) && SortedBy(ByAddr(), AddrKey())
    }

    /** The size tree indexes the ranges `q`. */
    ghost predicate SizeIndexed(q: Ranges)
      reads this`size, sizeTree
    {
      sizeTree.Valid() && Listed(BySize(), q) && SortedBy(BySize(), SizeKey(size)) && SizedBy(size, q)
    }

    /** Both trees index the same coalesced ranges. */
    ghost predicate Valid()
      reads this, addrTree, sizeTree
    {
      && 0 < membase && addrTree != sizeTree && Coalesced(ranges, membase, memlim)
      && AddrIndexed(ranges) && SizeIndexed(ranges)
    }

    /** addr_to_pagenr () */
    function PageNr(p: Addr): int {
      (p - membase) / PAGE_SIZE
    }

    lemma {:induction false} PageNumbered(p: Addr, n: int)
      requires WholePages(p, n, membase, memlim)
      ensures PageNr(p) >= 0 && membase + PageNr(p) * PAGE_SIZE == p
    {
    }

    method DropFromSize(a: Addr, ghost q: Ranges)
      requires SizeIndexed(q) && a in q
      modifies sizeTree
      ensures SizeIndexed(q - {a})
    {
      ghost var i := IndexOf(BySize(), q, a);
      RemovedMembers(BySize(), i, q);
      RemoveSorted(BySize(), SizeKey(size), i);
      sizeTree.Delete(a, i);
    }

    /** Reads the descriptor of a range. */
    method SizeOf(a: Addr, ghost q: Ranges) returns (n: int)
      requires SizeIndexed(q) && a in q
      ensures n == q[a] && a > 0
    {
      n := SizeKey(size)(a);
    }

    lemma {:induction false} ResizeInAddr(a: Addr, n: int, q: Ranges)
      requires AddrIndexed(q) && a in q
      ensures AddrIndexed(q[a := n])
    {
    }

    lemma {:induction false} NullUnlisted(q: Ranges)
      requires AddrIndexed(q)
      ensures NULL !in q
    {
    }

    /** avlh_init () then avl_insert_back () of a size node. */
    method AddToSize(a: Addr, ghost n: int, ghost q: Ranges)
      requires SizeIndexed(q) && a !in q && a > 0 && SizeKey(size)(a) == n
      modifies sizeTree
      ensures SizeIndexed(q[a := n])
    {
      sizeTree.InitHolder(a);
      ghost var s := BySize();
      ghost var cut := sizeTree.InsertBack(a, SizeKey(size));
      InsertedMembers(s, cut, a, q, n);
    }

    /** Writes the descriptor of a range that is not in the size tree. */
    method SetSize(a: Addr, n: int, ghost q: Ranges)
      requires SizeIndexed(q) && a !in q
      modifies this`size
      ensures SizeIndexed(q) && SizeKey(size)(a) == n
    {
      SortedFrame(BySize(), size, a, n);
      size := size[a := n];
    }

    method DropFromAddr(a: Addr, ghost q: Ranges)
      requires AddrIndexed(q) && a in q
      modifies addrTree
      ensures AddrIndexed(q - {a})
    {
      ghost var i := IndexOf(ByAddr(), q, a);
      RemovedMembers(ByAddr(), i, q);
      RemoveSorted(ByAddr(), AddrKey(), i);
      addrTree.Delete(a, i);
    }

    /** avl_replace () of an address node by one whose place is the same. */
    method SwapInAddr(right: Addr, freed: Addr, ghost n: int, ghost q: Ranges)
      requires AddrIndexed(q) && freed > 0 && freed !in q && RightOf(q, freed, right) && right in q
      modifies addrTree
      ensures AddrIndexed((q - {right})[freed := n])
    {
      ghost var i := IndexOf(ByAddr(), q, right);
      ReplacedMember(ByAddr(), i, freed, q, n);
      FitsBefore(ByAddr(), q, freed, right, i);
      addrTree.Replace(right, freed, i, AddrKey());
    }

    /** avlh_init () then avl_insert () or avl_prepend () of an address node. */
    method AddToAddr(freed: Addr, left: Addr, ghost n: int, ghost q: Ranges)
      requires AddrIndexed(q) && freed > 0 && freed !in q && LeftOf(q, freed, left)
      modifies addrTree
      ensures AddrIndexed(q[freed := n])
    {
      addrTree.InitHolder(freed);
      ghost var s := ByAddr();
      ghost var cut := 0;
      NotListed(s, q, freed);
      if left != NULL {
        cut := addrTree.Insert(freed, AddrKey());
      } else {
        FirstListed(s, q, freed);
        addrTree.Prepend(freed, AddrKey());
      }
      InsertedMembers(s, cut, freed, q, n);
    }

    /** find_suitable_range () */
    method FindSuitableRange(n: int) returns (r: Addr)
      requires Valid()
      ensures r == NULL <==> NoFit(ranges, n)
      ensures r != NULL ==> Fittest(ranges, n, r)
    {
      hide Order, Coalesced;
      ghost var i;
      r, i := sizeTree.SearchNearest(n, RIGHT, SizeKey(size));
      BestFit(BySize(), size, ranges, n, r, i);
    }

    /** reserve_page_range (): the upper part of the smallest range that is large enough. */
    method ReservePageRange(n: int) returns (pg: int, ghost a: Addr)
      requires Valid() && n > 0 && n % PAGE_SIZE == 0
      modifies this, addrTree, sizeTree
      ensures Valid()
      ensures pg < 0 <==> NoFit(old(ranges), n)
      ensures pg < 0 ==> pg == -1 && ranges == old(ranges)
      ensures pg >= 0 ==> Fittest(old(ranges), n, a) && ranges == Taken(old(ranges), a, n)
      ensures pg >= 0 ==> pg == PageNr(a + old(ranges)[a] - n) && membase + pg * PAGE_SIZE == a + old(ranges)[a] - n
      ensures pg >= 0 ==> WholePages(membase + pg * PAGE_SIZE, n, membase, memlim)
      ensures pg >= 0 ==> PagesTaken(old(ranges), ranges, membase + pg * PAGE_SIZE, n)
    {
      hide SizeIndexed, AddrIndexed, Coalesced, WholePages, Order, PagesTaken, NoFit, SizeKey;
      ghost var q := ranges;
      var found := FindSuitableRange(n);
      a := found;
      if found == NULL {
        return -1, a;
      }
      TakenOne(q, found, n, membase, memlim);
      var total := SizeOf(found, q);
      DropFromSize(found, q);
      if total == n {
        DropFromAddr(found, q);
        pg := PageNr(found);
      } else {
        SetSize(found, total - n, q - {found});
        pg := PageNr(found + total - n);
        AddToSize(found, total - n, q - {found});
        ResizeInAddr(found, total - n, q);
        assert (q - {found})[found := total - n] == q[found := total - n];
      }
      PageNumbered(found + total - n, n);
      ranges := Taken(q, found, n);
    }

    lemma {:induction false} WholePool()
      requires Valid()
      ensures AllWhole(ranges, membase, memlim) && Coalesced(ranges, membase, memlim)
    {
    }

    /** Once all its pages are free, the pool is a single range, and so is each tree. */
    lemma {:induction false} WhollyFree(n: int)
      requires Valid() && WholePages(membase, n, membase, memlim) && memlim == membase + n
      requires AllFree(ranges, membase, n)
      ensures ranges == map[membase := n] && ByAddr() == [membase] && BySize() == [membase]
    {
      FullyCoalesced(ranges, membase, memlim);
      OnlyOne(ByAddr(), ranges, membase);
      OnlyOne(BySize(), ranges, membase);
    }

    /** find_left_neighbour () */
    method FindLeftNeighbour(p: Addr) returns (left: Addr)
      requires AddrIndexed(ranges)
      ensures LeftOf(ranges, p, left)
    {
      hide Order, Coalesced;
      ghost var i;
      left, i := addrTree.SearchNearest(p, LEFT, AddrKey());
      LeftFound(ByAddr(), ranges, p, left, i);
    }

    /** find_right_neighbour () */
    method FindRightNeighbour(p: Addr) returns (right: Addr)
      requires AddrIndexed(ranges) && p !in ranges
      ensures RightOf(ranges, p, right)
    {
      hide Order, Coalesced;
      ghost var i;
      right, i := addrTree.SearchNearest(p, RIGHT, AddrKey());
      RightFound(ByAddr(), ranges, p, right, i);
    }

    /** find_next_neighbour () */
    method FindNextNeighbour(left: Addr) returns (right: Addr)
      requires AddrIndexed(ranges) && left in ranges
      ensures RightOf(ranges, left, right)
    {
      hide Order, Coalesced;
      ghost var i := IndexOf(ByAddr(), ranges, left);
      right := addrTree.Inorder(left, RIGHT, i);
      NextFound(ByAddr(), ranges, left, right, i);
    }

    /** release_page_range (), first part: merge with the range that ends where the freed pages start. */
    method MergeLeft(page: Addr, n: int)
      returns (freed: Addr, addrLinked: bool, left: Addr, right: Addr, ghost q: Ranges)
      requires addrTree != sizeTree && AddrIndexed(ranges) && SizeIndexed(ranges) && page !in ranges && page > 0
      requires SizeKey(size)(page) == n
      modifies this`size, sizeTree
      ensures LeftOf(ranges, page, left) && RightOf(ranges, if addrLinked then left else page, right)
      ensures addrLinked <==> TouchesLeft(ranges, page, left)
      ensures freed == (if addrLinked then left else page) && freed > 0 && q == ranges - {freed} && SizeIndexed(q)
      ensures SizeKey(size)(freed) == if addrLinked then ranges[left] + n else n
    {
      hide SizeIndexed, AddrIndexed, Order, SizeKey, LeftOf, RightOf;
      freed, q, addrLinked := page, ranges, false;
      left := FindLeftNeighbour(freed);
      NullUnlisted(ranges);
      var leftSize := 0;
      if left != NULL {
        LeftListed(ranges, page, left);
        leftSize := SizeOf(left, ranges);
      }
      if left != NULL && left + leftSize == freed {
        DropFromSize(left, ranges);
        q := ranges - {left};
        SetSize(left, leftSize + n, q);
        freed := left;
        addrLinked := true;
        right := FindNextNeighbour(freed);
      } else {
        right := FindRightNeighbour(freed);
      }
    }

    /** release_page_range (), second part: merge with the range that starts where the freed pages end. */
    method MergeRight(freed: Addr, addrLinked: bool, left: Addr, right: Addr, ghost page: Addr, ghost n: int,
                      ghost q: Ranges)
      returns (ghost q': Ranges)
      requires addrTree != sizeTree && AddrIndexed(ranges) && SizeIndexed(q) && q == ranges - {freed}
      requires page !in ranges && page > 0
      requires LeftOf(ranges, page, left) && RightOf(ranges, page, right)
      requires addrLinked <==> TouchesLeft(ranges, page, left)
      requires freed == (if addrLinked then left else page) && freed > 0
      requires SizeKey(size)(freed) == if addrLinked then ranges[left] + n else n
      modifies this`size, sizeTree, addrTree
      ensures AddrIndexed(Joined(ranges, page, n, left, right)) && SizeIndexed(q')
      ensures freed !in q' && Joined(ranges, page, n, left, right) == q'[freed := SizeKey(size)(freed)]
    {
      hide SizeIndexed, AddrIndexed, Order, SizeKey, LeftOf, RightOf;
      NullUnlisted(ranges);
      q' := q;
      var freedSize := SizeKey(size)(freed);
      if addrLinked {
        LeftListed(ranges, page, left);
      }
      if right != NULL && freed + freedSize == right {
        RightListed(ranges, page, right);
        var rightSize := SizeOf(right, q);
        DropFromSize(right, q);
        q' := q - {right};
        SetSize(freed, freedSize + rightSize, q');
        if addrLinked {
          DropFromAddr(right, ranges);
          ResizeInAddr(freed, freedSize + rightSize, ranges - {right});
        } else {
          SwapInAddr(right, freed, freedSize + rightSize, ranges);
        }
      } else if !addrLinked {
        AddToAddr(freed, left, n, ranges);
      } else {
        ResizeInAddr(freed, freedSize, ranges);
      }
    }

    /** release_page_range (): the pages become free and are merged with the ranges they touch. */
    method ReleasePageRange(page: Addr, n: int)
      requires Valid() && WholePages(page, n, membase, memlim) && NoneFree(ranges, page, n)
      modifies this, addrTree, sizeTree
      ensures Valid()
      ensures PagesGiven(old(ranges), ranges, page, n)
    {
      hide SizeIndexed, AddrIndexed, Order, SizeKey, LeftOf, RightOf, PagesGiven, NoneFree, Coalesced, Joined;
      ghost var r := ranges;
      NotInPool(r, page, n, membase, memlim);
      SetSize(page, n, r);
      var freed, addrLinked, left, right;
      ghost var q;
      freed, addrLinked, left, right, q := MergeLeft(page, n);
      RightOfEither(r, page, n, left, right, membase, memlim);
      q := MergeRight(freed, addrLinked, left, right, page, n, q);
      AddToSize(freed, SizeKey(size)(freed), q);
      JoinedOne(r, page, n, left, right, membase, memlim);
      ranges := Joined(r, page, n, left, right);
    }

    /** avl_init () of both trees. */
    constructor (base: Addr, lim: Addr)
      requires 0 < base
      ensures Valid() && membase == base && memlim == lim && ranges == map[] && fresh(addrTree) && fresh(sizeTree)
    {
      membase, memlim := base, lim;
      sizeTree := new AvlTree();
      addrTree := new AvlTree();
      size := map[];
      ranges := map[];
    }
  }
}
