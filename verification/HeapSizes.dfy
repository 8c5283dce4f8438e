/** Sizes, page numbers and their widths in lib/heap.c. */
module HeapSizes {
  import opened Arithmetic
  import opened FreeRanges
  import opened PageLists
  import opened HeapState

  const MIN_ALIGN: int := 16
  /** Page numbers below this bound survive the shift of a 32-bit int. */
  const MAX_PAGES: int := 0x40_0000

  /** Up to this size the difference of two sizes has the right sign as a long. */
  const MAX_REQUEST: int := 0x8000_0000_0000_0000

  /** pagenr_to_addr () is right exactly for the first 2^22 pages, although an extent may have up to 2^23 - 1. */
  lemma {:induction false} PageShift(pg: int)
    requires 0 <= pg < UINT32_RANGE / PAGE_SIZE
    ensures Int32(pg * PAGE_SIZE) == pg * PAGE_SIZE <==> pg < MAX_PAGES
  {
  }

  /** From page 2^22 on, the address that is computed lies below the extent. */
  lemma {:induction false} BeyondTwoGiB(base: int, pg: int)
    requires MAX_PAGES <= pg < UINT32_RANGE / PAGE_SIZE
    ensures base + Int32(pg * PAGE_SIZE) < base
  {
  }

  /** compare_range_by_size () orders two sizes exactly when they are less than 2^63 apart. */
  lemma {:induction false} CompareBySize(l: int, r: int)
    requires 0 <= l < UINT64_RANGE && 0 <= r < UINT64_RANGE
    ensures var d := Int64(l - r);
            ((d < 0 <==> l < r) && (d == 0 <==> l == r)) <==> -MAX_REQUEST <= l - r < MAX_REQUEST
  {
  }

  /** __align_to () on a 64-bit size. */
  function AlignTo(size: int, align: int): int
    requires align > 0
  {
    (size + align - 1) % UINT64_RANGE / align * align
  }

  /** 63 - __lzcount () */
  function FloorLog2(n: int): (l: nat)
    requires n > 0
    ensures Pow2(l) <= n < 2 * Pow2(l)
  {
    if n == 1 then 0 else 1 + FloorLog2(n / 2)
  }

  /** Bits of `n & (n - 1)`: none are left exactly for the powers of two. */
  predicate OneBit(n: int)
    requires n > 0
  {
    n == Pow2(FloorLog2(n))
  }

  lemma {:induction false} Powers()
    ensures Pow2(4) == 16 && Pow2(5) == 32 && Pow2(6) == 64 && Pow2(7) == 128 && Pow2(8) == 256 && Pow2(9) == 512
  {
    assert Pow2(1) == 2 && Pow2(2) == 4 && Pow2(3) == 8 && Pow2(4) == 16;
    assert Pow2(5) == 32 && Pow2(6) == 64 && Pow2(7) == 128;
  }

  lemma {:induction false} PowGrows(i: nat, j: nat)
    ensures i <= j ==> Pow2(i) <= Pow2(j)
  {
    if i < j {
      PowGrows(i, j - 1);
    }
  }

  /** The logarithm tells sizes below a page from the others. */
  lemma {:induction false} LogOf(size: int, l: nat)
    requires MIN_ALIGN <= size && Pow2(l) <= size < 2 * Pow2(l)
    ensures l >= MIN_LOG2 && (l < PAGE_SHIFT <==> size < PAGE_SIZE)
    ensures l < PAGE_SHIFT ==> Pow2(l) == Size(l)
  {
    Powers();
    assert Pow2(l + 1) == 2 * Pow2(l);
    PowGrows(l + 1, MIN_LOG2);
    PowGrows(l + 1, PAGE_SHIFT);
    PowGrows(PAGE_SHIFT, l);
  }

  /** The power of two at or above a size that is less than a page. */
  lemma {:induction false} RoundUp(size: int, l: nat, k: nat)
    requires MIN_ALIGN <= size && Pow2(l) <= size < 2 * Pow2(l) && l < PAGE_SHIFT
    requires k == if size == Pow2(l) then l else l + 1
    ensures LeastBlock(size, Pow2(k))
    ensures Pow2(k) < PAGE_SIZE ==> IsLog2(k) && Pow2(k) == Size(k)
    ensures Pow2(k) >= PAGE_SIZE ==> Pow2(k) == PAGE_SIZE
  {
    LogOf(size, l);
    Powers();
    assert Pow2(l + 1) == 2 * Pow2(l);
    hide Pow2;
    assert IsLog2(k) ==> Pow2(k) == Size(k) && (k > MIN_LOG2 ==> Size(k - 1) < size);
  }

  /** `bsize` is the least block size that holds `size` bytes. */
  ghost predicate LeastBlock(size: int, bsize: int) {
    && size <= bsize
    && if size <= Size(PAGE_SHIFT - 1)
       then exists l :: IsLog2(l) && bsize == Size(l) && (l > MIN_LOG2 ==> Size(l - 1) < size)
       else bsize % PAGE_SIZE == 0 && bsize < size + PAGE_SIZE
  }

  lemma {:induction false} LeastUnique(size: int, n: int, m: int)
    requires LeastBlock(size, n) && LeastBlock(size, m)
    ensures n == m
  {
    if size <= Size(PAGE_SHIFT - 1) {
      var i :| IsLog2(i) && n == Size(i) && (i > MIN_LOG2 ==> Size(i - 1) < size);
      var j :| IsLog2(j) && m == Size(j) && (j > MIN_LOG2 ==> Size(j - 1) < size);
      assert i < j ==> Size(i) <= Size(j - 1);
      assert j < i ==> Size(j) <= Size(i - 1);
    }
  }

  /** The first clear bit of a map that is not all ones: `__tzcount (~m)`. */
  method FirstFree(m: seq<bool>) returns (b: int)
    requires !AllBusy(m)
    ensures 0 <= b < |m| && !m[b] && forall i :: 0 <= i < b ==> m[i]
  {
    b := 0;
    while m[b]
      invariant 0 <= b < |m| && forall i :: 0 <= i < b ==> m[i]
      decreases |m| - b
    {
      b := b + 1;
    }
  }

  /** The size computations of evl_alloc_block_unlocked (). */
  method BlockSize(size: int) returns (bsize: int, log2size: int)
    requires 0 < size <= MAX_REQUEST
    ensures LeastBlock(size, bsize)
    ensures bsize < PAGE_SIZE ==> IsLog2(log2size) && bsize == Size(log2size)
    ensures bsize >= PAGE_SIZE ==> bsize % PAGE_SIZE == 0 && bsize <= MAX_REQUEST
  {
    hide Pow2, LeastBlock;
    if size < MIN_ALIGN {
      bsize, log2size := MIN_ALIGN, MIN_LOG2;
      LeastFirst(size);
    } else {
      log2size := FloorLog2(size);
      ghost var l := log2size;
      LogOf(size, l);
      if log2size < PAGE_SHIFT {
        if !OneBit(size) {
          log2size := log2size + 1;
        }
        RoundUp(size, l, log2size);
        bsize := Pow2(log2size);
      } else {
        bsize := AlignTo(size, PAGE_SIZE);
        LeastPages(size);
      }
    }
  }

  lemma {:induction false} LeastFirst(size: int)
    requires 0 < size < MIN_ALIGN
    ensures LeastBlock(size, MIN_ALIGN)
  {
    assert IsLog2(4) && MIN_ALIGN == Size(4);
  }

  lemma {:induction false} LeastPages(size: int)
    requires PAGE_SIZE <= size <= MAX_REQUEST
    ensures LeastBlock(size, AlignTo(size, PAGE_SIZE))
    ensures AlignTo(size, PAGE_SIZE) % PAGE_SIZE == 0 && PAGE_SIZE <= AlignTo(size, PAGE_SIZE) <= MAX_REQUEST
  {
  }
}
