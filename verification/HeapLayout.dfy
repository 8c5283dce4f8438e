/** Where add_extent () puts the page pool in the memory it is given (lib/heap.c, include/evl/heap.h). */
module HeapLayout {
  import opened Arithmetic
  import opened FreeRanges
  import opened HeapSizes

  /** sizeof (struct evl_heap_pgentry) */
  const PGMAP_BYTES: int := 12

  /** EVL_HEAP_MAX_EXTSZ */
  const MAX_EXTENT: int := UINT32_RANGE - PAGE_SIZE

  /** sizeof (struct evl_heap_extent), with 64-bit pointers */
  const EXTENT_BYTES: int := 160

  const EINVAL: int := 22

  function Wrap(x: int): int {
    x % UINT64_RANGE
  }

  /** __align_to () EVL_HEAP_MIN_ALIGN: the mask is a 32-bit unsigned int like this constant, and clears the rest. */
  function AlignSmall(x: int): (r: int)
    ensures 0 <= r < UINT32_RANGE
  {
    AlignTo(x, MIN_ALIGN) % UINT32_RANGE
  }

  /** sizeof (struct evl_heap_extent): 160 bytes with 64-bit pointers, 88 with 32-bit ones. */
  ghost predicate ExtentBytes(e: int) {
    0 <= e <= PAGE_SIZE && e % 4 == 0
  }

  /** EVL_HEAP_RAW_SIZE (): the memory to ask for. */
  function RawSize(size: int, e: int): int {
    var s := AlignTo(size, PAGE_SIZE);
    Wrap(s + AlignSmall(e + s / PAGE_SIZE * PGMAP_BYTES))
  }

  /** The bytes that add_extent () sets aside. */
  function Overhead(size: int, e: int): int {
    AlignSmall(Wrap(size * PGMAP_BYTES + e * PAGE_SIZE) / (PAGE_SIZE + PGMAP_BYTES))
  }

  /** The return value of add_extent (): the size of the page pool, or an error. */
  function AddExtent(size: int, e: int): int {
    var userSize := Wrap(size - Overhead(size, e));
    if userSize % PAGE_SIZE != 0 then -EINVAL
    else if userSize < PAGE_SIZE || userSize > MAX_EXTENT then -EINVAL
    else userSize
  }

  lemma {:induction false} NoCarry(x: int, align: int)
    requires 0 <= x < MAX_REQUEST && 0 < align <= PAGE_SIZE
    ensures AlignTo(x, align) == (x + align - 1) / align * align
  {
    assert (x + align - 1) % UINT64_RANGE == x + align - 1;
  }

  lemma {:induction false} Multiple16(q: int)
    ensures q * 16 % 16 == 0
  {
  }

  lemma {:induction false} Multiple512(q: int)
    ensures q * 512 % 512 == 0
  {
  }

  lemma {:induction false} WrapNot(x: int)
    requires 0 <= x < UINT64_RANGE
    ensures Wrap(x) == x
  {
  }

  lemma {:induction false} AlignUp(x: int, align: int)
    requires 0 <= x < MAX_REQUEST && (align == MIN_ALIGN || align == PAGE_SIZE)
    ensures x <= AlignTo(x, align) < x + align && AlignTo(x, align) % align == 0
  {
    hide AlignTo;
    NoCarry(x, align);
    if align == MIN_ALIGN {
      Multiple16((x + 15) / 16);
    } else {
      Multiple512((x + 511) / 512);
    }
  }

  lemma {:induction false} AlignSmallUp(x: int)
    requires 0 <= x < UINT32_RANGE - MIN_ALIGN
    ensures x <= AlignSmall(x) < x + MIN_ALIGN && AlignSmall(x) % MIN_ALIGN == 0
  {
    AlignUp(x, MIN_ALIGN);
    hide AlignTo;
  }

  /** add_extent () undoes EVL_HEAP_RAW_SIZE (): what was asked for, rounded to whole pages, is what can be used. */
  lemma {:induction false} RawSizeRoundTrip(size: int, e: int)
    requires 0 < size <= MAX_EXTENT && ExtentBytes(e)
    ensures AddExtent(RawSize(size, e), e) == AlignTo(size, PAGE_SIZE)
  {
    AlignUp(size, PAGE_SIZE);
    var n := AlignTo(size, PAGE_SIZE) / PAGE_SIZE;
    assert AlignTo(size, PAGE_SIZE) == n * PAGE_SIZE && 0 < n <= MAX_EXTENT / PAGE_SIZE;
    PagesRoundTrip(n, e);
    hide AlignTo;
  }

  lemma {:induction false} PagesRoundTrip(n: int, e: int)
    requires 0 < n <= MAX_EXTENT / PAGE_SIZE && ExtentBytes(e)
    ensures var raw := Wrap(n * PAGE_SIZE + AlignSmall(e + n * PGMAP_BYTES));
            AddExtent(raw, e) == n * PAGE_SIZE
  {
    var meta := e + n * PGMAP_BYTES;
    AlignSmallUp(meta);
    var o := AlignSmall(meta);
    Exact(n, e, o - meta);
    hide AlignSmall, ExtentBytes, Wrap;
    WrapNot(n * PAGE_SIZE + o);
    WrapNot(n * PAGE_SIZE);
    Multiple512(n);
  }

  /** The padding of the page map is too small to show in the quotient. */
  lemma {:induction false} Exact(n: int, e: int, pad: int)
    requires 0 <= n <= UINT32_RANGE && ExtentBytes(e) && 0 <= pad < MIN_ALIGN
    ensures var raw := n * PAGE_SIZE + e + n * PGMAP_BYTES + pad;
            Wrap(raw * PGMAP_BYTES + e * PAGE_SIZE) / (PAGE_SIZE + PGMAP_BYTES) == e + n * PGMAP_BYTES
  {
    var raw := n * PAGE_SIZE + e + n * PGMAP_BYTES + pad;
    var x := raw * PGMAP_BYTES + e * PAGE_SIZE;
    hide Wrap;
    WrapNot(x);
    assert x == (PAGE_SIZE + PGMAP_BYTES) * (e + n * PGMAP_BYTES) + pad * PGMAP_BYTES;
  }

  /** Whatever size is accepted, the descriptor and the page map end at or below the page pool, which is aligned. */
  lemma {:induction false} MetadataFits(size: int, e: int)
    requires 0 <= size < UINT64_RANGE && ExtentBytes(e) && AddExtent(size, e) >= 0
    ensures var userSize, overhead := AddExtent(size, e), Overhead(size, e);
            && overhead + userSize == size && overhead % MIN_ALIGN == 0
            && userSize % PAGE_SIZE == 0 && PAGE_SIZE <= userSize <= MAX_EXTENT
            && e + userSize / PAGE_SIZE * PGMAP_BYTES <= overhead
  {
    hide Wrap, AlignSmall, AddExtent, Overhead;
    var x := size * PGMAP_BYTES + e * PAGE_SIZE;
    var overhead, userSize := Overhead(size, e), AddExtent(size, e);
    Accepted(size, e);
    NoWrap(size, overhead, e);
    var q := x / (PAGE_SIZE + PGMAP_BYTES);
    AlignSmallUp(q);
    Enough(size, userSize / PAGE_SIZE, overhead, q, e);
  }

  lemma {:induction false} Accepted(size: int, e: int)
    requires AddExtent(size, e) >= 0
    ensures var userSize := AddExtent(size, e);
            && userSize == Wrap(size - Overhead(size, e))
            && userSize % PAGE_SIZE == 0 && PAGE_SIZE <= userSize <= MAX_EXTENT
            && Overhead(size, e)
               == AlignSmall(Wrap(size * PGMAP_BYTES + e * PAGE_SIZE) / (PAGE_SIZE + PGMAP_BYTES))
  {
    hide Wrap, AlignSmall;
  }

  /** An accepted size is too small for anything to wrap. */
  lemma {:induction false} NoWrap(size: int, overhead: int, e: int)
    requires 0 <= size < UINT64_RANGE && ExtentBytes(e)
    requires 0 <= overhead < UINT32_RANGE && Wrap(size - overhead) <= MAX_EXTENT
    ensures size - overhead == Wrap(size - overhead)
    ensures var x := size * PGMAP_BYTES + e * PAGE_SIZE;
            Wrap(x) == x && 0 <= x / (PAGE_SIZE + PGMAP_BYTES) < UINT32_RANGE - MIN_ALIGN
  {
    assert size - overhead == if size < overhead then Wrap(size - overhead) - UINT64_RANGE else Wrap(size - overhead);
    hide Wrap;
    WrapNot(size * PGMAP_BYTES + e * PAGE_SIZE);
  }

  /** `o` is the quotient `q` rounded up: being a multiple of 4 like the metadata, it cannot fall short by less. */
  lemma {:induction false} Enough(size: int, n: int, o: int, q: int, e: int)
    requires size == o + n * PAGE_SIZE && ExtentBytes(e) && q <= o && o % MIN_ALIGN == 0 && n >= 0
    requires q == (size * PGMAP_BYTES + e * PAGE_SIZE) / (PAGE_SIZE + PGMAP_BYTES)
    ensures e + n * PGMAP_BYTES <= o
  {
    var meta := e + n * PGMAP_BYTES;
    var d := PAGE_SIZE + PGMAP_BYTES;
    var x := size * PGMAP_BYTES + e * PAGE_SIZE;
    assert x < (q + 1) * d;
    assert x == d * meta + (o - meta) * PGMAP_BYTES;
    assert meta - o <= 1;
    FourApart(e, n, o);
  }

  lemma {:induction false} FourApart(e: int, n: int, o: int)
    requires e % 4 == 0 && o % MIN_ALIGN == 0
    ensures e + n * PGMAP_BYTES - o != 1
  {
  }
}
