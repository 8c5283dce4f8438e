/** Tickets of include/evl/ring_ptr.h: their cell and their cycle. */
module RingMap {
  import opened Arithmetic

  /**
   * The number of cells is n == m * k, where m == 1 << EVL_RINGPTR_MINORDER cells share a cache line's stride and
   * k == 1 << (order + 1 - EVL_RINGPTR_MINORDER).
   */
  datatype Geometry = Geometry(m: nat, k: nat) {
    /** __evl_ringptr_cells () */
    function Cells(): int {
      m * k
    }

    /** At least four cells: the two low bits of an entry are not part of its cycle. */
    ghost predicate Valid() {
      m >= 4 && k > 0
    }
  }

  /** `idx & ~(n - 1)` */
  function Cycle(g: Geometry, t: int): int
    requires g.Valid()
  {
    Sized(g);
    t / g.Cells() * g.Cells()
  }

  /**
   * __evl_ringptr_map (): `(idx & (n - 1)) >> (order + 1 - MINORDER)`, which is below m, or-ed with
   * `(idx << MINORDER) & (n - 1)`, which is a multiple of m.
   */
  function Map(g: Geometry, t: int): int
    requires g.Valid()
  {
    Sized(g);
    t % g.Cells() / g.k + t * g.m % g.Cells()
  }

  lemma {:induction false} Sized(g: Geometry)
    requires g.Valid()
    ensures g.Cells() > 0 && g.Cells() >= g.m
  {
  }

  /** The digits of a residue. */
  lemma {:induction false} DigitsOf(r: int, m: int, k: int)
    requires 0 <= r < m * k && k > 0
    ensures r == r / k * k + r % k && 0 <= r / k < m && 0 <= r % k < k
  {
    var q := r / k;
    assert r == q * k + r % k;
    Times(m, q, k);
    Times(q, 0, k);
  }

  /** Writing the residue of a ticket in base k, the map swaps its two digits. */
  lemma {:induction false} MapDigits(g: Geometry, t: int)
    requires g.Valid()
    ensures var r := t % g.Cells(); Map(g, t) == r / g.k + r % g.k * g.m
    ensures 0 <= t % g.Cells() / g.k < g.m && 0 <= t % g.Cells() % g.k < g.k
  {
    Sized(g);
    var n := g.Cells();
    var c, r := t / n, t % n;
    DigitsOf(r, g.m, g.k);
    Digit(g.m, g.k, n, c, r / g.k, r % g.k, t);
    Compose(0, r % g.k, g.m, g.k);
    DivMod(t * g.m, n, c * g.m + r / g.k, r % g.k * g.m);
  }

  lemma {:induction false} Digit(m: int, k: int, n: int, c: int, q: int, d: int, t: int)
    requires n == m * k && t == c * n + (q * k + d)
    ensures t * m == (c * m + q) * n + d * m
  {
    calc {
      t * m;
      (c * n + q * k + d) * m;
      c * n * m + q * k * m + d * m;
      { assert c * n * m == c * m * n; assert q * k * m == q * n; }
      c * m * n + q * n + d * m;
      (c * m + q) * n + d * m;
    }
  }

  /** The map sends tickets to cells, two tickets to the same cell exactly when they are a multiple of n apart. */
  lemma {:induction false} MapBijection(g: Geometry, t: int, u: int)
    requires g.Valid()
    ensures 0 <= Map(g, t) < g.Cells()
    ensures Map(g, t) == Map(g, u) <==> t % g.Cells() == u % g.Cells()
  {
    MapDigits(g, t);
    MapDigits(g, u);
    var n := g.Cells();
    var q, d := t % n / g.k, t % n % g.k;
    var q', d' := u % n / g.k, u % n % g.k;
    Compose(q, d, g.m, g.k);
    if Map(g, t) == Map(g, u) {
      DivMod(d * g.m + q, g.m, d, q);
      DivMod(d' * g.m + q', g.m, d', q');
    }
  }

  lemma {:induction false} Compose(q: int, d: int, m: int, k: int)
    requires 0 <= q < m && 0 <= d < k
    ensures 0 <= q + d * m < m * k
  {
    Times(d, k - 1, m);
    assert (k - 1) * m + m == m * k;
  }

  /** Every cell is the cell of exactly one of n consecutive tickets. */
  lemma {:induction false} MapOnto(g: Geometry, start: int, cell: int) returns (t: int)
    requires g.Valid() && 0 <= cell < g.Cells()
    ensures start <= t < start + g.Cells() && Map(g, t) == cell
    ensures forall u :: start <= u < start + g.Cells() && Map(g, u) == cell ==> u == t
  {
    var n := g.Cells();
    Sized(g);
    var d, q := cell / g.m, cell % g.m;
    assert g.m * g.k == g.k * g.m;
    DigitsOf(cell, g.k, g.m);
    Compose(d, q, g.k, g.m);
    var r := q * g.k + d;
    t := start + (r - start) % n;
    Residue(start, r, n);
    MapDigits(g, t);
    DivMod(r, g.k, q, d);
    forall u | start <= u < start + n && Map(g, u) == cell ensures u == t {
      MapBijection(g, u, t);
      SameResidue(u, t, n);
    }
  }

  lemma {:induction false} Residue(start: int, r: int, n: int)
    requires n > 0 && 0 <= r < n
    ensures (start + (r - start) % n) % n == r
  {
    var c := (r - start) / n;
    assert start + (r - start) % n == -c * n + r;
    DivMod(start + (r - start) % n, n, -c, r);
  }

  lemma {:induction false} SameResidue(t: int, u: int, n: int)
    requires n > 0 && t % n == u % n && -n < t - u < n
    ensures t == u
  {
    assert t - u == (t / n - u / n) * n;
    var c := t / n - u / n;
    Times(0, c, n);
    Times(c, 0, n);
  }

  /** The cell and the cycle together tell the ticket; on one cell, tickets and cycles are in the same order. */
  lemma {:induction false} TicketOrder(g: Geometry, t: int, u: int)
    requires g.Valid() && Map(g, t) == Map(g, u)
    ensures t == u <==> Cycle(g, t) == Cycle(g, u)
    ensures t < u <==> Cycle(g, t) < Cycle(g, u)
  {
    MapBijection(g, t, u);
    var n := g.Cells();
    assert t == Cycle(g, t) + t % n && u == Cycle(g, u) + u % n;
  }

  lemma {:induction false} CycleBounds(g: Geometry, t: int)
    requires g.Valid() && t >= g.Cells()
    ensures g.Cells() <= Cycle(g, t) <= t < Cycle(g, t) + g.Cells() && g.Cells() > 0
  {
    var n := g.Cells();
    Sized(g);
    var c := t / n;
    assert t == c * n + t % n;
    Times(c, 0, n);
    Times(0, c, n);
  }
}
