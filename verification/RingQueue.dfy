/** The ring of include/evl/ring_ptr.h used by one thread at a time: a bounded FIFO. */
module RingQueue {
  import opened Arithmetic
  import opened RingMap
  import opened RingSteps

  /** `struct evl_ring_cursor`: a head seen earlier. */
  class Cursor {
    var head: int

    /** evl_init_cursor_foo () */
    constructor (g: Geometry)
      ensures head == g.Cells()
    {
      head := g.Cells();
    }
  }

  /** What each cell holds for the ticket of the window [head, head + n) that maps to it. */
  ghost predicate Window(g: Geometry, cells: seq<Cell>, head: int, q: seq<int>)
    requires g.Valid() && |cells| == g.Cells()
  {
    forall t {:trigger InWindow(g, cells, head, q, t)} ::
      head <= t < head + g.Cells() ==> InWindow(g, cells, head, q, t)
  }

  ghost predicate InWindow(g: Geometry, cells: seq<Cell>, head: int, q: seq<int>, t: int)
    requires g.Valid() && |cells| == g.Cells()
  {
    MapBijection(g, t, t);
    var p := cells[Map(g, t)];
    if head <= t < head + |q| then p == Cell(Cycle(g, t), true, false, q[t - head])
    else !p.occ && !p.unsafe && p.cycle < Cycle(g, t)
  }

  /** Writing the cell of ticket `x` leaves the rest of the window alone. */
  lemma {:induction false} OtherCells(g: Geometry, cells: seq<Cell>, head: int, q: seq<int>, head': int, q': seq<int>,
                                      x: int, p: Cell, t: int)
    requires g.Valid() && |cells| == g.Cells() && 0 <= Map(g, x) < g.Cells()
    requires InWindow(g, cells, head, q, t) && -g.Cells() < t - x < g.Cells() && t != x
    requires (head <= t < head + |q|) == (head' <= t < head' + |q'|)
    requires head <= t < head + |q| ==> q[t - head] == q'[t - head']
    ensures InWindow(g, cells[Map(g, x) := p], head', q', t)
  {
    MapBijection(g, t, x);
    Sized(g);
    if t % g.Cells() == x % g.Cells() {
      SameResidue(t, x, g.Cells());
    }
  }

  /** Appending at the tail. */
  lemma {:induction false} Pushed(g: Geometry, cells: seq<Cell>, head: int, q: seq<int>, v: int)
    requires g.Valid() && |cells| == g.Cells() && Window(g, cells, head, q) && |q| < g.Cells()
    requires 0 <= Map(g, head + |q|) < g.Cells()
    ensures var t := head + |q|; Window(g, cells[Map(g, t) := Cell(Cycle(g, t), true, false, v)], head, q + [v])
  {
    hide Map, Cycle;
    var x := head + |q|;
    var p := Cell(Cycle(g, x), true, false, v);
    var cells', q' := cells[Map(g, x) := p], q + [v];
    forall t | head <= t < head + g.Cells() ensures InWindow(g, cells', head, q', t) {
      if t != x {
        assert InWindow(g, cells, head, q, t);
        OtherCells(g, cells, head, q, head, q', x, p, t);
      }
    }
  }

  /** Moving the head past ticket `head`, whose cell is left empty with the cycle of that ticket. */
  lemma {:induction false} Passed(g: Geometry, cells: seq<Cell>, head: int, q: seq<int>, p: Cell)
    requires g.Valid() && |cells| == g.Cells() && Window(g, cells, head, q) && |q| <= g.Cells()
    requires 0 <= Map(g, head) < g.Cells() && !p.occ && !p.unsafe && p.cycle == Cycle(g, head)
    ensures Window(g, cells[Map(g, head) := p], head + 1, if q == [] then [] else q[1..])
  {
    hide Cycle;
    var q' := if q == [] then [] else q[1..];
    Around(g, head);
    hide Map;
    var cells', head' := cells[Map(g, head) := p], head + 1;
    forall t | head' <= t < head' + g.Cells() ensures InWindow(g, cells', head', q', t) {
      if t < head + g.Cells() {
        assert InWindow(g, cells, head, q, t);
        OtherCells(g, cells, head, q, head + 1, q', head, p, t);
      }
    }
  }

  /** One turn around the ring: the same cell, a later cycle. */
  lemma {:induction false} Around(g: Geometry, t: int)
    requires g.Valid()
    ensures Map(g, t + g.Cells()) == Map(g, t) && Cycle(g, t + g.Cells()) > Cycle(g, t)
  {
    Sized(g);
    var n := g.Cells();
    DivMod(t + n, n, t / n + 1, t % n);
    MapBijection(g, t + n, t);
    TicketOrder(g, t, t + n);
  }

  class Ring {
    const g: Geometry
    var head: int
    var tail: int
    var threshold: int
    const array_: array<Cell>
    /** The pointers in the ring, oldest first. */
    ghost var q: seq<int>

    ghost predicate Valid()
      reads this, array_
    {
      && g.Valid() && array_.Length == g.Cells() && g.Cells() <= head
      && |q| <= g.Cells() && tail == head + |q| && Window(g, array_[..], head, q)
      && -1 <= threshold <= 2 * g.Cells() - 1 && (q != [] ==> threshold == 2 * g.Cells() - 1)
    }

    /** __evl_ringptr_clear () of a new ring */
    constructor (geometry: Geometry)
      requires geometry.Valid()
      ensures Valid() && g == geometry && q == [] && fresh(array_)
    {
      Sized(geometry);
      var n := geometry.Cells();
      g := geometry;
      array_ := new Cell[n](i => Cell(0, false, false, 0));
      head, tail, threshold := n, n, -1;
      q := [];
      new;
      hide Map, Cycle;
      forall t | n <= t < n + n ensures InWindow(g, array_[..], n, [], t) {
        CycleBounds(g, t);
        MapBijection(g, t, t);
      }
    }

    /** __evl_ringptr_enqueue (): the cursor may be stale, but not ahead of the ring. */
    method Enqueue(v: int, cursor: Cursor) returns (ok: bool)
      requires Valid() && cursor.head <= head
      modifies this`tail, this`threshold, this`q, array_, cursor
      ensures Valid() && cursor.head <= head
      ensures ok <==> |old(q)| < g.Cells()
      ensures q == if ok then old(q) + [v] else old(q)
      ensures tail == if ok then old(tail) + 1 else old(tail)
      ensures threshold == if ok then 2 * g.Cells() - 1 else old(threshold)
      ensures cursor.head == if old(tail) >= old(cursor.head) + g.Cells() then head else old(cursor.head)
    {
      hide Map, Cycle, Window;
      var n := g.Cells();
      var t := tail;
      if t >= cursor.head + n {
        cursor.head := head;
        if t >= cursor.head + n {
          return false;
        }
      }
      t := tail;
      MapBijection(g, t, t);
      FreeCell(g, array_[..], head, q, t);
      tail := tail + 1;
      var p := array_[Map(g, t)];
      if p.cycle < Cycle(g, t) && !p.occ && (!p.unsafe || head <= t) {
        Pushed(g, array_[..], head, q, v);
        array_[Map(g, t)] := Cell(Cycle(g, t), true, false, v);
        if threshold != 2 * n - 1 {
          threshold := 2 * n - 1;
        }
        q := q + [v];
        return true;
      }
      // Alone, the first ticket always finds its cell.
      assert false;
    }

    /** __evl_ringptr_catchup () */
    method Catchup(tail0: int, head0: int)
      modifies this`tail
      ensures tail == if old(tail) == tail0 then head0 else if old(tail) >= head then old(tail) else head
    {
      var tl, hd := tail0, head0;
      while tail != tl
        invariant tail == old(tail)
        invariant (tl == tail0 && hd == head0) || (tl == tail && hd == head && tail < head && tail0 != tail)
        decreases if tail == tl then 0 else 1
      {
        hd := head;
        tl := tail;
        if tl >= hd {
          return;
        }
      }
      tail := hd;
    }

    /** __evl_ringptr_dequeue () */
    method Dequeue() returns (ok: bool, v: int)
      requires Valid()
      modifies this`head, this`tail, this`threshold, this`q, array_
      ensures Valid() && head >= old(head)
      ensures ok <==> old(q) != []
      ensures ok ==> [v] + q == old(q) && head == old(head) + 1 && tail == old(tail)
      ensures threshold == if ok || old(threshold) < 0 then old(threshold) else old(threshold) - 1
      ensures !ok ==> q == [] && (head == tail == if old(threshold) < 0 then old(head) else old(head) + 1)
    {
      hide Map, Cycle, Window;
      v := 0;
      if threshold < 0 {
        return false, v;
      }
      var h := head;
      head := head + 1;
      MapBijection(g, h, h);
      HeadCell(g, array_[..], h, q);
      var p := array_[Map(g, h)];
      if p.cycle == Cycle(g, h) {
        v := p.ptr;
        Passed(g, array_[..], h, q, p.(occ := false, ptr := 0));
        array_[Map(g, h)] := p.(occ := false, ptr := 0);
        q := q[1..];
        return true, v;
      }
      if p.cycle < Cycle(g, h) {
        Passed(g, array_[..], h, q, Refused(g, h, p));
        array_[Map(g, h)] := Refused(g, h, p);
      }
      if tail <= h + 1 {
        Catchup(tail, h + 1);
        threshold := threshold - 1;
        return false, v;
      }
      // Alone, a ticket that finds no pointer is at the tail.
      assert false;
    }
  }

  /** The cell ahead of the tail is free. */
  lemma {:induction false} FreeCell(g: Geometry, cells: seq<Cell>, head: int, q: seq<int>, t: int)
    requires g.Valid() && |cells| == g.Cells() && Window(g, cells, head, q) && t == head + |q| && |q| < g.Cells()
    requires 0 <= Map(g, t) < g.Cells()
    ensures var p := cells[Map(g, t)]; !p.occ && !p.unsafe && p.cycle < Cycle(g, t)
  {
    assert InWindow(g, cells, head, q, t);
  }

  /** The cell of the head holds the oldest pointer, if there is one. */
  lemma {:induction false} HeadCell(g: Geometry, cells: seq<Cell>, head: int, q: seq<int>)
    requires g.Valid() && |cells| == g.Cells() && Window(g, cells, head, q) && g.Cells() > 0
    requires 0 <= Map(g, head) < g.Cells()
    ensures var p := cells[Map(g, head)];
            if q == [] then !p.occ && !p.unsafe && p.cycle < Cycle(g, head)
            else p == Cell(Cycle(g, head), true, false, q[0])
  {
    assert InWindow(g, cells, head, q, head);
  }
}
