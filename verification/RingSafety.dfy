/** Exact delivery on the ring of include/evl/ring_ptr.h, in every interleaving. */
module RingSafety {
  import opened RingMap
  import opened RingSteps

  const NONE: int := -1

  /** The tail ticket a thread may still use. */
  function ProdTicket(pc: Pc): int {
    match pc
    case EnqLoad(_, _, t) => t
    case EnqHead(_, _, t, _) => t
    case EnqSwap(_, _, t, _) => t
    case _ => NONE
  }

  /** The head ticket for which a thread still has to take a pointer or give up. */
  function ConsTicket(pc: Pc): int {
    match pc
    case DeqLoad(h) => h
    case DeqTake(h) => h
    case DeqSwap(h, _) => h
    case _ => NONE
  }

  function Rank(p: Cell): int {
    if p.occ && !p.unsafe then 0 else if p.occ then 1 else 2
  }

  /** An element only ever changes to a newer one. */
  ghost predicate Newer(p: Cell, q: Cell) {
    p.cycle < q.cycle || (p.cycle == q.cycle && Rank(p) < Rank(q))
  }

  // ---------- The invariant ----------

  /** A tail ticket in use has not stored anything yet. */
  ghost predicate ProdOk(g: Geometry, s: State) {
    forall i :: 0 <= i < |s.pcs| && ProdTicket(s.pcs[i]) != NONE ==>
      g.Cells() <= ProdTicket(s.pcs[i]) < s.tail && ProdTicket(s.pcs[i]) !in s.enq
  }

  ghost predicate ProdApart(pcs: seq<Pc>) {
    forall i, j :: 0 <= i < j < |pcs| && ProdTicket(pcs[i]) == ProdTicket(pcs[j]) ==> ProdTicket(pcs[i]) == NONE
  }

  /** A head ticket in use has not been served, and has not given up. */
  ghost predicate ConsOk(g: Geometry, s: State) {
    forall i :: 0 <= i < |s.pcs| && ConsTicket(s.pcs[i]) != NONE ==>
      g.Cells() <= ConsTicket(s.pcs[i]) < s.head && ConsTicket(s.pcs[i]) !in s.deq && ConsTicket(s.pcs[i]) !in s.given
  }

  ghost predicate ConsApart(pcs: seq<Pc>) {
    forall i, j :: 0 <= i < j < |pcs| && ConsTicket(pcs[i]) == ConsTicket(pcs[j]) ==> ConsTicket(pcs[i]) == NONE
  }

  /** Tickets are handed out once, and not used before. */
  ghost predicate Tickets(g: Geometry, s: State) {
    && g.Cells() <= s.head && g.Cells() <= s.tail
    && ProdOk(g, s) && ProdApart(s.pcs) && ConsOk(g, s) && ConsApart(s.pcs)
  }

  lemma {:induction false} ProdSet(pcs: seq<Pc>, i: nat, pc: Pc)
    requires i < |pcs| && ProdApart(pcs)
    requires ProdTicket(pc) == NONE || ProdTicket(pc) == ProdTicket(pcs[i])
          || forall j :: 0 <= j < |pcs| ==> ProdTicket(pcs[j]) != ProdTicket(pc)
    ensures ProdApart(pcs[i := pc])
  {
  }

  lemma {:induction false} ConsSet(pcs: seq<Pc>, i: nat, pc: Pc)
    requires i < |pcs| && ConsApart(pcs)
    requires ConsTicket(pc) == NONE || ConsTicket(pc) == ConsTicket(pcs[i])
          || forall j :: 0 <= j < |pcs| ==> ConsTicket(pcs[j]) != ConsTicket(pc)
    ensures ConsApart(pcs[i := pc])
  {
  }

  ghost predicate Held(s: State, h: int) {
    exists i :: 0 <= i < |s.pcs| && ConsTicket(s.pcs[i]) == h
  }

  /** What was delivered is what was stored, and no consumer gave up on what was stored. */
  ghost predicate History(g: Geometry, s: State) {
    && (forall t :: t in s.enq ==> g.Cells() <= t < s.tail && t !in s.given)
    && (forall h :: h in s.deq ==> h in s.enq && s.deq[h] == s.enq[h] && g.Cells() <= h < s.head && h !in s.given)
    && (forall h :: h in s.given ==> g.Cells() <= h < s.head)
  }

  /** Every head ticket has been served, has given up, or is in the hands of a thread. */
  ghost predicate Accounted(g: Geometry, s: State) {
    forall h :: g.Cells() <= h < s.head ==> h in s.deq || h in s.given || Held(s, h)
  }

  ghost predicate CellOk(g: Geometry, s: State, j: int)
    requires Shaped(g, s) && 0 <= j < g.Cells()
  {
    var p, l := s.cells[j], s.last[j];
    if l == 0 then p.cycle == 0 && !p.occ
    else
      && l >= g.Cells() && Map(g, l) == j && p.cycle == Cycle(g, l)
      && if p.occ then l in s.enq && l !in s.deq && s.enq[l] == p.ptr else l in s.deq || l in s.given
  }

  ghost predicate CellsOk(g: Geometry, s: State)
    requires Shaped(g, s)
  {
    forall j {:trigger CellOk(g, s, j)} :: 0 <= j < g.Cells() ==> CellOk(g, s, j)
  }

  /** The cell of ticket `t` holds its pointer. */
  ghost predicate Holds(g: Geometry, s: State, t: int)
    requires Shaped(g, s)
  {
    MapBijection(g, t, t);
    CellAt(g, s, t).occ && s.last[Map(g, t)] == t
  }

  ghost predicate Stored(g: Geometry, s: State)
    requires Shaped(g, s)
  {
    forall t :: t in s.enq && t !in s.deq ==> Holds(g, s, t)
  }

  /** No producer can use the cell of ticket `h` for that ticket any more. */
  ghost predicate Marked(g: Geometry, s: State, h: int)
    requires Shaped(g, s)
  {
    CellAt(g, s, h).cycle >= Cycle(g, h) || CellAt(g, s, h).unsafe
  }

  ghost predicate Marks(g: Geometry, s: State)
    requires Shaped(g, s)
  {
    forall h :: h in s.given ==> Marked(g, s, h)
  }

  /** No consumer of this or a later ticket of the same cell has given up. */
  ghost predicate Ahead(g: Geometry, s: State, t: int)
    requires g.Valid()
  {
    forall h :: h in s.given && Map(g, h) == Map(g, t) ==> h < t
  }

  ghost predicate Seen(g: Geometry, s: State, t: int, p: Cell)
    requires Shaped(g, s)
  {
    (p == CellAt(g, s, t) || Newer(p, CellAt(g, s, t))) && p.cycle < Cycle(g, t) && !p.occ
  }

  ghost predicate PcOk(g: Geometry, s: State, pc: Pc)
    requires Shaped(g, s)
  {
    match pc
    case EnqHead(_, _, t, p) => Seen(g, s, t, p)
    case EnqSwap(_, _, t, p) => Seen(g, s, t, p) && (p.unsafe && p == CellAt(g, s, t) ==> Ahead(g, s, t))
    case DeqTake(h) => h in s.enq
    case DeqSwap(h, p) => p.cycle < Cycle(g, h) && !(p.occ && p.unsafe)
    case CatchSwap(tl, hd) => tl <= hd
    case _ => true
  }

  ghost predicate Threads(g: Geometry, s: State)
    requires Shaped(g, s)
  {
    forall i :: 0 <= i < |s.pcs| ==> PcOk(g, s, s.pcs[i])
  }

  ghost predicate Inv(g: Geometry, s: State) {
    && Shaped(g, s) && Tickets(g, s) && History(g, s) && Accounted(g, s)
    && CellsOk(g, s) && Stored(g, s) && Marks(g, s) && Threads(g, s)
  }

  lemma {:induction false} InitInv(g: Geometry, threads: nat)
    requires g.Valid()
    ensures Inv(g, Init(g, threads))
  {
  }

  // ---------- Steps that only move the thread ----------

  /** The thread keeps its head ticket, and its tail ticket or drops it. */
  ghost predicate KeepsTickets(was: Pc, pc: Pc) {
    ConsTicket(pc) == ConsTicket(was) && (ProdTicket(pc) == ProdTicket(was) || ProdTicket(pc) == NONE)
  }

  /** The same shared state, but for the threshold. */
  ghost predicate SameShared(s: State, s': State, i: nat, pc: Pc)
    requires i < |s.pcs|
  {
    s' == Moved(s, i, pc).(threshold := s'.threshold)
  }

  lemma {:induction false} MoveTickets(g: Geometry, s: State, s': State, i: nat, pc: Pc)
    requires i < |s.pcs| && SameShared(s, s', i, pc) && KeepsTickets(s.pcs[i], pc)
    requires Tickets(g, s) && Accounted(g, s)
    ensures Tickets(g, s') && Accounted(g, s')
  {
    ProdSet(s.pcs, i, pc);
    ConsSet(s.pcs, i, pc);
    hide ProdApart, ConsApart;
    forall h | g.Cells() <= h < s.head && Held(s, h) ensures Held(s', h) {
      var j :| 0 <= j < |s.pcs| && ConsTicket(s.pcs[j]) == h;
      assert ConsTicket(s'.pcs[j]) == h;
    }
  }

  lemma {:induction false} MoveCells(g: Geometry, s: State, s': State, i: nat, pc: Pc)
    requires i < |s.pcs| && SameShared(s, s', i, pc) && Shaped(g, s) && CellsOk(g, s) && Stored(g, s) && Marks(g, s)
    ensures Shaped(g, s') && CellsOk(g, s') && Stored(g, s') && Marks(g, s')
  {
    forall j | 0 <= j < g.Cells() ensures CellOk(g, s', j) {
      assert CellOk(g, s, j);
    }
    forall t | t in s.enq && t !in s.deq ensures Holds(g, s', t) {
      assert Holds(g, s, t);
    }
    forall h | h in s.given ensures Marked(g, s', h) {
      assert Marked(g, s, h);
    }
  }

  lemma {:induction false} MoveThreads(g: Geometry, s: State, s': State, i: nat, pc: Pc)
    requires i < |s.pcs| && SameShared(s, s', i, pc) && Shaped(g, s) && Threads(g, s) && PcOk(g, s, pc)
    ensures Threads(g, s')
  {
    forall k | 0 <= k < |s.pcs| ensures PcOk(g, s', s'.pcs[k]) {
      var q := if k == i then pc else s.pcs[k];
      assert PcOk(g, s, q);
      SamePcOk(g, s, s', q);
    }
  }

  /** What a thread relies on depends on the head, the cells, the stored pointers and the refusals. */
  lemma {:induction false} SamePcOk(g: Geometry, s: State, s': State, pc: Pc)
    requires Shaped(g, s) && Shaped(g, s') && PcOk(g, s, pc)
    requires s'.cells == s.cells && s'.given == s.given && s'.head >= s.head && (forall t :: t in s.enq ==> t in s'.enq)
    ensures PcOk(g, s', pc)
  {
  }

  lemma {:induction false} MoveStep(g: Geometry, s: State, s': State, i: nat, pc: Pc)
    requires Shaped(g, s) && Inv(g, s) && i < |s.pcs| && SameShared(s, s', i, pc) && KeepsTickets(s.pcs[i], pc)
    requires PcOk(g, s, pc)
    ensures Inv(g, s')
  {
    hide Tickets, Accounted, CellsOk, Stored, Marks, Threads, PcOk, KeepsTickets;
    MoveTickets(g, s, s', i, pc);
    MoveCells(g, s, s', i, pc);
    MoveThreads(g, s, s', i, pc);
  }

  // ---------- Tickets ----------

  lemma {:induction false} TailStep(g: Geometry, s: State, s': State, i: nat, v: int, c: int)
    requires Inv(g, s) && i < |s.pcs| && s.pcs[i] == EnqTicket(v, c)
    requires s' == Moved(s, i, EnqLoad(v, c, s.tail)).(tail := s.tail + 1)
    ensures Inv(g, s')
  {
    hide CellsOk, Stored, Marks, Threads;
    SharedKept(g, s, s', i, EnqLoad(v, c, s.tail));
    ProdSet(s.pcs, i, EnqLoad(v, c, s.tail));
    ConsSet(s.pcs, i, EnqLoad(v, c, s.tail));
    hide ProdApart, ConsApart;
    HeldKept(g, s, s', i);
  }

  lemma {:induction false} HeadStep(g: Geometry, s: State, s': State, i: nat)
    requires Inv(g, s) && i < |s.pcs| && s.pcs[i] == DeqTicket
    requires s' == Moved(s, i, DeqLoad(s.head)).(head := s.head + 1)
    ensures Inv(g, s')
  {
    hide CellsOk, Stored, Marks, Threads;
    SharedKept(g, s, s', i, DeqLoad(s.head));
    ProdSet(s.pcs, i, DeqLoad(s.head));
    ConsSet(s.pcs, i, DeqLoad(s.head));
    hide ProdApart, ConsApart;
    assert ConsTicket(s'.pcs[i]) == s.head;
    HeldKept(g, s, s', i);
  }

  lemma {:induction false} CatchStep(g: Geometry, s: State, s': State, i: nat, tl: nat, hd: nat)
    requires Inv(g, s) && i < |s.pcs| && s.pcs[i] == CatchSwap(tl, hd) && s.tail == tl
    requires s' == Moved(s, i, DeqLast).(tail := hd)
    ensures Inv(g, s')
  {
    assert PcOk(g, s, s.pcs[i]);
    hide CellsOk, Stored, Marks, Threads;
    SharedKept(g, s, s', i, DeqLast);
    ProdSet(s.pcs, i, DeqLast);
    ConsSet(s.pcs, i, DeqLast);
    hide ProdApart, ConsApart;
    HeldKept(g, s, s', i);
  }

  /** The cells and the history are the same, and the counters have not gone down. */
  ghost predicate SameCells(s: State, s': State) {
    && s'.cells == s.cells && s'.last == s.last && s'.enq == s.enq && s'.deq == s.deq && s'.given == s.given
    && s'.head >= s.head && s'.tail >= s.tail
  }

  lemma {:induction false} SharedKept(g: Geometry, s: State, s': State, i: nat, pc: Pc)
    requires Inv(g, s) && i < |s.pcs| && s'.pcs == s.pcs[i := pc] && SameCells(s, s') && PcOk(g, s', pc)
    ensures Shaped(g, s') && CellsOk(g, s') && Stored(g, s') && Marks(g, s') && Threads(g, s')
  {
    hide Tickets, History, Accounted;
    forall j | 0 <= j < g.Cells() ensures CellOk(g, s', j) {
      assert CellOk(g, s, j);
    }
    forall t | t in s.enq && t !in s.deq ensures Holds(g, s', t) {
      assert Holds(g, s, t);
    }
    forall h | h in s.given ensures Marked(g, s', h) {
      assert Marked(g, s, h);
    }
    forall k | 0 <= k < |s.pcs| ensures PcOk(g, s', s'.pcs[k]) {
      if k != i {
        SamePcOk(g, s, s', s.pcs[k]);
      }
    }
  }

  /** The threads other than `i` hold the same head tickets. */
  lemma {:induction false} HeldKept(g: Geometry, s: State, s': State, i: nat)
    requires i < |s.pcs| && |s'.pcs| == |s.pcs| && forall j :: 0 <= j < |s.pcs| && j != i ==> s'.pcs[j] == s.pcs[j]
    ensures forall h :: Held(s, h) && h != ConsTicket(s.pcs[i]) ==> Held(s', h)
  {
    forall h | Held(s, h) && h != ConsTicket(s.pcs[i]) ensures Held(s', h) {
      var j :| 0 <= j < |s.pcs| && ConsTicket(s.pcs[j]) == h;
      assert ConsTicket(s'.pcs[j]) == h;
    }
  }

  // ---------- Giving up ----------

  /** A consumer gives up when it sees a later cycle, or an older pointer that is already marked unsafe. */
  lemma {:induction false} GiveStep(g: Geometry, s: State, s': State, i: nat, h: nat)
    requires Shaped(g, s) && Inv(g, s) && i < |s.pcs| && ConsTicket(s.pcs[i]) == h != NONE
    requires var p := CellAt(g, s, h); p.cycle > Cycle(g, h) || (p.occ && p.unsafe && p.cycle < Cycle(g, h))
    requires s' == Moved(s.(given := s.given + {h}), i, DeqTail(h))
    ensures Inv(g, s') && h !in s.enq
  {
    NotStored(g, s, h);
    GiveTickets(g, s, s', i, h);
    GiveCells(g, s, s', i, h);
  }

  /** The pointer of ticket `h` would be in its cell, with its cycle. */
  lemma {:induction false} NotStored(g: Geometry, s: State, h: int)
    requires Shaped(g, s) && CellsOk(g, s) && Stored(g, s) && h !in s.deq && CellAt(g, s, h).cycle != Cycle(g, h)
    requires forall t :: t in s.enq ==> t > 0
    ensures h !in s.enq
  {
    MapBijection(g, h, h);
    assert CellOk(g, s, Map(g, h));
  }

  lemma {:induction false} GiveTickets(g: Geometry, s: State, s': State, i: nat, h: nat)
    requires i < |s.pcs| && ConsTicket(s.pcs[i]) == h != NONE && h !in s.enq
    requires Tickets(g, s) && History(g, s) && Accounted(g, s)
    requires s' == Moved(s.(given := s.given + {h}), i, DeqTail(h))
    ensures Tickets(g, s') && History(g, s') && Accounted(g, s')
  {
    ProdSet(s.pcs, i, DeqTail(h));
    ConsSet(s.pcs, i, DeqTail(h));
    ConsAlone(s.pcs, i);
    hide ProdApart, ConsApart;
    HeldKept(g, s, s', i);
  }

  lemma {:induction false} ConsAlone(pcs: seq<Pc>, i: nat)
    requires i < |pcs| && ConsApart(pcs) && ConsTicket(pcs[i]) != NONE
    ensures forall j :: 0 <= j < |pcs| && j != i ==> ConsTicket(pcs[j]) != ConsTicket(pcs[i])
  {
  }

  lemma {:induction false} ProdAlone(pcs: seq<Pc>, i: nat)
    requires i < |pcs| && ProdApart(pcs) && ProdTicket(pcs[i]) != NONE
    ensures forall j :: 0 <= j < |pcs| && j != i ==> ProdTicket(pcs[j]) != ProdTicket(pcs[i])
  {
  }

  lemma {:induction false} GiveCells(g: Geometry, s: State, s': State, i: nat, h: nat)
    requires i < |s.pcs| && Shaped(g, s) && CellsOk(g, s) && Stored(g, s) && Marks(g, s) && Threads(g, s)
    requires Marked(g, s, h) && (CellAt(g, s, h).occ || CellAt(g, s, h).cycle > Cycle(g, h))
    requires s' == Moved(s.(given := s.given + {h}), i, DeqTail(h))
    ensures Shaped(g, s') && CellsOk(g, s') && Stored(g, s') && Marks(g, s') && Threads(g, s')
  {
    forall j | 0 <= j < g.Cells() ensures CellOk(g, s', j) {
      assert CellOk(g, s, j);
    }
    forall t | t in s.enq && t !in s.deq ensures Holds(g, s', t) {
      assert Holds(g, s, t);
    }
    forall x | x in s'.given ensures Marked(g, s', x) {
      assert Marked(g, s, x);
    }
    forall k | 0 <= k < |s.pcs| ensures PcOk(g, s', s'.pcs[k]) {
      if k != i {
        assert PcOk(g, s, s.pcs[k]);
        GivePcOk(g, s, s', s.pcs[k], h);
      }
    }
  }

  /** A producer that may overwrite an unsafe element sees no occupied element and no later cycle. */
  lemma {:induction false} GivePcOk(g: Geometry, s: State, s': State, pc: Pc, h: int)
    requires Shaped(g, s) && Shaped(g, s') && PcOk(g, s, pc)
    requires CellAt(g, s, h).occ || CellAt(g, s, h).cycle > Cycle(g, h)
    requires s'.cells == s.cells && s'.given == s.given + {h} && s'.head == s.head && s'.enq == s.enq
    ensures PcOk(g, s', pc)
  {
    if pc.EnqSwap? && Map(g, h) == Map(g, pc.t) {
      TicketOrder(g, h, pc.t);
    }
  }

  // ---------- Writing a cell ----------

  /** The cell of ticket `x` has changed to a newer element; other cells are the same. */
  ghost predicate CellWritten(g: Geometry, s: State, s': State, x: int)
    requires Shaped(g, s) && Shaped(g, s')
  {
    MapBijection(g, x, x);
    && (forall j :: 0 <= j < g.Cells() && j != Map(g, x) ==> s'.cells[j] == s.cells[j] && s'.last[j] == s.last[j])
    && Newer(CellAt(g, s, x), CellAt(g, s', x))
    && (forall t :: t in s.enq ==> t in s'.enq && s'.enq[t] == s.enq[t])
    && (forall t :: t in s.deq ==> t in s'.deq) && (forall h :: h in s.given ==> h in s'.given)
    && (forall h :: h in s'.given && h !in s.given ==> h == x)
    && s'.head == s.head && s'.tail == s.tail
  }

  lemma {:induction false} WrittenPcOk(g: Geometry, s: State, s': State, pc: Pc, x: int)
    requires Shaped(g, s) && Shaped(g, s') && CellWritten(g, s, s', x) && PcOk(g, s, pc)
    ensures PcOk(g, s', pc)
  {
    if pc.EnqHead? || pc.EnqSwap? {
      MapBijection(g, pc.t, x);
    }
  }

  lemma {:induction false} WrittenThreads(g: Geometry, s: State, s': State, i: nat, x: int)
    requires Shaped(g, s) && Shaped(g, s') && CellWritten(g, s, s', x) && Threads(g, s) && i < |s.pcs| == |s'.pcs|
    requires (forall k :: 0 <= k < |s.pcs| && k != i ==> s'.pcs[k] == s.pcs[k]) && PcOk(g, s', s'.pcs[i])
    ensures Threads(g, s')
  {
    hide PcOk, CellWritten;
    forall k | 0 <= k < |s.pcs| && k != i ensures PcOk(g, s', s'.pcs[k]) {
      WrittenPcOk(g, s, s', s.pcs[k], x);
    }
  }

  /** The other cells still satisfy the invariant when what was recorded for their tickets has not changed. */
  lemma {:induction false} WrittenCells(g: Geometry, s: State, s': State, x: int, j: int)
    requires Shaped(g, s) && Shaped(g, s') && CellWritten(g, s, s', x) && CellsOk(g, s)
    requires forall t :: t in s'.deq && t !in s.deq ==> t == x
    requires j == Map(g, x) && 0 <= j < g.Cells() && CellOk(g, s', j)
    ensures CellsOk(g, s')
  {
    hide Map, Cycle;
    forall k | 0 <= k < g.Cells() ensures CellOk(g, s', k) {
      assert CellOk(g, s, k);
    }
  }

  /** Pointers stored in other cells are still there. */
  lemma {:induction false} WrittenStored(g: Geometry, s: State, s': State, x: int)
    requires Shaped(g, s) && Shaped(g, s') && CellWritten(g, s, s', x) && Stored(g, s)
    requires forall t :: t in s'.enq && t !in s'.deq && (t !in s.enq || Map(g, t) == Map(g, x)) ==> Holds(g, s', t)
    ensures Stored(g, s')
  {
    forall t | t in s'.enq && t !in s'.deq ensures Holds(g, s', t) {
      if t in s.enq && Map(g, t) != Map(g, x) {
        MapBijection(g, t, x);
        assert Holds(g, s, t);
      }
    }
  }

  lemma {:induction false} WrittenMarks(g: Geometry, s: State, s': State, x: int)
    requires Shaped(g, s) && Shaped(g, s') && CellWritten(g, s, s', x) && Marks(g, s)
    requires forall h :: h in s'.given && Map(g, h) == Map(g, x) ==> Marked(g, s', h)
    ensures Marks(g, s')
  {
    forall h | h in s'.given ensures Marked(g, s', h) {
      if Map(g, h) != Map(g, x) {
        MapBijection(g, h, x);
        assert Marked(g, s, h);
      }
    }
  }

  // ---------- A producer wins its cell ----------

  /** No consumer of this or a later ticket has given up on the element that the producer replaces. */
  lemma {:induction false} WonAhead(g: Geometry, s: State, t: int, p: Cell)
    requires Shaped(g, s) && Marks(g, s) && Seen(g, s, t, p) && CellAt(g, s, t) == p && (p.unsafe ==> Ahead(g, s, t))
    ensures Ahead(g, s, t) && t !in s.given
  {
    forall h | h in s.given && Map(g, h) == Map(g, t) ensures h < t {
      TicketOrder(g, h, t);
      assert Marked(g, s, h);
    }
  }

  lemma {:induction false} WonCells(g: Geometry, s: State, s': State, i: nat, t: int, v: int, p: Cell)
    requires Shaped(g, s) && CellsOk(g, s) && Stored(g, s) && Marks(g, s) && Threads(g, s) && i < |s.pcs|
    requires Seen(g, s, t, p) && CellAt(g, s, t) == p && Ahead(g, s, t) && t !in s.enq && t !in s.deq && t >= g.Cells()
    requires s' == Moved(Won(g, s, t, v), i, EnqThreshold)
    ensures Shaped(g, s') && CellsOk(g, s') && Stored(g, s') && Marks(g, s') && Threads(g, s')
  {
    MapBijection(g, t, t);
    Sized(g);
    var j := Map(g, t);
    assert s'.cells[j] == Cell(Cycle(g, t), true, false, v) && s'.last[j] == t;
    assert CellWritten(g, s, s', t);
    WrittenThreads(g, s, s', i, t);
    WrittenCells(g, s, s', t, j);
    forall u | u in s.enq && u !in s.deq ensures Map(g, u) != j {
      assert Holds(g, s, u);
    }
    WrittenStored(g, s, s', t);
    forall h | h in s'.given && Map(g, h) == j ensures Marked(g, s', h) {
      TicketOrder(g, h, t);
    }
    WrittenMarks(g, s, s', t);
  }

  lemma {:induction false} WonTickets(g: Geometry, s: State, s': State, i: nat, t: int, v: int)
    requires Shaped(g, s) && Tickets(g, s) && History(g, s) && Accounted(g, s)
    requires i < |s.pcs| && ProdTicket(s.pcs[i]) == t != NONE && ConsTicket(s.pcs[i]) == NONE && t !in s.given
    requires s' == Moved(Won(g, s, t, v), i, EnqThreshold)
    ensures Tickets(g, s') && History(g, s') && Accounted(g, s')
  {
    hide Map, Cycle;
    ProdSet(s.pcs, i, EnqThreshold);
    ConsSet(s.pcs, i, EnqThreshold);
    ProdAlone(s.pcs, i);
    hide ProdApart, ConsApart;
    HeldKept(g, s, s', i);
  }

  lemma {:induction false} WonStep(g: Geometry, s: State, s': State, i: nat, v: int, c: int, t: nat, p: Cell)
    requires Inv(g, s) && i < |s.pcs| && s.pcs[i] == EnqSwap(v, c, t, p) && CellAt(g, s, t) == p
    requires s' == Moved(Won(g, s, t, v), i, EnqThreshold)
    ensures Inv(g, s') && t !in s.given && t !in s.enq
  {
    hide CellsOk, Stored, Marks, Won, Ahead, Seen, Accounted, Map, Cycle;
    ProdFacts(g, s, i);
    hide Tickets, History, Threads;
    WonAhead(g, s, t, p);
    WonCells(g, s, s', i, t, v, p);
    WonTickets(g, s, s', i, t, v);
  }

  lemma {:induction false} ProdFacts(g: Geometry, s: State, i: nat)
    requires Shaped(g, s) && Tickets(g, s) && History(g, s) && Threads(g, s) && i < |s.pcs|
    requires ProdTicket(s.pcs[i]) != NONE
    ensures var t := ProdTicket(s.pcs[i]); g.Cells() <= t && t !in s.enq && t !in s.deq && PcOk(g, s, s.pcs[i])
  {
    hide PcOk;
  }

  lemma {:induction false} ConsFacts(g: Geometry, s: State, i: nat)
    requires Shaped(g, s) && Tickets(g, s) && History(g, s) && Threads(g, s) && i < |s.pcs|
    requires ConsTicket(s.pcs[i]) != NONE
    ensures var h := ConsTicket(s.pcs[i]);
            g.Cells() <= h < s.head && h !in s.deq && h !in s.given && PcOk(g, s, s.pcs[i])
    ensures forall t :: t in s.enq ==> t >= g.Cells()
  {
    hide PcOk;
  }

  // ---------- A consumer takes its pointer ----------

  /** The cell of a stored ticket that has not been served holds what was stored for it. */
  lemma {:induction false} StoredHere(g: Geometry, s: State, h: int)
    requires Shaped(g, s) && CellsOk(g, s) && Stored(g, s) && h in s.enq && h !in s.deq && h > 0
    ensures var p := CellAt(g, s, h); p.occ && p.cycle == Cycle(g, h) && p.ptr == s.enq[h]
    ensures 0 <= Map(g, h) < g.Cells() && s.last[Map(g, h)] == h
  {
    MapBijection(g, h, h);
    assert Holds(g, s, h);
    assert CellOk(g, s, Map(g, h));
  }

  lemma {:induction false} TakenCells(g: Geometry, s: State, s': State, i: nat, h: nat)
    requires Shaped(g, s) && CellsOk(g, s) && Stored(g, s) && Marks(g, s) && Threads(g, s) && i < |s.pcs|
    requires h in s.enq && h !in s.deq && h >= g.Cells()
    requires s' == Moved(TakenOut(g, s, h), i, DeqDone(true, CellAt(g, s, h).ptr))
    ensures Shaped(g, s') && CellsOk(g, s') && Stored(g, s') && Marks(g, s') && Threads(g, s')
  {
    Sized(g);
    StoredHere(g, s, h);
    var j, p := Map(g, h), CellAt(g, s, h);
    assert s'.cells[j] == p.(occ := false, ptr := 0) && s'.last[j] == h;
    assert CellWritten(g, s, s', h);
    WrittenThreads(g, s, s', i, h);
    WrittenCells(g, s, s', h, j);
    forall u | u in s'.enq && u !in s'.deq ensures Map(g, u) != j {
      assert Holds(g, s, u);
    }
    WrittenStored(g, s, s', h);
    forall x | x in s'.given && Map(g, x) == j ensures Marked(g, s', x) {
      assert Marked(g, s, x);
    }
    WrittenMarks(g, s, s', h);
  }

  lemma {:induction false} TakenTickets(g: Geometry, s: State, s': State, i: nat, h: nat)
    requires Shaped(g, s) && Tickets(g, s) && History(g, s) && Accounted(g, s)
    requires i < |s.pcs| && s.pcs[i] == DeqTake(h) && h in s.enq && CellAt(g, s, h).ptr == s.enq[h]
    requires s' == Moved(TakenOut(g, s, h), i, DeqDone(true, CellAt(g, s, h).ptr))
    ensures Tickets(g, s') && History(g, s') && Accounted(g, s')
  {
    hide Map, Cycle;
    ProdSet(s.pcs, i, DeqDone(true, CellAt(g, s, h).ptr));
    ConsSet(s.pcs, i, DeqDone(true, CellAt(g, s, h).ptr));
    ConsAlone(s.pcs, i);
    hide ProdApart, ConsApart;
    HeldKept(g, s, s', i);
  }

  lemma {:induction false} TakenStep(g: Geometry, s: State, s': State, i: nat, h: nat)
    requires Inv(g, s) && i < |s.pcs| && s.pcs[i] == DeqTake(h)
    requires s' == Moved(TakenOut(g, s, h), i, DeqDone(true, CellAt(g, s, h).ptr))
    ensures Inv(g, s')
    ensures CellAt(g, s, h).occ && h in s.enq && h !in s.deq && s'.deq == s.deq[h := s.enq[h]]
  {
    hide CellsOk, Stored, Marks, Accounted, Map, Cycle;
    ConsFacts(g, s, i);
    Sized(g);
    hide Tickets, History, Threads;
    StoredHere(g, s, h);
    TakenCells(g, s, s', i, h);
    TakenTickets(g, s, s', i, h);
  }

  // ---------- A consumer refuses its cell ----------

  lemma {:induction false} RefusedCells(g: Geometry, s: State, s': State, i: nat, h: nat)
    requires Shaped(g, s) && CellsOk(g, s) && Stored(g, s) && Marks(g, s) && Threads(g, s) && i < |s.pcs|
    requires h >= g.Cells() && h !in s.enq
    requires var p := CellAt(g, s, h); p.cycle < Cycle(g, h) && !(p.occ && p.unsafe)
    requires s' == Moved(RefusedIn(g, s, h), i, DeqTail(h))
    ensures Shaped(g, s') && CellsOk(g, s') && Stored(g, s') && Marks(g, s') && Threads(g, s')
  {
    MapBijection(g, h, h);
    Sized(g);
    var j, p := Map(g, h), CellAt(g, s, h);
    assert CellOk(g, s, j);
    assert s'.cells[j] == Refused(g, h, p) && s'.last[j] == if p.occ then s.last[j] else h;
    assert CellWritten(g, s, s', h);
    WrittenThreads(g, s, s', i, h);
    WrittenCells(g, s, s', h, j);
    forall u | u in s'.enq && u !in s'.deq && Map(g, u) == j ensures Holds(g, s', u) {
      assert Holds(g, s, u);
    }
    WrittenStored(g, s, s', h);
    forall x | x in s'.given && Map(g, x) == j ensures Marked(g, s', x) {
      if x != h {
        assert Marked(g, s, x);
      }
    }
    WrittenMarks(g, s, s', h);
  }

  lemma {:induction false} RefusedTickets(g: Geometry, s: State, s': State, i: nat, h: nat)
    requires Shaped(g, s) && Tickets(g, s) && History(g, s) && Accounted(g, s)
    requires i < |s.pcs| && ConsTicket(s.pcs[i]) == h && ProdTicket(s.pcs[i]) == NONE && h !in s.enq
    requires s' == Moved(RefusedIn(g, s, h), i, DeqTail(h))
    ensures Tickets(g, s') && History(g, s') && Accounted(g, s')
  {
    hide Map, Cycle, CellAt;
    ProdSet(s.pcs, i, DeqTail(h));
    ConsSet(s.pcs, i, DeqTail(h));
    ConsAlone(s.pcs, i);
    hide ProdApart, ConsApart;
    HeldKept(g, s, s', i);
  }

  lemma {:induction false} RefusedStep(g: Geometry, s: State, s': State, i: nat, h: nat, p: Cell)
    requires Inv(g, s) && i < |s.pcs| && s.pcs[i] == DeqSwap(h, p) && SameEntry(CellAt(g, s, h), p)
    requires s' == Moved(RefusedIn(g, s, h), i, DeqTail(h))
    ensures Inv(g, s') && h !in s.enq
  {
    hide CellsOk, Stored, Marks, Accounted, Map, Cycle, RefusedIn;
    ConsFacts(g, s, i);
    Sized(g);
    hide Tickets, History, Threads;
    NotStored(g, s, h);
    RefusedCells(g, s, s', i, h);
    RefusedTickets(g, s, s', i, h);
  }

  // ---------- Any step ----------

  /** A consumer that finds the cycle of its ticket finds the pointer stored for it. */
  lemma {:induction false} CycleSeen(g: Geometry, s: State, i: nat, h: nat)
    requires Shaped(g, s) && Inv(g, s) && i < |s.pcs| && ConsTicket(s.pcs[i]) == h
    requires CellAt(g, s, h).cycle == Cycle(g, h)
    ensures CellAt(g, s, h).occ && h in s.enq
  {
    hide Stored, Marks, Accounted;
    ConsFacts(g, s, i);
    hide Tickets, History, Threads;
    MapBijection(g, h, h);
    CycleBounds(g, h);
    var l := s.last[Map(g, h)];
    assert CellOk(g, s, Map(g, h));
    TicketOrder(g, if l == 0 then h else l, h);
  }

  /** A consumer has read its cell, or failed to exchange it. */
  lemma {:induction false} DecideStep(g: Geometry, s: State, s': State, i: nat, h: nat)
    requires Shaped(g, s) && Inv(g, s) && i < |s.pcs| && ConsTicket(s.pcs[i]) == h && ProdTicket(s.pcs[i]) == NONE
    requires var pc := DeqDecide(g, h, CellAt(g, s, h)); s' == Moved(Settled(s, h, pc), i, pc)
    ensures Inv(g, s')
  {
    hide Inv;
    var p := CellAt(g, s, h);
    var pc := DeqDecide(g, h, p);
    if p.cycle == Cycle(g, h) {
      CycleSeen(g, s, i, h);
      MoveStep(g, s, s', i, pc);
    } else if pc.DeqSwap? {
      MoveStep(g, s, s', i, pc);
    } else {
      GiveStep(g, s, s', i, h);
    }
  }

  /** A producer has read its cell, or failed to exchange it. */
  lemma {:induction false} EnqDecideStep(g: Geometry, s: State, s': State, i: nat, v: int, c: int, t: nat)
    requires Shaped(g, s) && Inv(g, s) && i < |s.pcs| && ProdTicket(s.pcs[i]) == t && ConsTicket(s.pcs[i]) == NONE
    requires s' == Moved(s, i, EnqDecide(g, v, c, t, CellAt(g, s, t)))
    ensures Inv(g, s')
  {
    hide Inv;
    MoveStep(g, s, s', i, EnqDecide(g, v, c, t, CellAt(g, s, t)));
  }

  /** Once no head ticket beyond `t` has been handed out, none has given up. */
  lemma {:induction false} HeadSeen(g: Geometry, s: State, s': State, i: nat, v: int, c: int, t: nat, p: Cell)
    requires Shaped(g, s) && Inv(g, s) && i < |s.pcs| && s.pcs[i] == EnqHead(v, c, t, p)
    requires s' == Moved(s, i, if s.head <= t then EnqSwap(v, c, t, p) else EnqMiss(g, v, c, t))
    ensures Inv(g, s')
  {
    assert PcOk(g, s, s.pcs[i]);
    assert s.head <= t ==> Ahead(g, s, t);
    hide Inv;
    MoveStep(g, s, s', i, if s.head <= t then EnqSwap(v, c, t, p) else EnqMiss(g, v, c, t));
  }

  lemma {:induction false} ProdStep(g: Geometry, s: State, s': State, i: nat)
    requires Shaped(g, s) && Inv(g, s) && i < |s.pcs| && Step(g, s, s', i) && ProdTicket(s.pcs[i]) != NONE
    ensures Inv(g, s')
  {
    hide Inv, CellAt, Won, EnqDecide;
    match s.pcs[i] {
      case EnqLoad(v, c, t) => EnqDecideStep(g, s, s', i, v, c, t);
      case EnqHead(v, c, t, p) => HeadSeen(g, s, s', i, v, c, t, p);
      case EnqSwap(v, c, t, p) =>
        if CellAt(g, s, t) == p && s' == Moved(Won(g, s, t, v), i, EnqThreshold) {
          WonStep(g, s, s', i, v, c, t, p);
        } else {
          EnqDecideStep(g, s, s', i, v, c, t);
        }
      case _ =>
    }
  }

  lemma {:induction false} ConsStep(g: Geometry, s: State, s': State, i: nat)
    requires Shaped(g, s) && Inv(g, s) && i < |s.pcs| && Step(g, s, s', i) && ConsTicket(s.pcs[i]) != NONE
    ensures Inv(g, s')
  {
    hide Inv, CellAt, TakenOut, RefusedIn, DeqDecide;
    match s.pcs[i] {
      case DeqLoad(h) => DecideStep(g, s, s', i, h);
      case DeqTake(h) => TakenStep(g, s, s', i, h);
      case DeqSwap(h, p) =>
        if SameEntry(CellAt(g, s, h), p) && s' == Moved(RefusedIn(g, s, h), i, DeqTail(h)) {
          RefusedStep(g, s, s', i, h, p);
        } else {
          DecideStep(g, s, s', i, h);
        }
      case _ =>
    }
  }

  /** A step of a producer without a ticket. */
  lemma {:induction false} EnqFreeStep(g: Geometry, s: State, i: nat)
    requires Shaped(g, s) && Inv(g, s) && i < |s.pcs|
    requires s.pcs[i].EnqStart? || s.pcs[i].EnqCheck? || s.pcs[i].EnqTicket? || s.pcs[i].EnqRefresh?
          || s.pcs[i].EnqThreshold? || s.pcs[i].EnqStore? || s.pcs[i].EnqDone? || s.pcs[i].DeqDone?
    ensures Inv(g, Plain(g, s, i))
  {
    hide Inv, CellAt, Won, TakenOut, RefusedIn, Looked, EnqDecide, EnqMiss, SameEntry;
    var s' := Plain(g, s, i);
    if s.pcs[i].EnqTicket? {
      TailStep(g, s, s', i, s.pcs[i].v, s.pcs[i].c);
    } else {
      MoveStep(g, s, s', i, s'.pcs[i]);
    }
  }

  /** A step of a consumer without a ticket, or done with it. */
  lemma {:induction false} DeqFreeStep(g: Geometry, s: State, i: nat)
    requires Shaped(g, s) && Inv(g, s) && i < |s.pcs|
    requires s.pcs[i].DeqStart? || s.pcs[i].DeqTicket? || s.pcs[i].DeqTail? || s.pcs[i].CatchSwap?
          || s.pcs[i].CatchHead? || s.pcs[i].CatchTail? || s.pcs[i].DeqLast? || s.pcs[i].DeqAgain?
    ensures Inv(g, Plain(g, s, i))
  {
    hide Inv, CellAt, Won, TakenOut, RefusedIn, Looked, EnqDecide, EnqMiss, SameEntry;
    var s' := Plain(g, s, i);
    if s.pcs[i].DeqTicket? {
      HeadStep(g, s, s', i);
    } else if s.pcs[i].CatchSwap? && s.tail == s.pcs[i].tl {
      CatchStep(g, s, s', i, s.pcs[i].tl, s.pcs[i].hd);
    } else {
      MoveStep(g, s, s', i, s'.pcs[i]);
    }
  }

  /** A call starts, or the exchange of the tail fails. */
  lemma {:induction false} FreeStep(g: Geometry, s: State, s': State, i: nat)
    requires Shaped(g, s) && Inv(g, s) && i < |s.pcs| && Step(g, s, s', i)
    requires ProdTicket(s.pcs[i]) == NONE && ConsTicket(s.pcs[i]) == NONE
    requires s.pcs[i].Idle? || (s.pcs[i].CatchSwap? && Fails(g, s, s', i))
    ensures Inv(g, s')
  {
    hide Inv, CellAt, Plain;
    MoveStep(g, s, s', i, s'.pcs[i]);
  }

  lemma {:induction false} OthersStay(g: Geometry, s: State, s': State, i: nat)
    requires Shaped(g, s) && i < |s.pcs| && Step(g, s, s', i)
    ensures |s'.pcs| == |s.pcs| && forall j :: 0 <= j < |s.pcs| && j != i ==> s'.pcs[j] == s.pcs[j]
  {
    hide Plain, EnqDecide, Looked;
  }

  lemma {:induction false} InvShaped(g: Geometry, s: State)
    requires Inv(g, s)
    ensures Shaped(g, s)
  {
  }

  lemma {:induction false} StepInv(g: Geometry, s: State, s': State, i: nat)
    requires Shaped(g, s) && Inv(g, s) && i < |s.pcs| && Step(g, s, s', i)
    ensures Inv(g, s')
  {
    hide Inv, Plain;
    if ProdTicket(s.pcs[i]) != NONE {
      ProdStep(g, s, s', i);
    } else if ConsTicket(s.pcs[i]) != NONE {
      ConsStep(g, s, s', i);
    } else if s.pcs[i].Idle? || (s.pcs[i].CatchSwap? && Fails(g, s, s', i)) {
      FreeStep(g, s, s', i);
    } else if s.pcs[i].DeqStart? || s.pcs[i].DeqTicket? || s.pcs[i].DeqTail? || s.pcs[i].CatchSwap?
           || s.pcs[i].CatchHead? || s.pcs[i].CatchTail? || s.pcs[i].DeqLast? || s.pcs[i].DeqAgain? {
      DeqFreeStep(g, s, i);
    } else {
      EnqFreeStep(g, s, i);
    }
  }

  // ---------- All runs ----------

  lemma {:induction false} RunInv(g: Geometry, run: seq<State>, threads: nat, k: nat)
    requires Run(g, run, threads) && k < |run|
    ensures Inv(g, run[k])
    decreases k
  {
    hide Inv, Step;
    if k == 0 {
      InitInv(g, threads);
    } else {
      RunInv(g, run, threads, k - 1);
      InvShaped(g, run[k - 1]);
      assert Next(g, run[k - 1], run[k]);
      var i :| 0 <= i < |run[k - 1].pcs| && Step(g, run[k - 1], run[k], i);
      StepInv(g, run[k - 1], run[k], i);
    }
  }

  /** In every run, a pointer that is delivered is the one stored for the same ticket. */
  lemma {:induction false} ExactDelivery(g: Geometry, run: seq<State>, threads: nat, k: nat, h: int)
    requires Run(g, run, threads) && k < |run| && h in run[k].deq
    ensures h in run[k].enq && run[k].deq[h] == run[k].enq[h]
  {
    RunInv(g, run, threads, k);
  }

  /** Nothing that was stored is lost: it has been delivered, or its cell holds it for a consumer due or to come. */
  lemma {:induction false} NothingLost(g: Geometry, run: seq<State>, threads: nat, k: nat, t: int)
    requires Run(g, run, threads) && k < |run| && t in run[k].enq && t !in run[k].deq
    ensures Shaped(g, run[k])
    ensures var p := CellAt(g, run[k], t); p.occ && p.cycle == Cycle(g, t) && p.ptr == run[k].enq[t]
    ensures t >= run[k].head || Held(run[k], t)
  {
    RunInv(g, run, threads, k);
    Sized(g);
    StoredHere(g, run[k], t);
  }

  /** A consumer that finds its cycle in its cell finds the occupied bit set. */
  lemma {:induction false} CycleIsOccupied(g: Geometry, run: seq<State>, threads: nat, k: nat, i: nat)
    requires Run(g, run, threads) && k < |run| && i < |run[k].pcs| && ConsTicket(run[k].pcs[i]) != NONE
    ensures Shaped(g, run[k])
    ensures var h := ConsTicket(run[k].pcs[i]);
            CellAt(g, run[k], h).cycle == Cycle(g, h) ==> CellAt(g, run[k], h).occ
  {
    RunInv(g, run, threads, k);
    if CellAt(g, run[k], ConsTicket(run[k].pcs[i])).cycle == Cycle(g, ConsTicket(run[k].pcs[i])) {
      CycleSeen(g, run[k], i, ConsTicket(run[k].pcs[i]));
    }
  }

  /** Two threads never hold the same ticket, and a ticket in use has no outcome yet. */
  lemma {:induction false} TicketsApart(g: Geometry, run: seq<State>, threads: nat, k: nat, i: nat, j: nat)
    requires Run(g, run, threads) && k < |run| && i < j < |run[k].pcs|
    ensures var a, b := run[k].pcs[i], run[k].pcs[j];
            && (ProdTicket(a) != NONE ==> ProdTicket(a) != ProdTicket(b) && ProdTicket(a) !in run[k].enq)
            && (ConsTicket(a) != NONE ==>
                 ConsTicket(a) != ConsTicket(b) && ConsTicket(a) !in run[k].deq && ConsTicket(a) !in run[k].given)
  {
    RunInv(g, run, threads, k);
  }

  /** The step in which a producer wins a ticket: its consumer has not given up, and nothing is overwritten. */
  lemma {:induction false} WinIsSafe(g: Geometry, run: seq<State>, threads: nat, k: nat, t: int)
    requires Run(g, run, threads) && 0 < k < |run| && t in run[k].enq && t !in run[k - 1].enq
    ensures Shaped(g, run[k - 1]) && t !in run[k - 1].given && !CellAt(g, run[k - 1], t).occ
  {
    hide Inv;
    RunInv(g, run, threads, k - 1);
    InvShaped(g, run[k - 1]);
    var s, s' := run[k - 1], run[k];
    assert Next(g, s, s');
    var i :| 0 <= i < |s.pcs| && Step(g, s, s', i);
    WinStep(g, s, s', i, t);
  }

  lemma {:induction false} WinStep(g: Geometry, s: State, s': State, i: nat, t: int)
    requires Shaped(g, s) && Inv(g, s) && i < |s.pcs| && Step(g, s, s', i) && t in s'.enq && t !in s.enq
    ensures t !in s.given && !CellAt(g, s, t).occ
  {
    hide CellsOk, Stored, Marks, Accounted, Map, Cycle, Plain, Fails, Calls, Step;
    var pc := s.pcs[i];
    Records(g, s, s', i);
    assert pc.EnqSwap? && pc.t == t;
    assert PcOk(g, s, pc);
    hide Inv;
    WonStep(g, s, s', i, pc.v, pc.c, pc.t, pc.p);
  }

  /** A step stores a pointer only where a producer wins its ticket, and delivers one only where a consumer takes it. */
  lemma {:induction false} Records(g: Geometry, s: State, s': State, i: nat)
    requires Shaped(g, s) && i < |s.pcs| && Step(g, s, s', i)
    ensures s.pcs[i].EnqSwap? && s'.enq != s.enq ==>
              CellAt(g, s, s.pcs[i].t) == s.pcs[i].p && s' == Moved(Won(g, s, s.pcs[i].t, s.pcs[i].v), i, EnqThreshold)
    ensures !s.pcs[i].EnqSwap? ==> s'.enq == s.enq
    ensures s.pcs[i].DeqTake? ==>
              s' == Moved(TakenOut(g, s, s.pcs[i].h), i, DeqDone(true, CellAt(g, s, s.pcs[i].h).ptr))
    ensures !s.pcs[i].DeqTake? ==> s'.deq == s.deq
  {
    hide CellAt, EnqDecide, EnqMiss, SameEntry, Won, TakenOut, RefusedIn, Looked;
  }

  /** A step delivers at most one pointer, and only for a ticket that had none; what was stored or delivered stays. */
  lemma {:induction false} OneDelivery(g: Geometry, s: State, s': State, i: nat)
    requires Inv(g, s) && i < |s.pcs| && Step(g, s, s', i)
    ensures forall t :: t in s.enq ==> t in s'.enq && s'.enq[t] == s.enq[t]
    ensures forall h :: h in s.deq ==> h in s'.deq && s'.deq[h] == s.deq[h]
    ensures s'.deq != s.deq ==> exists h :: h in s.enq && h !in s.deq && s'.deq == s.deq[h := s.enq[h]]
  {
    hide CellsOk, Stored, Marks, Accounted, Map, Cycle, Plain, Fails, Calls, CellAt;
    var pc := s.pcs[i];
    Records(g, s, s', i);
    if pc.DeqTake? {
      TakenStep(g, s, s', i, pc.h);
    } else if pc.EnqSwap? {
      ProdFacts(g, s, i);
    }
  }

  /** When all threads are idle, what is stored and not delivered is all ahead of the head. */
  lemma {:induction false} Quiet(g: Geometry, run: seq<State>, threads: nat, k: nat, t: int)
    requires Run(g, run, threads) && k < |run| && (forall i :: 0 <= i < |run[k].pcs| ==> run[k].pcs[i] == Idle)
    requires t in run[k].enq
    ensures t in run[k].deq <==> t < run[k].head
  {
    RunInv(g, run, threads, k);
    if t !in run[k].deq {
      NothingLost(g, run, threads, k, t);
    }
  }
}
