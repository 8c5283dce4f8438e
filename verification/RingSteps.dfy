/** The lock-free ring of include/evl/ring_ptr.h as a system of atomic steps of any number of threads. */
module RingSteps {
  import opened RingMap

  /** An array element: the cycle, the occupied bit (0x1) and the unsafe bit (0x2) of its entry, and its pointer. */
  datatype Cell = Cell(cycle: int, occ: bool, unsafe: bool, ptr: int)

  /**
   * What a thread is about to do, or returns. `v` is the pointer to enqueue, or the one dequeued, `c` the head in the
   * cursor, `t` a tail ticket, `h` a head ticket, `p` the array element read last.
   */
  datatype Pc =
    | Idle
    | EnqStart(v: int, c: int)
    | EnqCheck(v: int, t: nat)
    | EnqTicket(v: int, c: int)
    | EnqLoad(v: int, c: int, t: nat)
    | EnqHead(v: int, c: int, t: nat, p: Cell)
    | EnqSwap(v: int, c: int, t: nat, p: Cell)
    | EnqRefresh(v: int, t: nat)
    | EnqThreshold
    | EnqStore
    | EnqDone(ok: bool)
    | DeqStart
    | DeqTicket
    | DeqLoad(h: nat)
    | DeqTake(h: nat)
    | DeqSwap(h: nat, p: Cell)
    | DeqTail(h: nat)
    | CatchSwap(tl: nat, hd: nat)
    | CatchHead
    | CatchTail(hd: nat)
    | DeqLast
    | DeqAgain
    | DeqDone(got: bool, v: int)

  /**
   * The shared variables, the threads, and the history: the pointer stored for each tail ticket that won its cell, the
   * pointer delivered for each head ticket that got one, the head tickets that gave up, and, for each cell, the ticket
   * its cycle comes from (0 before any).
   */
  datatype State = State(head: nat, tail: nat, threshold: int, cells: seq<Cell>, pcs: seq<Pc>,
                         enq: map<int, int>, deq: map<int, int>, given: set<int>, last: seq<int>)

  /** __evl_ringptr_clear () */
  function Init(g: Geometry, threads: nat): State
    requires g.Valid()
  {
    Sized(g);
    State(g.Cells(), g.Cells(), -1, seq(g.Cells(), i => Cell(0, false, false, 0)), seq(threads, i => Idle),
          map[], map[], {}, seq(g.Cells(), i => 0))
  }

  // ---------- Local decisions ----------

  /** The test of an element that the producer of ticket `t` has read. */
  function EnqDecide(g: Geometry, v: int, c: int, t: nat, p: Cell): Pc
    requires g.Valid()
  {
    if p.cycle < Cycle(g, t) && !p.occ && !p.unsafe then EnqSwap(v, c, t, p)
    else if p.cycle < Cycle(g, t) && !p.occ then EnqHead(v, c, t, p)
    else EnqMiss(g, v, c, t)
  }

  /** The cell is not available: another ticket, unless the ring looks full. */
  function EnqMiss(g: Geometry, v: int, c: int, t: nat): Pc {
    if t + 1 >= c + g.Cells() then EnqRefresh(v, t) else EnqTicket(v, c)
  }

  /** The test of an element that the consumer of ticket `h` has read. */
  function DeqDecide(g: Geometry, h: nat, p: Cell): Pc
    requires g.Valid()
  {
    if p.cycle == Cycle(g, h) then DeqTake(h)
    else if p.occ && p.unsafe then DeqTail(h)
    else if p.cycle < Cycle(g, h) then DeqSwap(h, p)
    else DeqTail(h)
  }

  /** The entry that the consumer of ticket `h` tries to store. */
  function Refused(g: Geometry, h: int, p: Cell): Cell
    requires g.Valid()
  {
    if p.occ then p.(unsafe := true) else p.(cycle := Cycle(g, h))
  }

  /** Two elements with the same entry. */
  predicate SameEntry(p: Cell, q: Cell) {
    p.cycle == q.cycle && p.occ == q.occ && p.unsafe == q.unsafe
  }

  // ---------- Steps ----------

  function Moved(s: State, i: nat, pc: Pc): State
    requires i < |s.pcs|
  {
    s.(pcs := s.pcs[i := pc])
  }

  /** The head ticket `h` gives up when it goes on to read the tail. */
  function Settled(s: State, h: nat, pc: Pc): State {
    if pc == DeqTail(h) then s.(given := s.given + {h}) else s
  }

  ghost predicate Shaped(g: Geometry, s: State) {
    g.Valid() && |s.cells| == g.Cells() && |s.last| == g.Cells()
  }

  function CellAt(g: Geometry, s: State, t: int): Cell
    requires g.Valid() && |s.cells| == g.Cells()
  {
    MapBijection(g, t, t);
    s.cells[Map(g, t)]
  }

  function SetCell(g: Geometry, s: State, t: int, p: Cell): (r: State)
    requires g.Valid() && |s.cells| == g.Cells() && |s.last| == g.Cells()
    ensures |r.cells| == |s.cells| && r == s.(cells := r.cells)
  {
    MapBijection(g, t, t);
    s.(cells := s.cells[Map(g, t) := p])
  }

  /** The cycle of the cell of ticket `t` is now that of `t`. */
  function SetLast(g: Geometry, s: State, t: int): (r: State)
    requires g.Valid() && |s.last| == g.Cells()
    ensures |r.last| == |s.last| && r == s.(last := r.last)
  {
    MapBijection(g, t, t);
    s.(last := s.last[Map(g, t) := t])
  }

  predicate SameCounters(s: State, s': State) {
    s'.head == s.head && s'.tail == s.tail && s'.threshold == s.threshold
  }

  /** The producer of ticket `t` stores its pointer. */
  function Won(g: Geometry, s: State, t: int, v: int): (r: State)
    requires Shaped(g, s)
    ensures r.pcs == s.pcs && r.enq == s.enq[t := v] && r.deq == s.deq
    ensures SameCounters(s, r) && |r.cells| == |s.cells| && |r.last| == |s.last|
  {
    SetLast(g, SetCell(g, s.(enq := s.enq[t := v]), t, Cell(Cycle(g, t), true, false, v)), t)
  }

  /** The consumer of ticket `h` takes the pointer. */
  function TakenOut(g: Geometry, s: State, h: int): (r: State)
    requires Shaped(g, s)
    ensures r.pcs == s.pcs && r.enq == s.enq && r.deq == s.deq[h := CellAt(g, s, h).ptr]
    ensures SameCounters(s, r) && |r.cells| == |s.cells| && |r.last| == |s.last|
  {
    var p := CellAt(g, s, h);
    SetCell(g, s.(deq := s.deq[h := p.ptr]), h, p.(occ := false, ptr := 0))
  }

  /** The consumer of ticket `h` keeps the producer of that ticket away from the cell. */
  function RefusedIn(g: Geometry, s: State, h: int): (r: State)
    requires Shaped(g, s)
    ensures r.pcs == s.pcs && r.enq == s.enq && r.deq == s.deq
    ensures SameCounters(s, r) && |r.cells| == |s.cells| && |r.last| == |s.last|
  {
    var p := CellAt(g, s, h);
    var s' := SetCell(g, s.(given := s.given + {h}), h, Refused(g, h, p));
    if p.occ then s' else SetLast(g, s', h)
  }

  /** The next atomic step of thread `i` within a call; an exchange fails when it finds another value. */
  function Plain(g: Geometry, s: State, i: nat): (r: State)
    requires Shaped(g, s) && i < |s.pcs|
    ensures |r.pcs| == |s.pcs| && r.pcs == s.pcs[i := r.pcs[i]] && Shaped(g, r)
  {
    var n := g.Cells();
    match s.pcs[i]
    case Idle => s
    case EnqStart(v, c) => Moved(s, i, if s.tail >= c + n then EnqCheck(v, s.tail) else EnqTicket(v, c))
    case EnqCheck(v, t) => Moved(s, i, if t >= s.head + n then EnqDone(false) else EnqTicket(v, s.head))
    case EnqTicket(v, c) => Moved(s, i, EnqLoad(v, c, s.tail)).(tail := s.tail + 1)
    case EnqLoad(v, c, t) => Moved(s, i, EnqDecide(g, v, c, t, CellAt(g, s, t)))
    case EnqHead(v, c, t, p) => Moved(s, i, if s.head <= t then EnqSwap(v, c, t, p) else EnqMiss(g, v, c, t))
    case EnqSwap(v, c, t, p) =>
      if CellAt(g, s, t) == p then Moved(Won(g, s, t, v), i, EnqThreshold)
      else Moved(s, i, EnqDecide(g, v, c, t, CellAt(g, s, t)))
    case EnqRefresh(v, t) => Moved(s, i, if t + 1 >= s.head + n then EnqDone(false) else EnqTicket(v, s.head))
    case EnqThreshold => Moved(s, i, if s.threshold != 2 * n - 1 then EnqStore else EnqDone(true))
    case EnqStore => Moved(s, i, EnqDone(true)).(threshold := 2 * n - 1)
    case EnqDone(_) => Moved(s, i, Idle)
    case DeqStart => Moved(s, i, if s.threshold < 0 then DeqDone(false, 0) else DeqTicket)
    case DeqTicket => Moved(s, i, DeqLoad(s.head)).(head := s.head + 1)
    case DeqLoad(h) => Looked(g, s, i, h)
    case DeqTake(h) => Moved(TakenOut(g, s, h), i, DeqDone(true, CellAt(g, s, h).ptr))
    case DeqSwap(h, p) =>
      if SameEntry(CellAt(g, s, h), p) then Moved(RefusedIn(g, s, h), i, DeqTail(h)) else Looked(g, s, i, h)
    case DeqTail(h) => Moved(s, i, if s.tail <= h + 1 then CatchSwap(s.tail, h + 1) else DeqAgain)
    case CatchSwap(tl, hd) =>
      if s.tail == tl then Moved(s, i, DeqLast).(tail := hd) else Moved(s, i, CatchHead)
    case CatchHead => Moved(s, i, CatchTail(s.head))
    case CatchTail(hd) => Moved(s, i, if s.tail >= hd then DeqLast else CatchSwap(s.tail, hd))
    case DeqLast => Moved(s, i, DeqDone(false, 0)).(threshold := s.threshold - 1)
    case DeqAgain =>
      Moved(s, i, if s.threshold <= 0 then DeqDone(false, 0) else DeqTicket).(threshold := s.threshold - 1)
    case DeqDone(_, _) => Moved(s, i, Idle)
  }

  /** The consumer of ticket `h` has read its cell. */
  function Looked(g: Geometry, s: State, i: nat, h: nat): (r: State)
    requires Shaped(g, s) && i < |s.pcs|
    ensures |r.pcs| == |s.pcs| && r.pcs == s.pcs[i := r.pcs[i]] && r.enq == s.enq && r.deq == s.deq
    ensures SameCounters(s, r) && |r.cells| == |s.cells| && |r.last| == |s.last|
  {
    var pc := DeqDecide(g, h, CellAt(g, s, h));
    Moved(Settled(s, h, pc), i, pc)
  }

  /** A weak exchange of thread `i` stores nothing, although it may have found the value it expects. */
  ghost predicate Fails(g: Geometry, s: State, s': State, i: nat)
    requires Shaped(g, s) && i < |s.pcs|
  {
    match s.pcs[i]
    case EnqSwap(v, c, t, p) => s' == Moved(s, i, EnqDecide(g, v, c, t, CellAt(g, s, t)))
    case DeqSwap(h, p) => s' == Looked(g, s, i, h)
    case CatchSwap(tl, hd) => s' == Moved(s, i, CatchHead)
    case _ => false
  }

  /** An idle thread `i` makes a call: it passes a pointer and a cursor, which holds a head seen earlier. */
  ghost predicate Calls(s: State, s': State, i: nat)
    requires i < |s.pcs|
  {
    (exists v, c :: c <= s.head && s' == Moved(s, i, EnqStart(v, c))) || s' == Moved(s, i, DeqStart)
  }

  /** One atomic step of thread `i`. */
  ghost predicate Step(g: Geometry, s: State, s': State, i: nat)
    requires Shaped(g, s) && i < |s.pcs|
  {
    if s.pcs[i] == Idle then Calls(s, s', i) else s' == Plain(g, s, i) || Fails(g, s, s', i)
  }

  ghost predicate Next(g: Geometry, s: State, s': State) {
    Shaped(g, s) && exists i :: 0 <= i < |s.pcs| && Step(g, s, s', i)
  }

  /** A run of some threads on a cleared ring. */
  ghost predicate Run(g: Geometry, run: seq<State>, threads: nat) {
    && g.Valid() && |run| > 0 && run[0] == Init(g, threads)
    && forall k :: 0 < k < |run| ==> Next(g, run[k - 1], run[k])
  }
}
