/** Calls on the ring of include/evl/ring_ptr.h that do not overlap, whichever threads make them: a bounded FIFO. */
module RingSerial {
  import opened RingMap
  import opened RingSteps
  import opened RingSafety
  import opened RingCalls
  import opened RingQueue

  datatype Option<T> = None | Some(value: T)

  // ---------- A bounded FIFO ----------

  /** What a call does to a FIFO of at most `n` pointers, or None when its reply is not that of such a FIFO. */
  function Served(n: int, q: seq<int>, c: Call): Option<seq<int>> {
    match c.reply
    case Pending => Some(q)
    case Done => if c.request.Enqueue? && |q| < n then Some(q + [c.request.v]) else None
    case Full => if c.request.Enqueue? && |q| >= n then Some(q) else None
    case Got(v) => if c.request.Dequeue? && q != [] && q[0] == v then Some(q[1..]) else None
    case Empty => if c.request.Dequeue? && q == [] then Some(q) else None
  }

  /** The queue after some calls, when their replies are those of a FIFO of at most `n` pointers. */
  function Fifo(n: int, calls: seq<Call>): Option<seq<int>> {
    if calls == [] then Some([])
    else
      var before := Fifo(n, calls[..|calls| - 1]);
      if before.None? then None else Served(n, before.value, calls[|calls| - 1])
  }

  // ---------- The ring in the course of one call ----------

  ghost predicate Stands(g: Geometry, s: State, head: int, tail: int, q: seq<int>) {
    && Shaped(g, s) && g.Cells() <= head && |q| <= g.Cells() && tail == head + |q| && Window(g, s.cells, head, q)
    && -1 <= s.threshold <= 2 * g.Cells() - 1
  }

  /** The ring holds `q`, and a dequeue will not mistake it for an empty one. */
  ghost predicate Rests(g: Geometry, s: State, head: int, tail: int, q: seq<int>) {
    Stands(g, s, head, tail, q) && (q != [] ==> s.threshold == 2 * g.Cells() - 1)
  }

  /** The ring is empty, and its head is a ticket ahead of its tail. */
  ghost predicate Behind(g: Geometry, s: State, q: seq<int>) {
    q == [] && Rests(g, s, s.head, s.tail + 1, []) && s.threshold >= 0
  }

  /** A thread is at `pc` in a call to which it passed `v`; the queue was `q` before. */
  ghost predicate At(g: Geometry, s: State, pc: Pc, q: seq<int>, v: int) {
    var n := g.Cells();
    match pc
    case Idle => false
    case EnqStart(x, c) => x == v && c <= s.head && Rests(g, s, s.head, s.tail, q)
    case EnqCheck(x, t) => x == v && t == s.tail && Rests(g, s, s.head, s.tail, q)
    case EnqTicket(x, c) => x == v && c <= s.head && s.tail < c + n && Rests(g, s, s.head, s.tail, q)
    case EnqLoad(x, c, t) => x == v && t + 1 == s.tail && Rests(g, s, s.head, t, q) && |q| < n
    case EnqSwap(x, c, t, p) =>
      x == v && t + 1 == s.tail && Rests(g, s, s.head, t, q) && |q| < n && p == CellAt(g, s, t)
    case EnqThreshold => |q| < n && Stands(g, s, s.head, s.tail, q + [v])
    case EnqStore => |q| < n && Stands(g, s, s.head, s.tail, q + [v])
    case EnqDone(ok) =>
      if ok then |q| < n && Rests(g, s, s.head, s.tail, q + [v]) else |q| >= n && Rests(g, s, s.head, s.tail, q)
    case DeqStart => Rests(g, s, s.head, s.tail, q)
    case DeqTicket => Rests(g, s, s.head, s.tail, q) && s.threshold >= 0
    case DeqLoad(h) => h + 1 == s.head && Rests(g, s, h, s.tail, q) && s.threshold >= 0
    case DeqTake(h) => h + 1 == s.head && Rests(g, s, h, s.tail, q) && s.threshold >= 0 && q != []
    case DeqSwap(h, p) =>
      h + 1 == s.head && Rests(g, s, h, s.tail, q) && s.threshold >= 0 && q == [] && p == CellAt(g, s, h)
    case DeqTail(h) => h + 1 == s.head && Behind(g, s, q)
    case CatchSwap(tl, hd) => tl == s.tail && hd == s.head && Behind(g, s, q)
    case CatchHead => Behind(g, s, q)
    case CatchTail(hd) => hd == s.head && Behind(g, s, q)
    case DeqLast => q == [] && Rests(g, s, s.head, s.tail, []) && s.threshold >= 0
    case DeqDone(got, x) =>
      if got then q != [] && x == q[0] && Rests(g, s, s.head, s.tail, q[1..])
      else q == [] && Rests(g, s, s.head, s.tail, [])
    case _ => false
  }

  /** The cell that a producer finds. */
  lemma {:induction false} FreeAt(g: Geometry, s: State, q: seq<int>, t: nat)
    requires Rests(g, s, s.head, t, q) && |q| < g.Cells()
    ensures var p := CellAt(g, s, t); !p.occ && !p.unsafe && p.cycle < Cycle(g, t)
  {
    MapBijection(g, t, t);
    FreeCell(g, s.cells, s.head, q, t);
  }

  lemma {:induction false} HeadAt(g: Geometry, s: State, q: seq<int>, h: nat)
    requires Rests(g, s, h, s.tail, q)
    ensures var p := CellAt(g, s, h);
            if q == [] then !p.occ && !p.unsafe && p.cycle < Cycle(g, h) else p == Cell(Cycle(g, h), true, false, q[0])
  {
    MapBijection(g, h, h);
    Sized(g);
    HeadCell(g, s.cells, h, q);
  }

  lemma {:induction false} AtEnq(g: Geometry, s: State, s': State, i: nat, q: seq<int>, v: int)
    requires Shaped(g, s) && i < |s.pcs| && At(g, s, s.pcs[i], q, v) && Step(g, s, s', i)
    requires s.pcs[i].EnqStart? || s.pcs[i].EnqCheck? || s.pcs[i].EnqTicket? || s.pcs[i].EnqThreshold?
          || s.pcs[i].EnqStore?
    ensures At(g, s', s'.pcs[i], q, v)
  {
    hide Window, Map, Cycle;
  }

  lemma {:induction false} AtCell(g: Geometry, s: State, s': State, i: nat, q: seq<int>, v: int)
    requires Shaped(g, s) && i < |s.pcs| && At(g, s, s.pcs[i], q, v) && Step(g, s, s', i)
    requires s.pcs[i].EnqLoad? || s.pcs[i].EnqSwap?
    ensures At(g, s', s'.pcs[i], q, v)
  {
    var t := s.pcs[i].t;
    FreeAt(g, s, q, t);
    MapBijection(g, t, t);
    Pushed(g, s.cells, s.head, q, v);
    hide Window, Map, Cycle;
  }

  lemma {:induction false} AtDeq(g: Geometry, s: State, s': State, i: nat, q: seq<int>, v: int)
    requires Shaped(g, s) && i < |s.pcs| && At(g, s, s.pcs[i], q, v) && Step(g, s, s', i)
    requires s.pcs[i].DeqStart? || s.pcs[i].DeqTicket? || s.pcs[i].DeqTail? || s.pcs[i].CatchSwap?
          || s.pcs[i].CatchHead? || s.pcs[i].CatchTail? || s.pcs[i].DeqLast?
    ensures At(g, s', s'.pcs[i], q, v)
  {
    hide Window, Map, Cycle;
  }

  lemma {:induction false} AtHead(g: Geometry, s: State, s': State, i: nat, q: seq<int>, v: int)
    requires Shaped(g, s) && i < |s.pcs| && At(g, s, s.pcs[i], q, v) && Step(g, s, s', i)
    requires s.pcs[i].DeqLoad? || s.pcs[i].DeqSwap? || s.pcs[i].DeqTake?
    ensures At(g, s', s'.pcs[i], q, v)
  {
    var h := s.pcs[i].h;
    HeadAt(g, s, q, h);
    MapBijection(g, h, h);
    var p := CellAt(g, s, h);
    if s.pcs[i].DeqTake? {
      Passed(g, s.cells, h, q, p.(occ := false, ptr := 0));
    } else if s.pcs[i].DeqSwap? {
      Passed(g, s.cells, h, q, Refused(g, h, p));
    }
    hide Window, Map, Cycle;
  }

  // ---------- Calls that do not overlap ----------

  ghost predicate AllIdle(s: State) {
    forall i :: 0 <= i < |s.pcs| ==> s.pcs[i] == Idle
  }

  /** Thread `i` is in a call, and no other thread is. */
  ghost predicate Alone(s: State, i: int) {
    0 <= i < |s.pcs| && s.pcs[i] != Idle && forall j :: 0 <= j < |s.pcs| && j != i ==> s.pcs[j] == Idle
  }

  /** At most one thread is in a call. */
  ghost predicate Serial(s: State) {
    forall i, j :: 0 <= i < j < |s.pcs| ==> s.pcs[i] == Idle || s.pcs[j] == Idle
  }

  function Argument(c: Call): int {
    if c.request.Enqueue? then c.request.v else 0
  }

  /** Thread `i` is in the last call, and the calls before it went as on a FIFO. */
  ghost predicate Within(g: Geometry, s: State, log: Log, i: nat)
    requires i < |s.pcs|
  {
    var m := |log.calls| - 1;
    && m >= 0 && |log.cur| == |s.pcs| && log.cur[i] == m && PcCall(s.pcs[i], log.calls[m])
    && var q := Fifo(g.Cells(), log.calls[..m]);
       q.Some? && At(g, s, s.pcs[i], q.value, Argument(log.calls[m]))
  }

  /** All calls went as on a FIFO, and the ring holds what it does. */
  ghost predicate Between(g: Geometry, s: State, log: Log) {
    |log.cur| == |s.pcs|
    && var q := Fifo(g.Cells(), log.calls); q.Some? && Rests(g, s, s.head, s.tail, q.value)
  }

  ghost predicate SerialOk(g: Geometry, s: State, log: Log) {
    (AllIdle(s) ==> Between(g, s, log)) && (forall i :: Alone(s, i) ==> Within(g, s, log, i))
  }

  lemma {:induction false} CallMade(g: Geometry, s: State, s': State, i: nat, log: Log)
    requires AllIdle(s) && Between(g, s, log) && i < |s.pcs| == |s'.pcs| && Calls(s, s', i)
    ensures Within(g, s', Noted(s, s', i, log), i)
  {
    var log' := Noted(s, s', i, log);
    assert log'.calls[..|log.calls|] == log.calls;
    hide Window, Fifo;
  }

  /** A step within a call. */
  lemma {:induction false} CallGoesOn(g: Geometry, s: State, s': State, i: nat, log: Log)
    requires Inv(g, s) && LogInv(s, log) && i < |s.pcs| == |s'.pcs| && Within(g, s, log, i) && Step(g, s, s', i)
    requires s.pcs[i] != Idle && !s.pcs[i].EnqDone? && !s.pcs[i].DeqDone?
    ensures Within(g, s', Noted(s, s', i, log), i)
  {
    hide Inv, At, Fifo, PcCall, Step, CallOk, Went, Apart, Covered;
    var m := |log.calls| - 1;
    var c, log' := log.calls[m], Noted(s, s', i, log);
    assert log'.calls[..m] == log.calls[..m];
    InvShaped(g, s);
    CallNext(g, s, s', i, c);
    WentRequest(s, s', i, c);
    AtNext(g, s, s', i, Fifo(g.Cells(), log.calls[..m]).value, Argument(c));
  }

  lemma {:induction false} WentRequest(s: State, s': State, i: nat, c: Call)
    requires i < |s'.pcs|
    ensures Went(s, s', i, c).request == c.request
  {
  }

  lemma {:induction false} AtNext(g: Geometry, s: State, s': State, i: nat, q: seq<int>, v: int)
    requires Shaped(g, s) && i < |s.pcs| && At(g, s, s.pcs[i], q, v) && Step(g, s, s', i)
    requires !s.pcs[i].EnqDone? && !s.pcs[i].DeqDone?
    ensures At(g, s', s'.pcs[i], q, v)
  {
    hide Step;
    var pc := s.pcs[i];
    if pc.EnqLoad? || pc.EnqSwap? {
      AtCell(g, s, s', i, q, v);
    } else if pc.DeqLoad? || pc.DeqSwap? || pc.DeqTake? {
      AtHead(g, s, s', i, q, v);
    } else if pc.EnqStart? || pc.EnqCheck? || pc.EnqTicket? || pc.EnqThreshold? || pc.EnqStore? {
      AtEnq(g, s, s', i, q, v);
    } else {
      AtDeq(g, s, s', i, q, v);
    }
  }

  /** A call returns: its reply is that of a FIFO. */
  lemma {:induction false} CallReturns(g: Geometry, s: State, s': State, i: nat, log: Log)
    requires Shaped(g, s) && i < |s.pcs| == |s'.pcs| && Within(g, s, log, i) && Step(g, s, s', i)
    requires s.pcs[i].EnqDone? || s.pcs[i].DeqDone?
    ensures Between(g, s', Noted(s, s', i, log))
  {
    hide Window, Map, Cycle;
    var m := |log.calls| - 1;
    var c := log.calls[m];
    assert Went(s, s', i, c) == c;
    assert Noted(s, s', i, log) == log;
  }

  lemma {:induction false} SerialNext(g: Geometry, s: State, s': State, i: nat, log: Log)
    requires Inv(g, s) && LogInv(s, log) && SerialOk(g, s, log) && i < |s.pcs| && Step(g, s, s', i)
    requires Serial(s) && Serial(s')
    ensures |s'.pcs| == |s.pcs| && SerialOk(g, s', Noted(s, s', i, log))
  {
    hide Inv, LogInv, Within, Between, Noted, Plain, Fails, Calls;
    InvShaped(g, s);
    OthersStay(g, s, s', i);
    LogSize(s, log);
    if s.pcs[i] == Idle {
      Starts(s, s', i);
      assert AllIdle(s);
      CallMade(g, s, s', i, log);
    } else {
      assert Alone(s, i);
      if s.pcs[i].EnqDone? || s.pcs[i].DeqDone? {
        Ends(g, s, s', i);
        CallReturns(g, s, s', i, log);
      } else {
        CallGoesOn(g, s, s', i, log);
        WithinBusy(g, s', Noted(s, s', i, log), i);
      }
    }
  }

  lemma {:induction false} LogSize(s: State, log: Log)
    requires LogInv(s, log)
    ensures |log.cur| == |s.pcs|
  {
  }

  lemma {:induction false} Starts(s: State, s': State, i: nat)
    requires i < |s.pcs| && Calls(s, s', i)
    ensures |s'.pcs| == |s.pcs| && s'.pcs[i] != Idle
  {
  }

  lemma {:induction false} Ends(g: Geometry, s: State, s': State, i: nat)
    requires Shaped(g, s) && i < |s.pcs| && (s.pcs[i].EnqDone? || s.pcs[i].DeqDone?) && Step(g, s, s', i)
    ensures |s'.pcs| == |s.pcs| && s'.pcs[i] == Idle
  {
  }

  lemma {:induction false} WithinBusy(g: Geometry, s: State, log: Log, i: nat)
    requires i < |s.pcs| && Within(g, s, log, i)
    ensures s.pcs[i] != Idle
  {
  }

  lemma {:induction false} SerialStart(g: Geometry, threads: nat)
    requires g.Valid()
    ensures SerialOk(g, Init(g, threads), Log([], seq(threads, i => 0)))
  {
    Sized(g);
    var s, n := Init(g, threads), g.Cells();
    hide Map, Cycle;
    forall t | n <= t < n + n ensures InWindow(g, s.cells, n, [], t) {
      CycleBounds(g, t);
      MapBijection(g, t, t);
    }
  }

  /**
   * In every run in which calls do not overlap, the replies are those of a FIFO of as many pointers as there are cells:
   * an enqueue fails exactly when it is full, a dequeue exactly when it is empty, and else returns the oldest pointer.
   */
  lemma {:induction false} SerialIsFifo(g: Geometry, run: seq<State>, threads: nat, movers: seq<nat>, logs: seq<Log>,
                                        k: nat)
    requires Logged(g, run, threads, movers, logs) && k < |run| && forall j :: 0 <= j <= k ==> Serial(run[j])
    ensures AllIdle(run[k]) ==> Fifo(g.Cells(), logs[k].calls).Some?
    ensures SerialOk(g, run[k], logs[k])
    decreases k
  {
    hide Inv, LogInv, Step, Noted, Serial, Within;
    if k == 0 {
      SerialStart(g, threads);
    } else {
      SerialIsFifo(g, run, threads, movers, logs, k - 1);
      RunInv(g, run, threads, k - 1);
      LogAlways(g, run, threads, movers, logs, k - 1);
      assert LoggedStep(g, run[k - 1], run[k], movers[k - 1], logs[k - 1], logs[k]);
      SerialNext(g, run[k - 1], run[k], movers[k - 1], logs[k - 1]);
    }
  }
}
