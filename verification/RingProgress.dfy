/** When calls on the ring of include/evl/ring_ptr.h fail, and that a thread left alone finishes its call. */
module RingProgress {
  import opened RingMap
  import opened RingSteps
  import opened RingSafety

  /** Cursors hold heads seen earlier, and tail tickets have been handed out. */
  ghost predicate Aim(s: State, pc: Pc) {
    match pc
    case EnqStart(_, c) => c <= s.head
    case EnqCheck(_, t) => t <= s.tail
    case EnqTicket(_, c) => c <= s.head
    case EnqLoad(_, c, t) => c <= s.head && t < s.tail
    case EnqHead(_, c, t, _) => c <= s.head && t < s.tail
    case EnqSwap(_, c, t, _) => c <= s.head && t < s.tail
    case EnqRefresh(_, t) => t < s.tail
    case _ => true
  }

  ghost predicate Aims(s: State) {
    forall i :: 0 <= i < |s.pcs| ==> Aim(s, s.pcs[i])
  }

  lemma {:induction false} AimKept(s: State, s': State, pc: Pc)
    requires Aim(s, pc) && s.head <= s'.head && s.tail <= s'.tail
    ensures Aim(s', pc)
  {
  }

  /** Head and tail have not gone back, and the thread that has moved aims right. */
  ghost predicate AimsOn(s: State, s': State, i: nat) {
    i < |s.pcs| == |s'.pcs| && s.head <= s'.head && s.tail <= s'.tail && Aim(s', s'.pcs[i])
  }

  lemma {:induction false} AimEnq(g: Geometry, s: State, i: nat)
    requires Shaped(g, s) && i < |s.pcs| && Aim(s, s.pcs[i])
    requires s.pcs[i].EnqStart? || s.pcs[i].EnqCheck? || s.pcs[i].EnqTicket? || s.pcs[i].EnqLoad? || s.pcs[i].EnqHead?
          || s.pcs[i].EnqSwap? || s.pcs[i].EnqRefresh? || s.pcs[i].EnqThreshold? || s.pcs[i].EnqStore?
    ensures AimsOn(s, Plain(g, s, i), i)
  {
    hide CellAt, Won, TakenOut, RefusedIn, Looked, Cycle;
  }

  lemma {:induction false} AimDeq(g: Geometry, s: State, i: nat)
    requires Shaped(g, s) && i < |s.pcs| && s.pcs[i] != Idle
    requires !(s.pcs[i].EnqStart? || s.pcs[i].EnqCheck? || s.pcs[i].EnqTicket? || s.pcs[i].EnqLoad? || s.pcs[i].EnqHead?
               || s.pcs[i].EnqSwap? || s.pcs[i].EnqRefresh? || s.pcs[i].EnqThreshold? || s.pcs[i].EnqStore?)
    requires s.pcs[i].CatchSwap? ==> s.pcs[i].tl <= s.pcs[i].hd
    ensures AimsOn(s, Plain(g, s, i), i)
  {
    hide CellAt, Won, TakenOut, RefusedIn, EnqDecide, EnqMiss, SameEntry, Looked, Cycle;
    if s.pcs[i].DeqLoad? || s.pcs[i].DeqSwap? {
      LookedAim(g, s, i, s.pcs[i].h);
    }
  }

  lemma {:induction false} LookedAim(g: Geometry, s: State, i: nat, h: nat)
    requires Shaped(g, s) && i < |s.pcs|
    ensures Aim(s, Looked(g, s, i, h).pcs[i])
  {
    hide CellAt, Cycle;
  }

  lemma {:induction false} AimFail(g: Geometry, s: State, s': State, i: nat)
    requires Shaped(g, s) && i < |s.pcs| && Aim(s, s.pcs[i]) && Fails(g, s, s', i)
    ensures AimsOn(s, s', i)
  {
    hide CellAt, Cycle;
  }

  lemma {:induction false} AimCall(s: State, s': State, i: nat)
    requires i < |s.pcs| && Calls(s, s', i)
    ensures AimsOn(s, s', i)
  {
  }

  lemma {:induction false} AimStep(g: Geometry, s: State, s': State, i: nat)
    requires Inv(g, s) && i < |s.pcs| && Step(g, s, s', i) && Aims(s)
    ensures |s'.pcs| == |s.pcs| && Aims(s') && s.head <= s'.head && s.tail <= s'.tail
  {
    hide Aim, Plain, Fails, Calls;
    var pc := s.pcs[i];
    assert PcOk(g, s, pc);
    hide Inv, PcOk;
    if pc == Idle {
      AimCall(s, s', i);
    } else if Fails(g, s, s', i) {
      AimFail(g, s, s', i);
    } else if pc.EnqStart? || pc.EnqCheck? || pc.EnqTicket? || pc.EnqLoad? || pc.EnqHead?
           || pc.EnqSwap? || pc.EnqRefresh? || pc.EnqThreshold? || pc.EnqStore? {
      AimEnq(g, s, i);
    } else {
      AimDeq(g, s, i);
    }
    OthersStay(g, s, s', i);
    forall j | 0 <= j < |s.pcs| && j != i ensures Aim(s', s'.pcs[j]) {
      AimKept(s, s', s.pcs[j]);
    }
  }

  lemma {:induction false} AimsAlways(g: Geometry, run: seq<State>, threads: nat, k: nat)
    requires Run(g, run, threads) && k < |run|
    ensures Aims(run[k])
    decreases k
  {
    hide Inv, Step;
    if k > 0 {
      AimsAlways(g, run, threads, k - 1);
      RunInv(g, run, threads, k - 1);
      assert Next(g, run[k - 1], run[k]);
      var i: nat :| i < |run[k - 1].pcs| && Step(g, run[k - 1], run[k], i);
      AimStep(g, run[k - 1], run[k], i);
    }
  }

  // ---------- Why calls fail ----------

  /** An enqueue gives up. */
  ghost predicate GivesUp(s: State, s': State, i: nat) {
    i < |s.pcs| == |s'.pcs| && s'.pcs[i] == EnqDone(false) && s.pcs[i] != s'.pcs[i]
  }

  lemma {:induction false} Giver(g: Geometry, s: State, s': State, i: nat)
    requires Shaped(g, s) && i < |s.pcs| == |s'.pcs| && Step(g, s, s', i) && s'.pcs[i] == EnqDone(false)
    ensures (s.pcs[i].EnqCheck? || s.pcs[i].EnqRefresh?) && s' == Plain(g, s, i)
  {
    hide CellAt, Won, TakenOut, RefusedIn, SameEntry, Looked, EnqDecide, EnqMiss;
    if s.pcs[i].DeqLoad? || s.pcs[i].DeqSwap? {
      LookedOn(g, s, i, s.pcs[i].h);
    } else if s.pcs[i].EnqLoad? || s.pcs[i].EnqSwap? || s.pcs[i].EnqHead? {
      DecideOn(g, s.pcs[i].v, s.pcs[i].c, s.pcs[i].t, CellAt(g, s, s.pcs[i].t));
    }
  }

  lemma {:induction false} FullStep(g: Geometry, s: State, s': State, i: nat, j: nat)
    requires Shaped(g, s) && i < |s.pcs| && Step(g, s, s', i) && Aims(s) && GivesUp(s, s', j)
    ensures j == i && s.tail >= s.head + g.Cells()
  {
    hide Step;
    OthersStay(g, s, s', i);
    assert Aim(s, s.pcs[i]);
    Giver(g, s, s', i);
    hide CellAt, Won, TakenOut, RefusedIn, SameEntry, Looked, EnqDecide, EnqMiss;
  }

  /** In every run, an enqueue gives up only when as many tickets are out as there are cells. */
  lemma {:induction false} FullOnly(g: Geometry, run: seq<State>, threads: nat, k: nat, i: nat)
    requires Run(g, run, threads) && 0 < k < |run| && GivesUp(run[k - 1], run[k], i)
    ensures run[k - 1].tail >= run[k - 1].head + g.Cells()
  {
    hide Step, GivesUp;
    AimsAlways(g, run, threads, k - 1);
    assert Next(g, run[k - 1], run[k]);
    var j: nat :| j < |run[k - 1].pcs| && Step(g, run[k - 1], run[k], j);
    FullStep(g, run[k - 1], run[k], j, i);
  }

  /** A producer drops ticket `t`. */
  ghost predicate Drops(s: State, s': State, i: nat, t: nat) {
    && i < |s.pcs| == |s'.pcs| && t !in s'.enq
    && (s.pcs[i].EnqLoad? || s.pcs[i].EnqHead? || s.pcs[i].EnqSwap?) && s.pcs[i].t == t && ProdTicket(s'.pcs[i]) != t
  }

  lemma {:induction false} DropStep(g: Geometry, s: State, s': State, i: nat, t: nat)
    requires Inv(g, s) && i < |s.pcs| && Step(g, s, s', i) && Drops(s, s', i, t)
    ensures s.head > t || CellAt(g, s, t).occ
  {
    assert PcOk(g, s, s.pcs[i]);
    assert t !in s.enq && t >= g.Cells();
    if !CellAt(g, s, t).occ && CellAt(g, s, t).cycle >= Cycle(g, t) {
      CyclePassed(g, s, t);
    }
    hide Inv, Map, Cycle, PcOk, TakenOut, RefusedIn, SameEntry, Looked;
  }

  /** An empty cell with the cycle of ticket `t` or a later one has seen the consumer of that ticket. */
  lemma {:induction false} CyclePassed(g: Geometry, s: State, t: nat)
    requires Inv(g, s) && !CellAt(g, s, t).occ && CellAt(g, s, t).cycle >= Cycle(g, t) && t >= g.Cells()
    ensures s.head > t
  {
    MapBijection(g, t, t);
    CycleBounds(g, t);
    var j := Map(g, t);
    assert CellOk(g, s, j);
    var l := s.last[j];
    if l != 0 {
      TicketOrder(g, l, t);
    }
  }

  /** In every run, a producer drops a ticket only when its cell holds a pointer, or the head has passed the ticket. */
  lemma {:induction false} DropOnly(g: Geometry, run: seq<State>, threads: nat, k: nat, i: nat, t: nat)
    requires Run(g, run, threads) && 0 < k < |run| && Drops(run[k - 1], run[k], i, t)
    ensures Shaped(g, run[k - 1]) && (run[k - 1].head > t || CellAt(g, run[k - 1], t).occ)
  {
    hide Step, Inv;
    RunInv(g, run, threads, k - 1);
    InvShaped(g, run[k - 1]);
    assert Next(g, run[k - 1], run[k]);
    var j: nat :| j < |run[k - 1].pcs| && Step(g, run[k - 1], run[k], j);
    OthersStay(g, run[k - 1], run[k], j);
    DropStep(g, run[k - 1], run[k], i, t);
  }

  /** A thread is about to report that it found the ring empty, having seen no tail ticket beyond its own. */
  predicate Catching(pc: Pc) {
    pc.CatchSwap? || pc.CatchHead? || pc.CatchTail? || pc.DeqLast?
  }

  /** Thread `i` is in a call, and looks at the tail: its head ticket is at or beyond it. */
  ghost predicate SawTail(s: State, i: nat) {
    i < |s.pcs| && s.pcs[i].DeqTail? && s.tail <= s.pcs[i].h + 1
  }

  lemma {:induction false} CatchStart(g: Geometry, s: State, s': State, i: nat)
    requires Shaped(g, s) && i < |s.pcs| == |s'.pcs| && Step(g, s, s', i) && Catching(s'.pcs[i])
    ensures Catching(s.pcs[i]) || SawTail(s, i)
  {
    hide CellAt, Won, TakenOut, RefusedIn, EnqDecide, EnqMiss, SameEntry, Looked, Cycle;
    if s.pcs[i].DeqLoad? || s.pcs[i].DeqSwap? {
      LookedOn(g, s, i, s.pcs[i].h);
    } else if s.pcs[i].EnqLoad? || s.pcs[i].EnqSwap? || s.pcs[i].EnqHead? {
      DecideOn(g, s.pcs[i].v, s.pcs[i].c, s.pcs[i].t, CellAt(g, s, s.pcs[i].t));
    }
  }

  lemma {:induction false} LookedOn(g: Geometry, s: State, i: nat, h: nat)
    requires Shaped(g, s) && i < |s.pcs|
    ensures var pc := Looked(g, s, i, h).pcs[i]; pc.DeqTake? || pc.DeqSwap? || pc.DeqTail?
  {
    hide CellAt, Cycle;
  }

  lemma {:induction false} DecideOn(g: Geometry, v: int, c: int, t: nat, p: Cell)
    requires g.Valid()
    ensures var pc := EnqDecide(g, v, c, t, p); pc.EnqSwap? || pc.EnqHead? || pc.EnqRefresh? || pc.EnqTicket?
    ensures var pc := EnqMiss(g, v, c, t); pc.EnqRefresh? || pc.EnqTicket?
  {
    hide Cycle;
  }

  /** Threads `i` moves on from the tail it looked at in state `j` of the run, and stays in the call up to state `k`. */
  lemma {:induction false} CatchFrom(g: Geometry, run: seq<State>, threads: nat, k: nat, i: nat) returns (j: nat)
    requires Run(g, run, threads) && k < |run| && i < |run[k].pcs| && Catching(run[k].pcs[i])
    ensures j < k && SawTail(run[j], i) && forall m :: j < m <= k ==> i < |run[m].pcs| && Catching(run[m].pcs[i])
    decreases k
  {
    hide Step, Shaped, Catching, SawTail;
    if k == 0 {
      assert run[0] == Init(g, threads);
      NotAtFirst(g, threads, i);
    } else {
      assert Next(g, run[k - 1], run[k]);
      var m: nat :| m < |run[k - 1].pcs| && Step(g, run[k - 1], run[k], m);
      OthersStay(g, run[k - 1], run[k], m);
      if m == i {
        CatchStart(g, run[k - 1], run[k], i);
      }
      if Catching(run[k - 1].pcs[i]) {
        j := CatchFrom(g, run, threads, k - 1, i);
      } else {
        j := k - 1;
      }
    }
  }

  lemma {:induction false} NotAtFirst(g: Geometry, threads: nat, i: nat)
    requires g.Valid() && i < |Init(g, threads).pcs|
    ensures !Catching(Init(g, threads).pcs[i])
  {
  }

  /** A dequeue finds the ring empty. */
  ghost predicate FindsNone(s: State, s': State, i: nat) {
    i < |s.pcs| == |s'.pcs| && s'.pcs[i].DeqDone? && !s'.pcs[i].got && s.pcs[i] != s'.pcs[i]
  }

  lemma {:induction false} NoneStep(g: Geometry, s: State, s': State, i: nat, j: nat)
    requires Shaped(g, s) && i < |s.pcs| && Step(g, s, s', i) && FindsNone(s, s', j)
    ensures j == i && (Catching(s.pcs[i]) || (s.pcs[i].DeqStart? && s.threshold < 0)
                       || (s.pcs[i].DeqAgain? && s.threshold <= 0))
  {
    OthersStay(g, s, s', i);
    hide CellAt, Won, TakenOut, RefusedIn, EnqDecide, EnqMiss, SameEntry, Looked, Cycle;
    if s.pcs[i].DeqLoad? || s.pcs[i].DeqSwap? {
      LookedOn(g, s, i, s.pcs[i].h);
    } else if s.pcs[i].EnqLoad? || s.pcs[i].EnqSwap? || s.pcs[i].EnqHead? {
      DecideOn(g, s.pcs[i].v, s.pcs[i].c, s.pcs[i].t, CellAt(g, s, s.pcs[i].t));
    }
  }

  /**
   * In every run, a dequeue finds the ring empty only when the threshold is negative at its start, or has run out, or
   * when in state `j`, in the same call, the tail was not beyond the head ticket of the thread.
   */
  lemma {:induction false} NoneOnly(g: Geometry, run: seq<State>, threads: nat, k: nat, i: nat) returns (j: nat)
    requires Run(g, run, threads) && 0 < k < |run| && FindsNone(run[k - 1], run[k], i)
    ensures j < k && i < |run[j].pcs|
    ensures SawTail(run[j], i) || (j == k - 1 && run[j].pcs[i].DeqStart? && run[j].threshold < 0)
         || (j == k - 1 && run[j].pcs[i].DeqAgain? && run[j].threshold <= 0)
    ensures forall m :: j < m < k ==> i < |run[m].pcs| && Catching(run[m].pcs[i])
  {
    hide Step, Shaped, Catching, SawTail;
    assert Next(g, run[k - 1], run[k]);
    var m: nat :| m < |run[k - 1].pcs| && Step(g, run[k - 1], run[k], m);
    NoneStep(g, run[k - 1], run[k], m, i);
    if Catching(run[k - 1].pcs[i]) {
      j := CatchFrom(g, run, threads, k - 1, i);
      SawBusy(run[j], i);
    } else {
      j := k - 1;
    }
  }

  lemma {:induction false} SawBusy(s: State, i: nat)
    requires SawTail(s, i)
    ensures i < |s.pcs|
  {
  }

  // ---------- A thread left alone finishes its call ----------

  predicate Returned(pc: Pc) {
    pc.EnqDone? || pc.DeqDone?
  }

  /** What `n` more turns of the loop of an enqueue may take. */
  function Turns(n: int): nat {
    if n > 0 then 20 * n + 20 else 20
  }

  /** What is left to do after ticket `t`, when its cell is not available. */
  function Missed(g: Geometry, s: State, t: int): nat {
    if t + 1 < s.head + g.Cells() then Turns(s.head + g.Cells() - s.tail) else 0
  }

  /** What `n` more turns of the loop of a dequeue may take. */
  function Tries(n: int): nat {
    if n > 0 then 40 * n else 0
  }

  /** A bound on the steps that thread `i` needs to finish its call, when it is alone. */
  ghost function Work(g: Geometry, s: State, pc: Pc): nat
    requires Shaped(g, s)
  {
    match pc
    case EnqStart(_, _) => Turns(s.head + g.Cells() - s.tail) + 2
    case EnqCheck(_, _) => Turns(s.head + g.Cells() - s.tail) + 1
    case EnqTicket(_, _) => Turns(s.head + g.Cells() - s.tail)
    case EnqLoad(_, _, t) => Missed(g, s, t) + 10
    case EnqHead(_, _, t, p) => Missed(g, s, t) + if p == CellAt(g, s, t) then 4 else 8
    case EnqSwap(_, _, t, p) => Missed(g, s, t) + if p == CellAt(g, s, t) then 3 else 7
    case EnqRefresh(_, t) => Missed(g, s, t) + 1
    case EnqThreshold => 2
    case EnqStore => 1
    case DeqStart => Tries(s.threshold) + 31
    case DeqTicket => Tries(s.threshold) + 30
    case DeqLoad(_) => Tries(s.threshold) + 20
    case DeqTake(_) => Tries(s.threshold) + 5
    case DeqSwap(h, p) => Tries(s.threshold) + if SameEntry(CellAt(g, s, h), p) then 10 else 15
    case DeqTail(_) => Tries(s.threshold) + 9
    case CatchSwap(tl, _) => Tries(s.threshold) + if s.tail == tl then 3 else 7
    case CatchHead => Tries(s.threshold) + 6
    case CatchTail(_) => Tries(s.threshold) + 5
    case DeqLast => Tries(s.threshold) + 2
    case DeqAgain => Tries(s.threshold) + 1
    case _ => 0
  }

  /** Deciding on what was just read. */
  lemma {:induction false} WorkDecide(g: Geometry, s: State, i: nat, v: int, c: int, t: nat)
    requires Shaped(g, s) && i < |s.pcs| && c <= s.head
    ensures var s' := Moved(s, i, EnqDecide(g, v, c, t, CellAt(g, s, t)));
            s'.pcs[i] != Idle && Work(g, s', s'.pcs[i]) <= Missed(g, s, t) + 4
    ensures var s' := Moved(s, i, EnqMiss(g, v, c, t));
            s'.pcs[i] != Idle && Work(g, s', s'.pcs[i]) <= Missed(g, s, t) + 1
  {
    hide Cycle, Map;
  }

  lemma {:induction false} WorkLooked(g: Geometry, s: State, i: nat, h: nat)
    requires Shaped(g, s) && i < |s.pcs|
    ensures var s' := Looked(g, s, i, h);
            s'.pcs[i] != Idle && Shaped(g, s') && Work(g, s', s'.pcs[i]) <= Tries(s.threshold) + 10
  {
    hide Cycle, Map;
  }

  lemma {:induction false} WorkEnq(g: Geometry, s: State, i: nat)
    requires Shaped(g, s) && i < |s.pcs| && Aim(s, s.pcs[i]) && !s.pcs[i].EnqDone?
    requires s.pcs[i].EnqStart? || s.pcs[i].EnqCheck? || s.pcs[i].EnqTicket? || s.pcs[i].EnqLoad? || s.pcs[i].EnqHead?
          || s.pcs[i].EnqSwap? || s.pcs[i].EnqRefresh? || s.pcs[i].EnqThreshold? || s.pcs[i].EnqStore?
    ensures var s' := Plain(g, s, i); s'.pcs[i] != Idle && Work(g, s', s'.pcs[i]) < Work(g, s, s.pcs[i])
  {
    hide Cycle, Map, Won, TakenOut, RefusedIn, Looked, EnqDecide, EnqMiss;
    var pc := s.pcs[i];
    if pc.EnqLoad? || pc.EnqSwap? || pc.EnqHead? {
      WorkDecide(g, s, i, pc.v, pc.c, pc.t);
    }
  }

  lemma {:induction false} WorkTicket(g: Geometry, s: State, i: nat)
    requires Shaped(g, s) && i < |s.pcs|
    requires s.pcs[i].DeqStart? || s.pcs[i].DeqTicket? || s.pcs[i].DeqLoad? || s.pcs[i].DeqTake? || s.pcs[i].DeqSwap?
    ensures var s' := Plain(g, s, i); s'.pcs[i] != Idle && Work(g, s', s'.pcs[i]) < Work(g, s, s.pcs[i])
  {
    hide Cycle, Map, Won, TakenOut, RefusedIn, Looked, EnqDecide, EnqMiss, CellAt;
    var pc := s.pcs[i];
    if pc.DeqLoad? || pc.DeqSwap? {
      WorkLooked(g, s, i, pc.h);
    }
  }

  lemma {:induction false} WorkCatch(g: Geometry, s: State, i: nat)
    requires Shaped(g, s) && i < |s.pcs|
    requires s.pcs[i].DeqTail? || s.pcs[i].CatchSwap? || s.pcs[i].CatchHead? || s.pcs[i].CatchTail?
    ensures var s' := Plain(g, s, i); s'.pcs[i] != Idle && Work(g, s', s'.pcs[i]) < Work(g, s, s.pcs[i])
  {
    hide Cycle, Map, Won, TakenOut, RefusedIn, Looked, EnqDecide, EnqMiss, CellAt, Tries;
  }

  lemma {:induction false} WorkCount(g: Geometry, s: State, i: nat)
    requires Shaped(g, s) && i < |s.pcs| && (s.pcs[i].DeqLast? || s.pcs[i].DeqAgain?)
    ensures var s' := Plain(g, s, i); s'.pcs[i] != Idle && Work(g, s', s'.pcs[i]) < Work(g, s, s.pcs[i])
  {
    hide Cycle, Map, Won, TakenOut, RefusedIn, Looked, EnqDecide, EnqMiss, CellAt;
  }

  /** The run goes on with steps of thread `i` alone. */
  ghost predicate GoesOn(run: seq<State>, run': seq<State>, i: nat) {
    && 0 < |run| <= |run'| && run'[..|run|] == run && i < |run[|run| - 1].pcs|
    && forall k :: |run| <= k < |run'| ==> OnlyMoves(run[|run| - 1], run'[k], i)
  }

  /** The other threads are where they were. */
  ghost predicate OnlyMoves(s: State, s': State, i: nat) {
    |s'.pcs| == |s.pcs| && forall j :: 0 <= j < |s.pcs| && j != i ==> s'.pcs[j] == s.pcs[j]
  }

  lemma {:induction false} OneMore(g: Geometry, run: seq<State>, threads: nat, i: nat) returns (run': seq<State>)
    requires Run(g, run, threads) && Shaped(g, run[|run| - 1]) && i < |run[|run| - 1].pcs|
    requires run[|run| - 1].pcs[i] != Idle
    ensures Run(g, run', threads) && run' == run + [Plain(g, run[|run| - 1], i)]
  {
    hide Plain, Fails, Calls, Shaped;
    var s := run[|run| - 1];
    run' := run + [Plain(g, s, i)];
    assert Step(g, s, Plain(g, s, i), i);
    forall k | 0 < k < |run'| ensures Next(g, run'[k - 1], run'[k]) {
      if k < |run| {
        assert Next(g, run[k - 1], run[k]);
      }
    }
  }

  lemma {:induction false} ReturnsWithin(g: Geometry, run: seq<State>, threads: nat, i: nat, n: nat)
    returns (run': seq<State>)
    requires Run(g, run, threads) && i < |run[|run| - 1].pcs| && run[|run| - 1].pcs[i] != Idle
    requires Shaped(g, run[|run| - 1]) && Work(g, run[|run| - 1], run[|run| - 1].pcs[i]) <= n
    ensures Run(g, run', threads) && GoesOn(run, run', i) && Returned(run'[|run'| - 1].pcs[i])
    ensures |run'| - |run| <= n
    decreases n
  {
    hide Work, Plain, Inv, Aim, Step, Shaped;
    var s := run[|run| - 1];
    AimsAlways(g, run, threads, |run| - 1);
    run' := run;
    if !Returned(s.pcs[i]) {
      WorkDown(g, s, i);
      var longer := OneMore(g, run, threads, i);
      run' := ReturnsWithin(g, longer, threads, i, n - 1);
      assert run'[..|run|] == longer[..|run|];
    }
  }

  /**
   * From every state of every run, a thread that is left alone in a call returns from it, after a number of steps that
   * the state bounds, unless an exchange fails on the expected value.
   */
  lemma {:induction false} AloneReturns(g: Geometry, run: seq<State>, threads: nat, i: nat) returns (run': seq<State>)
    requires Run(g, run, threads) && i < |run[|run| - 1].pcs| && run[|run| - 1].pcs[i] != Idle
    ensures Run(g, run', threads) && GoesOn(run, run', i) && Returned(run'[|run'| - 1].pcs[i])
    ensures Shaped(g, run[|run| - 1])
    ensures |run'| - |run| <= Work(g, run[|run| - 1], run[|run| - 1].pcs[i])
  {
    hide Work, Inv, Shaped;
    RunInv(g, run, threads, |run| - 1);
    InvShaped(g, run[|run| - 1]);
    run' := ReturnsWithin(g, run, threads, i, Work(g, run[|run| - 1], run[|run| - 1].pcs[i]));
  }

  lemma {:induction false} WorkDown(g: Geometry, s: State, i: nat)
    requires Shaped(g, s) && Aims(s) && i < |s.pcs| && s.pcs[i] != Idle && !Returned(s.pcs[i])
    ensures var s' := Plain(g, s, i); s'.pcs[i] != Idle && Work(g, s', s'.pcs[i]) < Work(g, s, s.pcs[i])
  {
    hide Work, Plain, Aim;
    var pc := s.pcs[i];
    if pc.EnqStart? || pc.EnqCheck? || pc.EnqTicket? || pc.EnqLoad? || pc.EnqHead?
      || pc.EnqSwap? || pc.EnqRefresh? || pc.EnqThreshold? || pc.EnqStore? {
      WorkEnq(g, s, i);
    } else if pc.DeqTail? || pc.CatchSwap? || pc.CatchHead? || pc.CatchTail? {
      WorkCatch(g, s, i);
    } else if pc.DeqLast? || pc.DeqAgain? {
      WorkCount(g, s, i);
    } else {
      WorkTicket(g, s, i);
    }
  }

  // ---------- Calls may be made, and go on trying ----------

  /** An idle thread may enqueue any pointer, with any head seen so far in its cursor, and may dequeue. */
  lemma {:induction false} MayCall(g: Geometry, run: seq<State>, threads: nat, i: nat, v: int, c: int)
    returns (enq: seq<State>, deq: seq<State>)
    requires Run(g, run, threads) && i < |run[|run| - 1].pcs| && run[|run| - 1].pcs[i] == Idle
    requires c <= run[|run| - 1].head
    ensures Run(g, enq, threads) && enq == run + [Moved(run[|run| - 1], i, EnqStart(v, c))]
    ensures Run(g, deq, threads) && deq == run + [Moved(run[|run| - 1], i, DeqStart)]
  {
    hide Plain, Fails, Inv, Shaped;
    RunInv(g, run, threads, |run| - 1);
    InvShaped(g, run[|run| - 1]);
    var s := run[|run| - 1];
    enq, deq := run + [Moved(s, i, EnqStart(v, c))], run + [Moved(s, i, DeqStart)];
    assert Step(g, s, Moved(s, i, EnqStart(v, c)), i) && Step(g, s, Moved(s, i, DeqStart), i);
    forall k | 0 < k <= |run| ensures Next(g, enq[k - 1], enq[k]) && Next(g, deq[k - 1], deq[k]) {
      if k < |run| {
        assert Next(g, run[k - 1], run[k]);
      }
    }
  }

  /** A thread goes to take another ticket. */
  ghost predicate GoesForTicket(s: State, s': State, i: nat) {
    i < |s.pcs| == |s'.pcs| && s.pcs[i] != s'.pcs[i] && (s'.pcs[i].EnqTicket? || s'.pcs[i].DeqTicket?)
  }

  /** The tail ticket that a producer has seen or held last. */
  function Reached(pc: Pc, tail: nat): nat {
    match pc
    case EnqCheck(_, t) => t
    case EnqLoad(_, _, t) => t + 1
    case EnqHead(_, _, t, _) => t + 1
    case EnqSwap(_, _, t, _) => t + 1
    case EnqRefresh(_, t) => t + 1
    case _ => tail
  }

  lemma {:induction false} DecideTicket(g: Geometry, v: int, c: int, t: nat, p: Cell)
    requires g.Valid()
    ensures EnqDecide(g, v, c, t, p).EnqTicket? || EnqMiss(g, v, c, t).EnqTicket? ==> t + 1 < c + g.Cells()
  {
    hide Cycle;
  }

  /** A step does not turn a consumer into a producer. */
  lemma {:induction false} Producing(g: Geometry, s: State, s': State, i: nat)
    requires Shaped(g, s) && i < |s.pcs| == |s'.pcs| && Step(g, s, s', i) && s'.pcs[i].EnqTicket?
    ensures s.pcs[i].EnqStart? || s.pcs[i].EnqCheck? || s.pcs[i].EnqLoad? || s.pcs[i].EnqHead? || s.pcs[i].EnqSwap?
         || s.pcs[i].EnqRefresh?
  {
    hide CellAt, Won, TakenOut, RefusedIn, SameEntry, Looked, EnqDecide, EnqMiss;
    if s.pcs[i].DeqLoad? || s.pcs[i].DeqSwap? {
      LookedOn(g, s, i, s.pcs[i].h);
    }
  }

  lemma {:induction false} EnqTicketStep(g: Geometry, s: State, s': State, i: nat)
    requires Shaped(g, s) && i < |s.pcs| == |s'.pcs| && Step(g, s, s', i) && Aim(s, s.pcs[i]) && s'.pcs[i].EnqTicket?
    ensures Reached(s.pcs[i], s.tail) < s.head + g.Cells()
  {
    Producing(g, s, s', i);
    hide CellAt, Won, TakenOut, RefusedIn, SameEntry, Looked, EnqDecide, EnqMiss;
    if s.pcs[i].EnqLoad? || s.pcs[i].EnqSwap? || s.pcs[i].EnqHead? {
      DecideTicket(g, s.pcs[i].v, s.pcs[i].c, s.pcs[i].t, CellAt(g, s, s.pcs[i].t));
    }
  }

  lemma {:induction false} DeqTicketStep(g: Geometry, s: State, s': State, i: nat)
    requires Shaped(g, s) && i < |s.pcs| == |s'.pcs| && Step(g, s, s', i) && s'.pcs[i].DeqTicket?
    ensures (s.pcs[i].DeqStart? && s.threshold >= 0) || (s.pcs[i].DeqAgain? && s.threshold > 0)
  {
    hide CellAt, Won, TakenOut, RefusedIn, SameEntry, Looked, EnqDecide, EnqMiss;
    if s.pcs[i].DeqLoad? || s.pcs[i].DeqSwap? {
      LookedOn(g, s, i, s.pcs[i].h);
    } else if s.pcs[i].EnqLoad? || s.pcs[i].EnqSwap? || s.pcs[i].EnqHead? {
      DecideOn(g, s.pcs[i].v, s.pcs[i].c, s.pcs[i].t, CellAt(g, s, s.pcs[i].t));
    }
  }

  /**
   * In every run, a producer goes for a ticket only when fewer tickets than there are cells lie between the head and
   * the tail it has seen, and a consumer only while the threshold lasts.
   */
  lemma {:induction false} TicketOnly(g: Geometry, run: seq<State>, threads: nat, k: nat, i: nat)
    requires Run(g, run, threads) && 0 < k < |run| && GoesForTicket(run[k - 1], run[k], i)
    ensures var s, pc := run[k - 1], run[k].pcs[i];
            if pc.EnqTicket? then Reached(s.pcs[i], s.tail) < s.head + g.Cells()
            else (s.pcs[i].DeqStart? && s.threshold >= 0) || (s.pcs[i].DeqAgain? && s.threshold > 0)
  {
    hide Step, Reached;
    AimsAlways(g, run, threads, k - 1);
    assert Next(g, run[k - 1], run[k]);
    var j: nat :| j < |run[k - 1].pcs| && Step(g, run[k - 1], run[k], j);
    OthersStay(g, run[k - 1], run[k], j);
    if run[k].pcs[i].EnqTicket? {
      EnqTicketStep(g, run[k - 1], run[k], i);
    } else {
      DeqTicketStep(g, run[k - 1], run[k], i);
    }
  }

  // ---------- The threshold ----------

  /** A consumer has given up on its ticket, and not yet counted the threshold down. */
  predicate Owes(pc: Pc) {
    Catching(pc) || pc.DeqTail? || pc.DeqAgain?
  }

  function Debts(pcs: seq<Pc>): nat {
    if pcs == [] then 0 else (if Owes(pcs[0]) then 1 else 0) + Debts(pcs[1..])
  }

  lemma {:induction false} DebtsSet(pcs: seq<Pc>, i: nat, pc: Pc)
    requires i < |pcs|
    ensures Debts(pcs[i := pc]) - (if Owes(pc) then 1 else 0) == Debts(pcs) - (if Owes(pcs[i]) then 1 else 0)
  {
    hide Owes;
    if i > 0 {
      assert pcs[i := pc][1..] == pcs[1..][i - 1 := pc];
      DebtsSet(pcs[1..], i - 1, pc);
    } else {
      assert pcs[i := pc][1..] == pcs[1..];
    }
  }

  /** The threshold, and what it has been or will be counted down by. */
  function Balance(s: State): int {
    s.threshold + |s.given| - Debts(s.pcs)
  }

  /** Giving up on head ticket `h`: the ticket is recorded, and the thread owes. */
  lemma {:induction false} BalanceLooked(g: Geometry, s: State, i: nat, h: nat)
    requires Shaped(g, s) && i < |s.pcs| && h !in s.given && !Owes(s.pcs[i])
    ensures Balance(Looked(g, s, i, h)) == Balance(s)
  {
    hide CellAt, Cycle;
    DebtsSet(s.pcs, i, DeqDecide(g, h, CellAt(g, s, h)));
    hide Debts;
  }

  lemma {:induction false} BalanceRefused(g: Geometry, s: State, i: nat, h: nat)
    requires Shaped(g, s) && i < |s.pcs| && h !in s.given && !Owes(s.pcs[i])
    ensures Balance(Moved(RefusedIn(g, s, h), i, DeqTail(h))) == Balance(s)
  {
    DebtsSet(s.pcs, i, DeqTail(h));
    hide Debts, CellAt, Refused;
    assert RefusedIn(g, s, h).given == s.given + {h};
  }

  /** Steps of threads that have no ticket to give up. */
  lemma {:induction false} BalanceOther(g: Geometry, s: State, i: nat)
    requires Shaped(g, s) && i < |s.pcs| && !s.pcs[i].EnqStore? && !s.pcs[i].DeqLoad? && !s.pcs[i].DeqSwap?
    ensures Balance(Plain(g, s, i)) == Balance(s)
  {
    hide CellAt, Looked, SameEntry, EnqDecide, EnqMiss, Debts, RefusedIn;
    DebtsSet(s.pcs, i, Plain(g, s, i).pcs[i]);
    var pc := s.pcs[i];
    if pc.EnqLoad? || pc.EnqSwap? || pc.EnqHead? {
      DecideOn(g, pc.v, pc.c, pc.t, CellAt(g, s, pc.t));
      assert Won(g, s, pc.t, pc.v).given == s.given;
    } else if pc.DeqTake? {
      assert TakenOut(g, s, pc.h).given == s.given;
    }
  }

  lemma {:induction false} BalanceFails(g: Geometry, s: State, s': State, i: nat)
    requires Shaped(g, s) && i < |s.pcs| && Fails(g, s, s', i) && !s.pcs[i].DeqSwap?
    ensures Balance(s') == Balance(s)
  {
    hide CellAt, EnqDecide, EnqMiss, Debts;
    DebtsSet(s.pcs, i, s'.pcs[i]);
    var pc := s.pcs[i];
    if pc.EnqSwap? {
      DecideOn(g, pc.v, pc.c, pc.t, CellAt(g, s, pc.t));
    }
  }

  lemma {:induction false} BalanceCall(s: State, s': State, i: nat)
    requires i < |s.pcs| && s.pcs[i] == Idle && Calls(s, s', i)
    ensures Balance(s') == Balance(s)
  {
    hide Debts;
    DebtsSet(s.pcs, i, s'.pcs[i]);
  }

  /** Every ticket that is given up costs one unit of the threshold, and nothing else does; an enqueue may reset it. */
  lemma {:induction false} BalanceStep(g: Geometry, s: State, s': State, i: nat)
    requires Inv(g, s) && i < |s.pcs| && Step(g, s, s', i)
    ensures if s.pcs[i].EnqStore? then s'.threshold == 2 * g.Cells() - 1 else Balance(s') == Balance(s)
  {
    var pc := s.pcs[i];
    if pc.DeqLoad? || pc.DeqSwap? {
      assert pc.h !in s.given;
      hide Inv, Balance, Looked, RefusedIn, SameEntry;
      BalanceLooked(g, s, i, pc.h);
      BalanceRefused(g, s, i, pc.h);
    } else {
      hide Inv, Balance, Calls, Fails;
      InvShaped(g, s);
      if pc == Idle {
        BalanceCall(s, s', i);
      } else if Fails(g, s, s', i) {
        FailsAt(g, s, s', i);
        BalanceFails(g, s, s', i);
      } else if !pc.EnqStore? {
        hide Plain;
        BalanceOther(g, s, i);
      }
    }
  }

  lemma {:induction false} FailsAt(g: Geometry, s: State, s': State, i: nat)
    requires Shaped(g, s) && i < |s.pcs| && Fails(g, s, s', i)
    ensures s.pcs[i].EnqSwap? || s.pcs[i].DeqSwap? || s.pcs[i].CatchSwap?
  {
  }

  /** The threshold is reset to 2n - 1. */
  ghost predicate Resets(s: State, s': State) {
    exists i :: 0 <= i < |s.pcs| == |s'.pcs| && s.pcs[i].EnqStore? && s'.pcs[i] != s.pcs[i]
  }

  /** In every run, between two resets, the threshold falls by the number of tickets given up and counted. */
  lemma {:induction false} ThresholdFalls(g: Geometry, run: seq<State>, threads: nat, j: nat, k: nat)
    requires Run(g, run, threads) && j <= k < |run|
    requires forall m :: j < m <= k ==> !Resets(run[m - 1], run[m])
    ensures Balance(run[k]) == Balance(run[j])
    decreases k
  {
    hide Step, Inv, Resets, Balance;
    if j < k {
      ThresholdFalls(g, run, threads, j, k - 1);
      RunInv(g, run, threads, k - 1);
      InvShaped(g, run[k - 1]);
      assert Next(g, run[k - 1], run[k]);
      var i: nat :| i < |run[k - 1].pcs| && Step(g, run[k - 1], run[k], i);
      OthersStay(g, run[k - 1], run[k], i);
      if run[k - 1].pcs[i].EnqStore? {
        StoreResets(g, run[k - 1], run[k], i);
      }
      BalanceStep(g, run[k - 1], run[k], i);
    }
  }

  lemma {:induction false} StoreResets(g: Geometry, s: State, s': State, i: nat)
    requires Shaped(g, s) && i < |s.pcs| == |s'.pcs| && s.pcs[i].EnqStore? && Step(g, s, s', i)
    ensures Resets(s, s')
  {
    assert s'.pcs[i] == EnqDone(true);
  }

  /** A dequeue goes on because the tail is beyond its ticket. */
  lemma {:induction false} AgainOnly(g: Geometry, s: State, s': State, i: nat)
    requires Shaped(g, s) && i < |s.pcs| == |s'.pcs| && Step(g, s, s', i)
    requires s'.pcs[i].DeqAgain? && !s.pcs[i].DeqAgain?
    ensures s.pcs[i].DeqTail? && s.tail > s.pcs[i].h + 1
  {
    hide CellAt, Won, TakenOut, RefusedIn, SameEntry, Looked, EnqDecide, EnqMiss;
    if s.pcs[i].DeqLoad? || s.pcs[i].DeqSwap? {
      LookedOn(g, s, i, s.pcs[i].h);
    } else if s.pcs[i].EnqLoad? || s.pcs[i].EnqSwap? || s.pcs[i].EnqHead? {
      DecideOn(g, s.pcs[i].v, s.pcs[i].c, s.pcs[i].t, CellAt(g, s, s.pcs[i].t));
    }
  }
}
