/** The calls made on the ring of include/evl/ring_ptr.h: what each one was asked, and what it did. */
module RingCalls {
  import opened RingMap
  import opened RingSteps
  import opened RingSafety

  datatype Request = Enqueue(v: int) | Dequeue

  datatype Reply = Pending | Done | Full | Got(v: int) | Empty

  /** A call, its reply so far, and the tickets whose pointers were stored or delivered by it. */
  datatype Call = Call(request: Request, reply: Reply, stored: set<int>, taken: set<int>)

  /** All calls, in the order in which they started, and the last call of each thread. */
  datatype Log = Log(calls: seq<Call>, cur: seq<nat>)

  function ReplyOf(pc: Pc, reply: Reply): Reply {
    match pc
    case EnqDone(ok) => if ok then Done else Full
    case DeqDone(got, v) => if got then Got(v) else Empty
    case _ => reply
  }

  /** What an observer notes of a step of thread `i`: a call, a return, tickets that are served. */
  ghost function Noted(s: State, s': State, i: nat, log: Log): Log
    requires i < |s.pcs| == |s'.pcs| == |log.cur|
  {
    if s.pcs[i] == Idle then
      var request := if s'.pcs[i].EnqStart? then Enqueue(s'.pcs[i].v) else Dequeue;
      Log(log.calls + [Call(request, Pending, {}, {})], log.cur[i := |log.calls|])
    else if log.cur[i] < |log.calls| then
      log.(calls := log.calls[log.cur[i] := Went(s, s', i, log.calls[log.cur[i]])])
    else log
  }

  ghost function Went(s: State, s': State, i: nat, c: Call): Call
    requires i < |s'.pcs|
  {
    Call(c.request, ReplyOf(s'.pcs[i], c.reply), c.stored + (s'.enq.Keys - s.enq.Keys),
         c.taken + (s'.deq.Keys - s.deq.Keys))
  }

  // ---------- What holds of the log ----------

  ghost predicate One(tickets: set<int>) {
    exists t :: tickets == {t}
  }

  /** The outcome of a call matches the pointers it stored or took. */
  ghost predicate CallOk(s: State, c: Call) {
    match c.request
    case Enqueue(v) =>
      && (forall t :: t in c.stored ==> t in s.enq && s.enq[t] == v) && c.taken == {}
      && match c.reply {
           case Pending => c.stored == {} || One(c.stored)
           case Done => One(c.stored)
           case Full => c.stored == {}
           case _ => false
         }
    case Dequeue =>
      && (forall h :: h in c.taken ==> h in s.deq) && c.stored == {}
      && match c.reply {
           case Got(v) => One(c.taken) && forall h :: h in c.taken ==> s.deq[h] == v
           case Pending => c.taken == {}
           case Empty => c.taken == {}
           case _ => false
         }
  }

  /** What a thread is about to do goes with the call it is in. */
  ghost predicate PcCall(pc: Pc, c: Call) {
    match pc
    case Idle => true
    case EnqStart(v, _) => c == Call(Enqueue(v), Pending, {}, {})
    case EnqCheck(v, _) => c == Call(Enqueue(v), Pending, {}, {})
    case EnqTicket(v, _) => c == Call(Enqueue(v), Pending, {}, {})
    case EnqLoad(v, _, _) => c == Call(Enqueue(v), Pending, {}, {})
    case EnqHead(v, _, _, _) => c == Call(Enqueue(v), Pending, {}, {})
    case EnqSwap(v, _, _, _) => c == Call(Enqueue(v), Pending, {}, {})
    case EnqRefresh(v, _) => c == Call(Enqueue(v), Pending, {}, {})
    case EnqThreshold => c.request.Enqueue? && c.reply == Pending && One(c.stored)
    case EnqStore => c.request.Enqueue? && c.reply == Pending && One(c.stored)
    case EnqDone(ok) => c.request.Enqueue? && c.reply == if ok then Done else Full
    case DeqDone(got, v) => c.request.Dequeue? && c.reply == if got then Got(v) else Empty
    case _ => c == Call(Dequeue, Pending, {}, {})
  }

  ghost predicate Current(s: State, log: Log) {
    && |log.cur| == |s.pcs|
    && (forall i :: 0 <= i < |s.pcs| && s.pcs[i] != Idle ==>
          log.cur[i] < |log.calls| && PcCall(s.pcs[i], log.calls[log.cur[i]]))
    && (forall i, j :: 0 <= i < j < |s.pcs| && s.pcs[i] != Idle && s.pcs[j] != Idle ==> log.cur[i] != log.cur[j])
  }

  ghost predicate CallsOk(s: State, calls: seq<Call>) {
    forall k :: 0 <= k < |calls| ==> CallOk(s, calls[k])
  }

  /** No ticket belongs to two calls. */
  ghost predicate Apart(calls: seq<Call>) {
    && (forall j, k, t :: 0 <= j < k < |calls| && t in calls[j].stored ==> t !in calls[k].stored)
    && (forall j, k, t :: 0 <= j < k < |calls| && t in calls[j].taken ==> t !in calls[k].taken)
  }

  ghost predicate StoredBy(calls: seq<Call>, t: int, k: int) {
    0 <= k < |calls| && t in calls[k].stored
  }

  ghost predicate TakenBy(calls: seq<Call>, t: int, k: int) {
    0 <= k < |calls| && t in calls[k].taken
  }

  /** Every ticket that was served belongs to a call. */
  ghost predicate Covered(s: State, calls: seq<Call>) {
    && (forall t :: t in s.enq ==> exists k :: StoredBy(calls, t, k))
    && (forall h :: h in s.deq ==> exists k :: TakenBy(calls, h, k))
  }

  ghost predicate LogInv(s: State, log: Log) {
    Current(s, log) && CallsOk(s, log.calls) && Apart(log.calls) && Covered(s, log.calls)
  }

  // ---------- One step ----------

  /** Records only grow. */
  ghost predicate Grows(s: State, s': State) {
    && (forall t :: t in s.enq ==> t in s'.enq && s'.enq[t] == s.enq[t])
    && (forall h :: h in s.deq ==> h in s'.deq && s'.deq[h] == s.deq[h])
  }

  lemma {:induction false} CallKept(s: State, s': State, c: Call)
    requires CallOk(s, c) && Grows(s, s')
    ensures CallOk(s', c)
  {
  }

  /** What follows within a call when no ticket is served. */
  lemma {:induction false} PcGoesOn(g: Geometry, s: State, i: nat, c: Call)
    requires Shaped(g, s) && i < |s.pcs| && s.pcs[i] != Idle && PcCall(s.pcs[i], c)
    requires !s.pcs[i].EnqSwap? && !s.pcs[i].DeqTake? && !s.pcs[i].EnqLoad? && !s.pcs[i].DeqSwap? && !s.pcs[i].DeqLoad?
    ensures var pc := Plain(g, s, i).pcs[i];
            PcCall(pc, c.(reply := ReplyOf(pc, c.reply))) && Fit(pc, c)
  {
    hide CellAt, Won, TakenOut, RefusedIn, SameEntry, EnqDecide, Looked;
  }

  /** The call of a thread that is now at `pc` has the reply it had, or returns. */
  ghost predicate Fit(pc: Pc, c: Call) {
    && (c.reply == Pending || pc == Idle)
    && (pc.EnqDone? ==> if pc.ok then One(c.stored) else c.stored == {}) && (pc.DeqDone? ==> !pc.got)
  }

  /** An element has been read. */
  lemma {:induction false} PcDecides(g: Geometry, s: State, i: nat, pc: Pc, c: Call)
    requires Shaped(g, s) && i < |s.pcs| && PcCall(s.pcs[i], c)
    requires match s.pcs[i]
             case EnqLoad(v, u, t) => pc == EnqDecide(g, v, u, t, CellAt(g, s, t))
             case EnqSwap(v, u, t, _) => pc == EnqDecide(g, v, u, t, CellAt(g, s, t))
             case DeqLoad(h) => pc == DeqDecide(g, h, CellAt(g, s, h))
             case DeqSwap(h, _) => pc == DeqDecide(g, h, CellAt(g, s, h)) || pc == DeqTail(h)
             case CatchSwap(_, _) => pc == CatchHead
             case _ => false
    ensures PcCall(pc, c.(reply := ReplyOf(pc, c.reply))) && Fit(pc, c)
  {
    hide CellAt, Cycle;
  }

  /** A step that serves no ticket. */
  lemma {:induction false} PcFollows(g: Geometry, s: State, s': State, i: nat, c: Call)
    requires Shaped(g, s) && i < |s.pcs| && Step(g, s, s', i) && s.pcs[i] != Idle && PcCall(s.pcs[i], c)
    requires s'.enq == s.enq && s'.deq == s.deq && CallOk(s, c) && !s.pcs[i].DeqTake?
    requires s.pcs[i].EnqSwap? ==> s.pcs[i].t !in s.enq
    ensures var c' := Went(s, s', i, c); PcCall(s'.pcs[i], c') && CallOk(s', c')
  {
    hide PcCall, CallOk, One;
    var pc := s.pcs[i];
    assert Went(s, s', i, c) == c.(reply := ReplyOf(s'.pcs[i], c.reply));
    hide Went;
    if pc.EnqSwap? || pc.EnqLoad? || pc.DeqLoad? || pc.DeqSwap? || Fails(g, s, s', i) {
      hide CellAt, EnqDecide, DeqDecide, Won, RefusedIn, TakenOut, ReplyOf, SameEntry;
      PcDecides(g, s, i, s'.pcs[i], c);
    } else {
      hide Plain;
      PcGoesOn(g, s, i, c);
    }
    ReplyOk(s, s', s'.pcs[i], c);
  }

  lemma {:induction false} ReplyOk(s: State, s': State, pc: Pc, c: Call)
    requires CallOk(s, c) && s'.enq == s.enq && s'.deq == s.deq
    requires PcCall(pc, c.(reply := ReplyOf(pc, c.reply)))
    requires Fit(pc, c)
    ensures CallOk(s', c.(reply := ReplyOf(pc, c.reply)))
  {
  }

  /** A producer wins ticket `t`. */
  lemma {:induction false} PcWins(g: Geometry, s: State, s': State, i: nat, c: Call)
    requires Shaped(g, s) && i < |s.pcs| && s.pcs[i].EnqSwap? && PcCall(s.pcs[i], c) && s.pcs[i].t !in s.enq
    requires s' == Moved(Won(g, s, s.pcs[i].t, s.pcs[i].v), i, EnqThreshold)
    ensures var c' := Went(s, s', i, c);
            PcCall(s'.pcs[i], c') && CallOk(s', c') && c' == c.(stored := {s.pcs[i].t})
  {
    hide Won;
    assert s'.enq.Keys - s.enq.Keys == {s.pcs[i].t};
  }

  /** A consumer takes the pointer of ticket `h`. */
  lemma {:induction false} PcTakes(g: Geometry, s: State, s': State, i: nat, c: Call)
    requires Shaped(g, s) && i < |s.pcs| && s.pcs[i].DeqTake? && PcCall(s.pcs[i], c) && s.pcs[i].h !in s.deq
    requires s' == Moved(TakenOut(g, s, s.pcs[i].h), i, DeqDone(true, CellAt(g, s, s.pcs[i].h).ptr))
    ensures var c' := Went(s, s', i, c);
            PcCall(s'.pcs[i], c') && CallOk(s', c') && c' == c.(reply := c'.reply, taken := {s.pcs[i].h})
  {
    hide TakenOut;
    assert s'.deq.Keys - s.deq.Keys == {s.pcs[i].h};
  }

  /** The other threads, and the thread itself, go with the log after the step. */
  lemma {:induction false} CurrentNext(s: State, s': State, i: nat, log: Log, c: Call)
    requires Current(s, log) && i < |s.pcs| == |s'.pcs| && s.pcs[i] != Idle && PcCall(s'.pcs[i], c)
    requires forall j :: 0 <= j < |s.pcs| && j != i ==> s'.pcs[j] == s.pcs[j]
    ensures Current(s', log.(calls := log.calls[log.cur[i] := c]))
  {
    hide PcCall;
  }

  lemma {:induction false} CallsNext(s: State, s': State, calls: seq<Call>, k: nat, c: Call)
    requires CallsOk(s, calls) && Grows(s, s') && k < |calls| && CallOk(s', c)
    ensures CallsOk(s', calls[k := c])
  {
    hide CallOk;
    forall j | 0 <= j < |calls| && j != k ensures CallOk(s', calls[j]) {
      CallKept(s, s', calls[j]);
    }
  }

  /** Tickets that are new belong to one call. */
  lemma {:induction false} TicketsNext(s: State, s': State, calls: seq<Call>, k: nat, c: Call)
    requires CallsOk(s, calls) && Apart(calls) && Covered(s, calls) && k < |calls|
    requires c.stored == calls[k].stored + (s'.enq.Keys - s.enq.Keys)
    requires c.taken == calls[k].taken + (s'.deq.Keys - s.deq.Keys)
    ensures Apart(calls[k := c]) && Covered(s', calls[k := c])
  {
    var calls' := calls[k := c];
    assert forall j, t :: 0 <= j < |calls| && t in calls[j].stored ==> t in s.enq;
    assert forall j, t :: 0 <= j < |calls| && t in calls[j].taken ==> t in s.deq;
    forall t | t in s'.enq ensures exists j :: StoredBy(calls', t, j) {
      if t in s.enq {
        var j :| StoredBy(calls, t, j);
        assert StoredBy(calls', t, j);
      } else {
        assert StoredBy(calls', t, k);
      }
    }
    forall h | h in s'.deq ensures exists j :: TakenBy(calls', h, j) {
      if h in s.deq {
        var j :| TakenBy(calls, h, j);
        assert TakenBy(calls', h, j);
      } else {
        assert TakenBy(calls', h, k);
      }
    }
  }

  lemma {:induction false} NewCall(s: State, s': State, i: nat)
    requires i < |s.pcs| && s.pcs[i] == Idle && Calls(s, s', i)
    ensures s'.enq == s.enq && s'.deq == s.deq && |s'.pcs| == |s.pcs| && s'.pcs == s.pcs[i := s'.pcs[i]]
    ensures var c := Call(if s'.pcs[i].EnqStart? then Enqueue(s'.pcs[i].v) else Dequeue, Pending, {}, {});
            PcCall(s'.pcs[i], c) && CallOk(s', c)
  {
  }

  lemma {:induction false} TicketsMore(s: State, calls: seq<Call>, c: Call)
    requires Apart(calls) && Covered(s, calls) && c.stored == {} && c.taken == {}
    ensures Apart(calls + [c]) && Covered(s, calls + [c])
  {
    forall t | t in s.enq ensures exists k :: StoredBy(calls + [c], t, k) {
      var k :| StoredBy(calls, t, k);
      assert StoredBy(calls + [c], t, k);
    }
    forall h | h in s.deq ensures exists k :: TakenBy(calls + [c], h, k) {
      var k :| TakenBy(calls, h, k);
      assert TakenBy(calls + [c], h, k);
    }
  }

  lemma {:induction false} CallsMore(s: State, s': State, calls: seq<Call>, c: Call)
    requires CallsOk(s, calls) && Grows(s, s') && CallOk(s', c)
    ensures CallsOk(s', calls + [c])
  {
    hide CallOk;
    forall j | 0 <= j < |calls| ensures CallOk(s', calls[j]) {
      CallKept(s, s', calls[j]);
    }
  }

  lemma {:induction false} CurrentMore(s: State, s': State, i: nat, log: Log, c: Call)
    requires Current(s, log) && i < |s.pcs| == |s'.pcs| && s'.pcs == s.pcs[i := s'.pcs[i]]
    requires PcCall(s'.pcs[i], c) && s.pcs[i] == Idle
    ensures Current(s', Log(log.calls + [c], log.cur[i := |log.calls|]))
  {
    hide PcCall;
    var calls' := log.calls + [c];
    assert forall k :: 0 <= k < |log.calls| ==> calls'[k] == log.calls[k];
  }

  /** A thread makes a call. */
  lemma {:induction false} StartNext(s: State, s': State, i: nat, log: Log)
    requires LogInv(s, log) && i < |s.pcs| && s.pcs[i] == Idle && Calls(s, s', i)
    ensures LogInv(s', Noted(s, s', i, log))
  {
    NewCall(s, s', i);
    hide CallOk, PcCall, Calls, Apart, Covered;
    var c := Call(if s'.pcs[i].EnqStart? then Enqueue(s'.pcs[i].v) else Dequeue, Pending, {}, {});
    CurrentMore(s, s', i, log, c);
    CallsMore(s, s', log.calls, c);
    TicketsMore(s, log.calls, c);
    SameTickets(s, s', log.calls + [c]);
  }

  lemma {:induction false} SameTickets(s: State, s': State, calls: seq<Call>)
    requires Covered(s, calls) && s'.enq == s.enq && s'.deq == s.deq
    ensures Covered(s', calls)
  {
  }

  /** A thread goes on with its call. */
  lemma {:induction false} CallNext(g: Geometry, s: State, s': State, i: nat, c: Call)
    requires Inv(g, s) && i < |s.pcs| == |s'.pcs| && Step(g, s, s', i) && s.pcs[i] != Idle
    requires PcCall(s.pcs[i], c) && CallOk(s, c)
    ensures var c' := Went(s, s', i, c); PcCall(s'.pcs[i], c') && CallOk(s', c')
  {
    hide PcCall, CallOk, Step, Went, CellsOk, Stored, Marks, Accounted, History, CellAt;
    Records(g, s, s', i);
    var pc := s.pcs[i];
    if pc.EnqSwap? {
      assert pc.t !in s.enq;
      if s'.enq != s.enq {
        PcWins(g, s, s', i, c);
      } else {
        PcFollows(g, s, s', i, c);
      }
    } else if pc.DeqTake? {
      assert pc.h !in s.deq;
      PcTakes(g, s, s', i, c);
    } else {
      PcFollows(g, s, s', i, c);
    }
  }

  lemma {:induction false} LogNext(g: Geometry, s: State, s': State, i: nat, log: Log)
    requires Inv(g, s) && LogInv(s, log) && i < |s.pcs| && Step(g, s, s', i)
    ensures |s'.pcs| == |s.pcs| && LogInv(s', Noted(s, s', i, log))
  {
    hide Inv, PcCall, CallOk, Apart, Covered, Calls, Plain, Fails;
    InvShaped(g, s);
    OthersStay(g, s, s', i);
    if s.pcs[i] == Idle {
      StartNext(s, s', i, log);
    } else {
      OneDelivery(g, s, s', i);
      var k := log.cur[i];
      CallNext(g, s, s', i, log.calls[k]);
      CurrentNext(s, s', i, log, Went(s, s', i, log.calls[k]));
      CallsNext(s, s', log.calls, k, Went(s, s', i, log.calls[k]));
      TicketsNext(s, s', log.calls, k, Went(s, s', i, log.calls[k]));
    }
  }

  // ---------- All runs ----------

  /** A run, the thread that makes each step, and the log after each step. */
  ghost predicate Logged(g: Geometry, run: seq<State>, threads: nat, movers: seq<nat>, logs: seq<Log>) {
    && Run(g, run, threads) && |movers| == |run| - 1 && |logs| == |run|
    && logs[0] == Log([], seq(threads, i => 0))
    && forall k :: 0 < k < |run| ==> LoggedStep(g, run[k - 1], run[k], movers[k - 1], logs[k - 1], logs[k])
  }

  ghost predicate LoggedStep(g: Geometry, s: State, s': State, i: nat, log: Log, log': Log) {
    && Shaped(g, s) && i < |s.pcs| == |s'.pcs| == |log.cur| && Step(g, s, s', i) && log' == Noted(s, s', i, log)
  }

  /** Every run has a log. */
  lemma {:induction false} LogOf(g: Geometry, run: seq<State>, threads: nat) returns (movers: seq<nat>, logs: seq<Log>)
    requires Run(g, run, threads)
    ensures Logged(g, run, threads, movers, logs)
  {
    hide Step, Shaped, Noted;
    movers, logs := [], [Log([], seq(threads, i => 0))];
    for n := 1 to |run|
      invariant |movers| == n - 1 && |logs| == n && |logs[n - 1].cur| == |run[n - 1].pcs|
      invariant logs[0] == Log([], seq(threads, i => 0))
      invariant forall k :: 0 < k < n ==> LoggedStep(g, run[k - 1], run[k], movers[k - 1], logs[k - 1], logs[k])
    {
      assert Next(g, run[n - 1], run[n]);
      var i: nat :| i < |run[n - 1].pcs| && Step(g, run[n - 1], run[n], i);
      OthersStay(g, run[n - 1], run[n], i);
      NotedSize(run[n - 1], run[n], i, logs[n - 1]);
      movers, logs := movers + [i], logs + [Noted(run[n - 1], run[n], i, logs[n - 1])];
    }
  }

  lemma {:induction false} NotedSize(s: State, s': State, i: nat, log: Log)
    requires i < |s.pcs| == |s'.pcs| == |log.cur|
    ensures |Noted(s, s', i, log).cur| == |log.cur|
  {
  }

  lemma {:induction false} LogAlways(g: Geometry, run: seq<State>, threads: nat, movers: seq<nat>, logs: seq<Log>,
                                     k: nat)
    requires Logged(g, run, threads, movers, logs) && k < |run|
    ensures LogInv(run[k], logs[k])
    decreases k
  {
    hide Inv, Step, Noted;
    if k > 0 {
      LogAlways(g, run, threads, movers, logs, k - 1);
      RunInv(g, run, threads, k - 1);
      assert LoggedStep(g, run[k - 1], run[k], movers[k - 1], logs[k - 1], logs[k]);
      LogNext(g, run[k - 1], run[k], movers[k - 1], logs[k - 1]);
    }
  }

  /** A call that returned true stored its own argument, for exactly one ticket; one that returned false stored none. */
  lemma {:induction false} EnqueueStores(g: Geometry, run: seq<State>, threads: nat, movers: seq<nat>, logs: seq<Log>,
                                         k: nat, j: nat)
    requires Logged(g, run, threads, movers, logs) && k < |run| && j < |logs[k].calls|
    requires logs[k].calls[j].request.Enqueue?
    ensures var c := logs[k].calls[j];
            && (c.reply == Done ==> exists t :: c.stored == {t} && t in run[k].enq && run[k].enq[t] == c.request.v)
            && (c.reply == Full ==> c.stored == {})
            && (c.reply == Done || c.reply == Full || c.reply == Pending) && c.taken == {}
  {
    LogAlways(g, run, threads, movers, logs, k);
    assert CallOk(run[k], logs[k].calls[j]);
  }

  /** A dequeue that returned a pointer took the pointer of exactly one enqueue, which was called with it. */
  lemma {:induction false} DequeueDelivers(g: Geometry, run: seq<State>, threads: nat, movers: seq<nat>, logs: seq<Log>,
                                           k: nat, j: nat)
    returns (e: nat)
    requires Logged(g, run, threads, movers, logs) && k < |run| && j < |logs[k].calls| && logs[k].calls[j].reply.Got?
    ensures e < |logs[k].calls| && logs[k].calls[e].request == Enqueue(logs[k].calls[j].reply.v)
    ensures logs[k].calls[e].reply != Full && logs[k].calls[e].stored == logs[k].calls[j].taken
    ensures forall x :: 0 <= x < |logs[k].calls| && logs[k].calls[x].stored == logs[k].calls[j].taken ==> x == e
  {
    LogAlways(g, run, threads, movers, logs, k);
    var s, calls := run[k], logs[k].calls;
    assert CallOk(s, calls[j]);
    var h :| calls[j].taken == {h};
    assert h in calls[j].taken;
    ExactDelivery(g, run, threads, k, h);
    e :| StoredBy(calls, h, e);
    assert CallOk(s, calls[e]);
    forall x | 0 <= x < |calls| && h in calls[x].stored ensures x == e {
    }
  }

  /** No two dequeues return the pointer of the same enqueue. */
  lemma {:induction false} DeliveredOnce(g: Geometry, run: seq<State>, threads: nat, movers: seq<nat>, logs: seq<Log>,
                                         k: nat, i: nat, j: nat)
    requires Logged(g, run, threads, movers, logs) && k < |run| && i < j < |logs[k].calls|
    requires logs[k].calls[i].reply.Got? && logs[k].calls[j].reply.Got?
    ensures logs[k].calls[i].taken != logs[k].calls[j].taken
  {
    LogAlways(g, run, threads, movers, logs, k);
    assert CallOk(run[k], logs[k].calls[i]);
    var h :| logs[k].calls[i].taken == {h};
    assert h in logs[k].calls[i].taken;
  }

  /** Pointer `v` of ticket `t` has been taken by a dequeue, or its cell holds it for a consumer due or to come. */
  ghost predicate Kept(g: Geometry, s: State, log: Log, t: int, v: int) {
    if t in s.deq then s.deq[t] == v && exists d :: TakenBy(log.calls, t, d)
    else Shaped(g, s) && CellAt(g, s, t).occ && CellAt(g, s, t).ptr == v && (t >= s.head || Held(s, t))
  }

  /** The pointer of an enqueue that returned true has been delivered by one dequeue, or is still in its cell. */
  lemma {:induction false} StoredOrDelivered(g: Geometry, run: seq<State>, threads: nat, movers: seq<nat>,
                                             logs: seq<Log>, k: nat, j: nat)
    requires Logged(g, run, threads, movers, logs) && k < |run| && j < |logs[k].calls|
    requires logs[k].calls[j].request.Enqueue? && logs[k].calls[j].reply == Done
    ensures exists t :: logs[k].calls[j].stored == {t} && Kept(g, run[k], logs[k], t, logs[k].calls[j].request.v)
  {
    LogAlways(g, run, threads, movers, logs, k);
    var c := logs[k].calls[j];
    assert CallOk(run[k], c);
    var t :| c.stored == {t};
    assert t in c.stored;
    if t in run[k].deq {
      ExactDelivery(g, run, threads, k, t);
    } else {
      NothingLost(g, run, threads, k, t);
    }
  }
}
