/** What the calls on the reader/writer lock of lib/rwlock.c do when a thread is left alone, and who gets called. */
module RwCalls {
  import opened RwLock

  // ---------- Waiting readers are called ----------

  ghost predicate WaitsToRead(s: State, i: int) {
    0 <= i < |s.pcs| && s.pcs[i] == ReadWait
  }

  ghost predicate Casts(s: State, i: int) {
    0 <= i < |s.pcs| && s.pcs[i] == Cast
  }

  /** While a reader waits, the lock word says so, or a release is about to call the waiting readers. */
  ghost predicate Remembered(s: State) {
    (exists i :: WaitsToRead(s, i)) ==> s.word.rdpend || exists j :: Casts(s, j)
  }

  /** The pending flag is cleared only by a thread that goes on to call the readers. */
  lemma {:induction false} PendingFalls(s: State, s': State, i: nat)
    requires Inv(s) && i < |s.pcs| && Step(s, s', i, false, true)
    ensures |s'.pcs| == |s.pcs|
    ensures s.word.rdpend && !s'.word.rdpend ==> s'.pcs[i] == Cast
  {
    CountTells(s);
    hide Inv, Int31, WriteTryNext, NoWriter, Unused, Woken;
    StepMoves(s, s', i);
  }

  /** A reader starts to wait once the flag is set. */
  lemma {:induction false} PendingRises(s: State, s': State, i: nat)
    requires i < |s.pcs| == |s'.pcs| && Step(s, s', i, false, true)
    ensures s'.pcs[i] == ReadWait ==> s'.word.rdpend
    ensures s.pcs[i] == Cast ==> forall j :: 0 <= j < |s.pcs| ==> s'.pcs[j] != ReadWait
  {
    hide Int31, WriteTryNext, WriteEndNext, ReadEndNext, WriteNext;
  }

  lemma {:induction false} RememberedNext(s: State, s': State, i: nat)
    requires Inv(s) && i < |s.pcs| && Step(s, s', i, false, true) && Remembered(s)
    ensures Remembered(s')
  {
    hide Inv, Step;
    PendingFalls(s, s', i);
    PendingRises(s, s', i);
    StepMoves(s, s', i);
    if j :| WaitsToRead(s', j) {
      if s'.pcs[i] == Cast {
        assert Casts(s', i);
      } else if !s'.word.rdpend {
        assert WaitsToRead(s, j);
        var k :| Casts(s, k);
        assert Casts(s', k);
      }
    }
  }

  /** In every run, a reader that waits has not been forgotten. */
  lemma {:induction false} ReadersRemembered(run: seq<State>, n: nat, k: nat)
    requires Run(run, n, false, true) && n < BIAS && k < |run|
    ensures Remembered(run[k])
    decreases k
  {
    hide Inv, Step, Remembered;
    if k == 0 {
      RememberedAtFirst(n);
    } else {
      ReadersRemembered(run, n, k - 1);
      RunInv(run, n, k - 1);
      assert Next(run[k - 1], run[k], false, true);
      var i: nat :| i < |run[k - 1].pcs| && Step(run[k - 1], run[k], i, false, true);
      RememberedNext(run[k - 1], run[k], i);
    }
  }

  lemma {:induction false} RememberedAtFirst(n: nat)
    ensures Remembered(Init(n))
  {
  }

  // ---------- A thread left alone ----------

  /** Within a call there is only one way to go on. */
  lemma {:induction false} OneWay(s: State, s1: State, s2: State, i: nat)
    requires i < |s.pcs| && s.pcs[i] != Idle && Step(s, s1, i, false, true) && Step(s, s2, i, false, true)
    ensures s1 == s2
  {
    hide Int31, ReadNext, ReadEndNext, WriteNext, WriteEndNext, WriteTryNext, Woken;
  }

  function Last(run: seq<State>): State
    requires run != []
  {
    run[|run| - 1]
  }

  /** The run goes on with steps of thread `i` within its call, up to state `s'`. */
  ghost predicate GoesOn(run: seq<State>, n: nat, run': seq<State>, i: nat, s': State) {
    && Run(run', n, false, true) && 0 < |run| <= |run'| && run'[..|run|] == run && Last(run') == s'
    && forall k :: |run| <= k < |run'| ==> StepsFrom(run'[k - 1], run'[k], i)
  }

  ghost predicate StepsFrom(s: State, s': State, i: nat) {
    i < |s.pcs| && s.pcs[i] != Idle && Step(s, s', i, false, true)
  }

  lemma {:induction false} One(run: seq<State>, n: nat, i: nat, s': State) returns (run': seq<State>)
    requires Run(run, n, false, true) && StepsFrom(Last(run), s', i)
    ensures GoesOn(run, n, run', i, s')
  {
    hide Step;
    run' := run + [s'];
    forall k | 0 < k < |run'| ensures Next(run'[k - 1], run'[k], false, true) {
      if k < |run| {
        assert Next(run[k - 1], run[k], false, true);
      } else {
        assert Step(run'[k - 1], run'[k], i, false, true);
      }
    }
  }

  lemma {:induction false} More(run: seq<State>, n: nat, run': seq<State>, i: nat, s: State, s': State)
    returns (run'': seq<State>)
    requires GoesOn(run, n, run', i, s) && StepsFrom(s, s', i)
    ensures GoesOn(run, n, run'', i, s')
  {
    hide Step;
    run'' := One(run', n, i, s');
    forall k | |run| <= k < |run''| ensures StepsFrom(run''[k - 1], run''[k], i) {
      if k < |run'| {
        assert StepsFrom(run'[k - 1], run'[k], i);
        assert run''[k] == run''[..|run'|][k] && run''[k - 1] == run''[..|run'|][k - 1];
      }
    }
    assert run''[..|run|] == run''[..|run'|][..|run|];
  }

  /** An idle thread may make any of the four calls that try to get the lock. */
  lemma {:induction false} MayCall(run: seq<State>, n: nat, i: nat, pc: Pc) returns (run': seq<State>)
    requires Run(run, n, false, true) && i < |Last(run).pcs| && Last(run).pcs[i] == Idle
    requires pc == ReadStart || pc == WriteStart || pc == TryReadStart || pc == TryWriteStart
    ensures Run(run', n, false, true) && run' == run + [Last(run).(pcs := Last(run).pcs[i := pc])]
  {
    var s := Last(run);
    var s' := s.(pcs := s.pcs[i := pc]);
    assert Step(s, s', i, false, true);
    hide Step;
    run' := run + [s'];
    forall k | 0 < k < |run'| ensures Next(run'[k - 1], run'[k], false, true) {
      if k < |run| {
        assert Next(run[k - 1], run[k], false, true);
      }
    }
  }

  /** No writer holds the lock, waits for it, or is about to get it. */
  ghost predicate NoWriter(s: State) {
    Num(s.pcs, Writer) == 0 && Num(s.pcs, Queued) == 0 && Grants(s) == 0
  }

  /** Nor does a reader hold it. */
  ghost predicate Unused(s: State) {
    NoWriter(s) && Num(s.pcs, Reader) == 0
  }

  lemma {:induction false} CountTells(s: State)
    requires Inv(s)
    ensures s.word.count > 0 <==> NoWriter(s)
    ensures s.word.count == BIAS <==> Unused(s)
    ensures -BIAS <= s.word.count <= BIAS && (s.word.count > 0 ==> !s.word.rdpend)
  {
    hide Num;
  }

  /** evl_trylock_read (): gets the lock exactly when no writer is at it. */
  lemma {:induction false} TryReadAlone(run: seq<State>, n: nat, i: nat) returns (run': seq<State>, s': State)
    requires Run(run, n, false, true) && n < BIAS && i < |Last(run).pcs| && Last(run).pcs[i] == TryReadStart
    ensures GoesOn(run, n, run', i, s')
    ensures var s := Last(run);
            s' == if NoWriter(s) then s.(word := Word(s.word.count - 1, false), pcs := s.pcs[i := Reading])
                  else s.(pcs := s.pcs[i := Idle])
  {
    hide Inv, Grants, Num;
    var s := Last(run);
    RunInv(run, n, |run| - 1);
    CountTells(s);
    if NoWriter(s) {
      run' := One(run, n, i, s.(pcs := s.pcs[i := ReadTry(s.word)]));
      s' := s.(word := Word(s.word.count - 1, false), pcs := s.pcs[i := Reading]);
      assert s.pcs[i := ReadTry(s.word)][i := Reading] == s.pcs[i := Reading];
      run' := More(run, n, run', i, s.(pcs := s.pcs[i := ReadTry(s.word)]), s');
    } else {
      s' := s.(pcs := s.pcs[i := Idle]);
      run' := One(run, n, i, s');
    }
  }

  lemma {:induction false} WriteTryIs(w: Word)
    requires -BIAS <= w.count <= BIAS
    ensures w.count == BIAS ==> WriteTryNext(w) == Word(0, w.rdpend)
    ensures w.count < BIAS && WriteTryNext(w).count <= 0 ==> WriteTryNext(w).count < 0
  {
  }

  /** evl_trylock_write (): gets the lock exactly when nobody is at it, where its assertion holds. */
  lemma {:induction false} TryWriteAlone(run: seq<State>, n: nat, i: nat) returns (run': seq<State>, s': State)
    requires Run(run, n, false, true) && n < BIAS && i < |Last(run).pcs| && Last(run).pcs[i] == TryWriteStart
    requires !Crowded(Last(run))
    ensures GoesOn(run, n, run', i, s')
    ensures var s := Last(run);
            s' == if Unused(s) then s.(word := Word(0, false), pcs := s.pcs[i := Writing])
                  else s.(pcs := s.pcs[i := Idle])
  {
    var s := Last(run);
    hide Inv, Crowded, Unused, NoWriter, WriteTryNext, Run;
    RunInv(run, n, |run| - 1);
    WriteTryAsserts(run, n, |run| - 1);
    CountTells(s);
    WriteTryIs(s.word);
    if Unused(s) {
      run' := One(run, n, i, s.(pcs := s.pcs[i := WriteTry(s.word)]));
      s' := s.(word := Word(0, false), pcs := s.pcs[i := Writing]);
      assert s.pcs[i := WriteTry(s.word)][i := Writing] == s.pcs[i := Writing];
      run' := More(run, n, run', i, s.(pcs := s.pcs[i := WriteTry(s.word)]), s');
    } else {
      s' := s.(pcs := s.pcs[i := Idle]);
      run' := One(run, n, i, s');
    }
  }

  /** Where the assertion of evl_trylock_write () fails, the thread goes no further. */
  lemma {:induction false} TryWriteStops(run: seq<State>, n: nat, i: nat, s': State)
    requires Run(run, n, false, true) && n < BIAS && i < |Last(run).pcs| && Last(run).pcs[i] == TryWriteStart
    ensures Crowded(Last(run)) ==> !Step(Last(run), s', i, false, true)
  {
    WriteTryAsserts(run, n, |run| - 1);
    hide Crowded;
  }

  /** The exchange of a try-lock: it takes the lock if the word has not changed, and else gives up. */
  lemma {:induction false} TrySwapAlone(run: seq<State>, n: nat, i: nat) returns (run': seq<State>, s': State)
    requires Run(run, n, false, true) && n < BIAS && i < |Last(run).pcs|
    requires Last(run).pcs[i].ReadTry? || Last(run).pcs[i].WriteTry?
    ensures GoesOn(run, n, run', i, s')
    ensures var s := Last(run);
            if s.word == s.pcs[i].prev then s'.pcs == s.pcs[i := if s.pcs[i].ReadTry? then Reading else Writing]
            else s' == s.(pcs := s.pcs[i := Idle])
  {
    hide ReadNext, WriteTryNext;
    var s := Last(run);
    if s.word != s.pcs[i].prev {
      s' := s.(pcs := s.pcs[i := Idle]);
    } else if s.pcs[i].ReadTry? {
      s' := s.(word := ReadNext(s.word), pcs := s.pcs[i := Reading]);
    } else {
      s' := s.(word := WriteTryNext(s.word), pcs := s.pcs[i := Writing]);
    }
    run' := One(run, n, i, s');
  }

  // ---------- Calls that retry until their exchange succeeds ----------

  function StartOf(pc: Pc): Pc {
    match pc
    case ReadLoaded(_) => ReadStart
    case ReadEndLoaded(_) => ReadEnd
    case WriteLoaded(_) => WriteStart
    case WriteEndLoaded(_) => WriteEnd
    case _ => pc
  }

  /** The thread has read the word `w`. */
  function LoadedOf(pc: Pc, w: Word): Pc {
    match StartOf(pc)
    case ReadStart => ReadLoaded(w)
    case ReadEnd => ReadEndLoaded(w)
    case WriteStart => WriteLoaded(w)
    case WriteEnd => WriteEndLoaded(w)
    case _ => pc
  }

  predicate Retries(pc: Pc) {
    match StartOf(pc)
    case ReadStart => true
    case ReadEnd => true
    case WriteStart => true
    case WriteEnd => true
    case _ => false
  }

  lemma {:induction false} LoadSteps(s: State, i: nat)
    requires i < |s.pcs| && Retries(s.pcs[i])
    ensures s.pcs[i] == StartOf(s.pcs[i]) ==> StepsFrom(s, s.(pcs := s.pcs[i := LoadedOf(s.pcs[i], s.word)]), i)
    ensures s.pcs[i] != StartOf(s.pcs[i]) && s.pcs[i] != LoadedOf(s.pcs[i], s.word) ==>
              StepsFrom(s, s.(pcs := s.pcs[i := StartOf(s.pcs[i])]), i)
  {
    hide ReadNext, ReadEndNext, WriteNext, WriteEndNext, WriteTryNext, Woken;
  }

  /** A thread left alone gets to its exchange with the present word. */
  lemma {:induction false} GetsLoaded(run: seq<State>, n: nat, i: nat) returns (run': seq<State>)
    requires Run(run, n, false, true) && i < |Last(run).pcs| && Retries(Last(run).pcs[i])
    ensures var s := Last(run); GoesOn(run, n, run', i, s.(pcs := s.pcs[i := LoadedOf(s.pcs[i], s.word)]))
  {
    var s := Last(run);
    hide Run, StepsFrom, Retries;
    var pc, loaded := StartOf(s.pcs[i]), LoadedOf(s.pcs[i], s.word);
    var s1, s2 := s.(pcs := s.pcs[i := pc]), s.(pcs := s.pcs[i := loaded]);
    Same(s.pcs[i], s.word);
    LoadSteps(s, i);
    if s.pcs[i] == pc {
      run' := One(run, n, i, s2);
    } else if s.pcs[i] != loaded {
      run' := One(run, n, i, s1);
      LoadSteps(s1, i);
      assert s1.pcs[i := loaded] == s.pcs[i := loaded];
      run' := More(run, n, run', i, s1, s2);
    } else {
      run' := run;
      assert s2 == s;
    }
  }

  lemma {:induction false} Same(pc: Pc, w: Word)
    requires Retries(pc)
    ensures Retries(StartOf(pc)) && StartOf(StartOf(pc)) == StartOf(pc)
    ensures LoadedOf(StartOf(pc), w) == LoadedOf(pc, w) && LoadedOf(pc, w) != Idle
  {
  }

  /** evl_lock_read (): gets the lock exactly when no writer is at it, and else waits with the flag set. */
  lemma {:induction false} ReadAlone(run: seq<State>, n: nat, i: nat) returns (run': seq<State>, s': State)
    requires Run(run, n, false, true) && n < BIAS && i < |Last(run).pcs| && StartOf(Last(run).pcs[i]) == ReadStart
    ensures GoesOn(run, n, run', i, s')
    ensures var s := Last(run);
            s' == if NoWriter(s) then s.(word := Word(s.word.count - 1, false), pcs := s.pcs[i := Reading])
                  else s.(word := Word(s.word.count, true), pcs := s.pcs[i := ReadWait])
  {
    var s := Last(run);
    RunInv(run, n, |run| - 1);
    CountTells(s);
    hide Run, Inv, NoWriter, Unused, GoesOn;
    run' := GetsLoaded(run, n, i);
    s' := if NoWriter(s) then s.(word := Word(s.word.count - 1, false), pcs := s.pcs[i := Reading])
          else s.(word := Word(s.word.count, true), pcs := s.pcs[i := ReadWait]);
    var loaded := s.(pcs := s.pcs[i := ReadLoaded(s.word)]);
    assert loaded.pcs[i := s'.pcs[i]] == s'.pcs;
    run' := More(run, n, run', i, loaded, s');
  }

  /** evl_lock_write (): gets the lock exactly when nobody is at it, and else queues up. */
  lemma {:induction false} WriteAlone(run: seq<State>, n: nat, i: nat) returns (run': seq<State>, s': State)
    requires Run(run, n, false, true) && n < BIAS && i < |Last(run).pcs| && StartOf(Last(run).pcs[i]) == WriteStart
    ensures GoesOn(run, n, run', i, s')
    ensures var s := Last(run);
            s' == if Unused(s) then s.(word := Word(0, false), pcs := s.pcs[i := Writing])
                  else s.(word := Word(if NoWriter(s) then s.word.count - BIAS else s.word.count - 1, s.word.rdpend),
                          pcs := s.pcs[i := WriteWait])
  {
    var s := Last(run);
    RunInv(run, n, |run| - 1);
    CountTells(s);
    hide Run, Inv, NoWriter, Unused, GoesOn;
    run' := GetsLoaded(run, n, i);
    s' := if Unused(s) then s.(word := Word(0, false), pcs := s.pcs[i := Writing])
          else s.(word := Word(if NoWriter(s) then s.word.count - BIAS else s.word.count - 1, s.word.rdpend),
                  pcs := s.pcs[i := WriteWait]);
    var loaded := s.(pcs := s.pcs[i := WriteLoaded(s.word)]);
    assert loaded.pcs[i := s'.pcs[i]] == s'.pcs;
    run' := More(run, n, run', i, loaded, s');
  }

  lemma {:induction false} ReleaseSteps(s: State, i: nat)
    requires i < |s.pcs|
    ensures s.pcs[i] == ReadEndLoaded(s.word) ==>
              StepsFrom(s, s.(word := ReadEndNext(s.word),
                              pcs := s.pcs[i := if ReadEndNext(s.word).count == 0 then Post else Idle]), i)
    ensures s.pcs[i] == WriteEndLoaded(s.word) ==>
              var pc := if s.word.count < 0 then Post else if s.word.rdpend then Cast else Idle;
              StepsFrom(s, s.(word := WriteEndNext(s.word), pcs := s.pcs[i := pc]), i)
    ensures s.pcs[i] == Post ==> StepsFrom(s, s.(posted := true, pcs := s.pcs[i := Idle]), i)
    ensures s.pcs[i] == Cast ==> StepsFrom(s, s.(pcs := Woken(s.pcs)[i := Idle]), i)
  {
    hide ReadEndNext, WriteEndNext, Woken;
  }

  /** A thread left alone goes through its exchange, to `pc`. */
  lemma {:induction false} GetsPast(run: seq<State>, n: nat, i: nat, next: Word, pc: Pc) returns (run': seq<State>)
    requires Run(run, n, false, true) && i < |Last(run).pcs| && Retries(Last(run).pcs[i])
    requires var s := Last(run);
             var loaded := s.(pcs := s.pcs[i := LoadedOf(s.pcs[i], s.word)]);
             StepsFrom(loaded, s.(word := next, pcs := loaded.pcs[i := pc]), i)
    ensures var s := Last(run); GoesOn(run, n, run', i, s.(word := next, pcs := s.pcs[i := pc]))
  {
    var s := Last(run);
    hide Run, StepsFrom, GoesOn, LoadedOf, Retries;
    var loaded := s.(pcs := s.pcs[i := LoadedOf(s.pcs[i], s.word)]);
    run' := GetsLoaded(run, n, i);
    assert loaded.pcs[i := pc] == s.pcs[i := pc];
    run' := More(run, n, run', i, loaded, s.(word := next, pcs := s.pcs[i := pc]));
  }

  /** evl_unlock_read (): the last reader hands the lock over when exactly one writer is queued. */
  lemma {:induction false} ReadEndAlone(run: seq<State>, n: nat, i: nat) returns (run': seq<State>, s': State)
    requires Run(run, n, false, true) && n < BIAS && i < |Last(run).pcs| && StartOf(Last(run).pcs[i]) == ReadEnd
    ensures GoesOn(run, n, run', i, s')
    ensures var s := Last(run);
            var last := Num(s.pcs, Reader) == 1 && Num(s.pcs, Queued) == 1;
            s' == State(Word(s.word.count + 1, s.word.rdpend), last || s.posted, s.pcs[i := Idle])
  {
    var s := Last(run);
    RunInv(run, n, |run| - 1);
    hide Run, Inv, GoesOn, Num, ReadEndNext, StepsFrom, Woken;
    LastTells(s, i);
    var last := Num(s.pcs, Reader) == 1 && Num(s.pcs, Queued) == 1;
    var next, pc := Word(s.word.count + 1, s.word.rdpend), if last then Post else Idle;
    ReleaseSteps(s.(pcs := s.pcs[i := ReadEndLoaded(s.word)]), i);
    run' := GetsPast(run, n, i, next, pc);
    var s1 := s.(word := next, pcs := s.pcs[i := pc]);
    s' := s1;
    if last {
      ReleaseSteps(s1, i);
      s' := State(next, true, s.pcs[i := Idle]);
      assert s1.pcs[i := Idle] == s'.pcs;
      run' := More(run, n, run', i, s1, s');
    }
  }

  lemma {:induction false} LastTells(s: State, i: nat)
    requires Inv(s) && i < |s.pcs| && StartOf(s.pcs[i]) == ReadEnd
    ensures s.word.count + 1 == 0 <==> Num(s.pcs, Reader) == 1 && Num(s.pcs, Queued) == 1
    ensures ReadEndNext(s.word) == Word(s.word.count + 1, s.word.rdpend)
  {
    Counted(s.pcs, i, Idle);
    hide Num;
  }

  /** evl_unlock_write (): a queued writer gets the lock, if there is one. */
  lemma {:induction false} WriteEndAlone(run: seq<State>, n: nat, i: nat) returns (run': seq<State>, s': State)
    requires Run(run, n, false, true) && n < BIAS && i < |Last(run).pcs| && StartOf(Last(run).pcs[i]) == WriteEnd
    requires Num(Last(run).pcs, Queued) > 0
    ensures GoesOn(run, n, run', i, s')
    ensures var s := Last(run); s' == State(Word(s.word.count + 1, s.word.rdpend), true, s.pcs[i := Idle])
  {
    var s := Last(run);
    RunInv(run, n, |run| - 1);
    hide Run, Inv, Num, GoesOn, WriteEndNext, StepsFrom, Woken;
    OwnerTells(s, i);
    ReleaseSteps(s.(pcs := s.pcs[i := WriteEndLoaded(s.word)]), i);
    run' := GetsPast(run, n, i, WriteEndNext(s.word), Post);
    var s1 := s.(word := WriteEndNext(s.word), pcs := s.pcs[i := Post]);
    s' := State(s1.word, true, s.pcs[i := Idle]);
    ReleaseSteps(s1, i);
    assert s1.pcs[i := Idle] == s'.pcs;
    run' := More(run, n, run', i, s1, s');
  }

  /** Otherwise the lock is free, and no reader waits any more, unless another thread is about to call the readers. */
  lemma {:induction false} FreeAlone(run: seq<State>, n: nat, i: nat) returns (run': seq<State>, s': State)
    requires Run(run, n, false, true) && n < BIAS && i < |Last(run).pcs| && StartOf(Last(run).pcs[i]) == WriteEnd
    requires Num(Last(run).pcs, Queued) == 0
    ensures GoesOn(run, n, run', i, s') && s'.word == Word(BIAS, false) && s'.posted == Last(run).posted
    ensures i < |s'.pcs| && s'.pcs[i] == Idle && NoneLeft(s')
  {
    var s := Last(run);
    RunInv(run, n, |run| - 1);
    hide Run, Inv, Num, GoesOn, WriteEndNext, StepsFrom, NoneLeft, Woken;
    OwnerTells(s, i);
    var pc := if s.word.rdpend then Cast else Idle;
    ReleaseSteps(s.(pcs := s.pcs[i := WriteEndLoaded(s.word)]), i);
    run' := GetsPast(run, n, i, Word(BIAS, false), pc);
    s' := s.(word := Word(BIAS, false), pcs := s.pcs[i := pc]);
    if pc == Cast {
      var s1 := s';
      ReleaseSteps(s1, i);
      s' := s1.(pcs := Woken(s1.pcs)[i := Idle]);
      run' := More(run, n, run', i, s1, s');
    }
    LeavesNone(run, n, run', i, s');
  }

  /** No reader waits, unless a release is about to call the waiting readers. */
  ghost predicate NoneLeft(s: State) {
    (exists j :: WaitsToRead(s, j)) ==> exists j :: Casts(s, j)
  }

  lemma {:induction false} LeavesNone(run: seq<State>, n: nat, run': seq<State>, i: nat, s': State)
    requires GoesOn(run, n, run', i, s') && n < BIAS && !s'.word.rdpend
    ensures NoneLeft(s')
  {
    hide Run;
    ReadersRemembered(run', n, |run'| - 1);
  }

  lemma {:induction false} OwnerTells(s: State, i: nat)
    requires Inv(s) && i < |s.pcs| && StartOf(s.pcs[i]) == WriteEnd
    ensures s.word.count < 0 <==> Num(s.pcs, Queued) > 0
    ensures WriteEndNext(s.word)
         == if s.word.count < 0 then Word(s.word.count + 1, s.word.rdpend) else Word(BIAS, false)
  {
    Counted(s.pcs, i, Idle);
    hide Num;
  }
}
