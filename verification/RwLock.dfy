/** The reader/writer lock of lib/rwlock.c as a system of atomic steps of any number of threads. */
module RwLock {
  /** __EVL_RWLOCK_WRBIAS */
  const BIAS: int := 0x3fff_ffff

  /** The lock word: a signed 31-bit count, and the flag that readers wait. */
  datatype Word = Word(count: int, rdpend: bool)

  /** Storing a count in its bit-field. */
  function Int31(x: int): int {
    (x + 0x4000_0000) % 0x8000_0000 - 0x4000_0000
  }

  /**
   * Where a thread is. The names ending in `Start` and `End` begin a call; those ending in `Loaded` and `Try` hold the
   * word that was read and not yet exchanged. `Post` hands the lock over to a writer, `Cast` calls the waiting readers.
   */
  datatype Pc =
    | Idle
    | TryReadStart | TryWriteStart
    | ReadStart | ReadLoaded(prev: Word) | ReadTry(prev: Word) | ReadWait
    | Reading | ReadEnd | ReadEndLoaded(prev: Word)
    | WriteStart | WriteLoaded(prev: Word) | WriteTry(prev: Word) | WriteWait
    | Writing | WriteEnd | WriteEndLoaded(prev: Word)
    | Post | Cast

  /** The lock word, the WR flag of the event, and the threads. */
  datatype State = State(word: Word, posted: bool, pcs: seq<Pc>)

  function Init(n: nat): State {
    State(Word(BIAS, false), false, seq(n, i => Idle))
  }

  // ---------- The words that the operations try to store ----------

  /** evl_lock_read () and evl_trylock_read () */
  function ReadNext(p: Word): Word {
    if p.count <= 0 then Word(p.count, true) else Word(Int31(p.count - 1), false)
  }

  /** evl_unlock_read () */
  function ReadEndNext(p: Word): Word {
    Word(Int31(p.count + 1), p.rdpend)
  }

  /** evl_lock_write () */
  function WriteNext(p: Word): Word {
    Word(Int31(if p.count <= 0 then p.count - 1 else p.count - BIAS), p.rdpend)
  }

  /** evl_trylock_write () */
  function WriteTryNext(p: Word): Word {
    Word(Int31(p.count - BIAS), p.rdpend)
  }

  /** evl_unlock_write () */
  function WriteEndNext(p: Word): Word {
    if p.count < 0 then Word(Int31(p.count + 1), p.rdpend) else Word(BIAS, false)
  }

  // ---------- Steps ----------

  ghost predicate Moved(s: State, s': State, i: nat, word: Word, posted: bool, pc: Pc)
    requires i < |s.pcs|
  {
    s' == State(word, posted, s.pcs[i := pc])
  }

  /**
   * A compare-and-exchange followed by the test of the value it returns: `done` follows a success, `fail` a failure.
   * With `spurious`, a weak exchange may store nothing and yet return the expected value, as the wrapper of
   * include/evl/atomic.h does when the exchange fails although the word is the expected one.
   */
  ghost predicate Exchange(s: State, s': State, i: nat, prev: Word, next: Word, done: Pc, fail: Pc, spurious: bool)
    requires i < |s.pcs|
  {
    if s.word == prev
    then Moved(s, s', i, next, s.posted, done) || (spurious && Moved(s, s', i, s.word, s.posted, done))
    else Moved(s, s', i, s.word, s.posted, fail)
  }

  /** The waiting readers have to try again. */
  function Woken(pcs: seq<Pc>): (r: seq<Pc>)
    ensures |r| == |pcs| && forall j :: 0 <= j < |pcs| ==> r[j] == if pcs[j] == ReadWait then ReadStart else pcs[j]
  {
    seq(|pcs|, j requires 0 <= j < |pcs| => if pcs[j] == ReadWait then ReadStart else pcs[j])
  }

  /**
   * One atomic step of thread `i`. A waiting reader may wake up without being called. With `asserts`, a thread whose
   * assertion in evl_trylock_write () fails goes no further; without (NDEBUG), it goes on.
   */
  ghost predicate Step(s: State, s': State, i: nat, spurious: bool, asserts: bool)
    requires i < |s.pcs|
  {
    var w := s.word;
    match s.pcs[i]
    case Idle =>
      || Moved(s, s', i, w, s.posted, ReadStart)
      || Moved(s, s', i, w, s.posted, WriteStart)
      || Moved(s, s', i, w, s.posted, TryReadStart)
      || Moved(s, s', i, w, s.posted, TryWriteStart)
    case TryReadStart => Moved(s, s', i, w, s.posted, if w.count <= 0 then Idle else ReadTry(w))
    case TryWriteStart =>
      && (asserts ==> WriteTryNext(w).count <= 0)
      && Moved(s, s', i, w, s.posted, if WriteTryNext(w).count < 0 then Idle else WriteTry(w))
    case ReadStart => Moved(s, s', i, w, s.posted, ReadLoaded(w))
    case ReadLoaded(p) =>
      Exchange(s, s', i, p, ReadNext(p), if p.count > 0 then Reading else ReadWait, ReadStart, spurious)
    case ReadTry(p) => Exchange(s, s', i, p, ReadNext(p), Reading, Idle, false)
    case ReadWait => Moved(s, s', i, w, s.posted, ReadStart)
    case Reading => Moved(s, s', i, w, s.posted, ReadEnd)
    case ReadEnd => Moved(s, s', i, w, s.posted, ReadEndLoaded(w))
    case ReadEndLoaded(p) =>
      Exchange(s, s', i, p, ReadEndNext(p), if ReadEndNext(p).count == 0 then Post else Idle, ReadEnd, spurious)
    case WriteStart => Moved(s, s', i, w, s.posted, WriteLoaded(w))
    case WriteLoaded(p) =>
      Exchange(s, s', i, p, WriteNext(p), if WriteNext(p).count != 0 then WriteWait else Writing, WriteStart, spurious)
    case WriteTry(p) => Exchange(s, s', i, p, WriteTryNext(p), Writing, Idle, false)
    case WriteWait => s.posted && Moved(s, s', i, w, false, Writing)
    case Writing => Moved(s, s', i, w, s.posted, WriteEnd)
    case WriteEnd => Moved(s, s', i, w, s.posted, WriteEndLoaded(w))
    case WriteEndLoaded(p) =>
      Exchange(s, s', i, p, WriteEndNext(p), if p.count < 0 then Post else if p.rdpend then Cast else Idle, WriteEnd,
               spurious)
    case Post => Moved(s, s', i, w, true, Idle)
    case Cast => s' == s.(pcs := Woken(s.pcs)[i := Idle])
  }

  ghost predicate Next(s: State, s': State, spurious: bool, asserts: bool) {
    exists i :: 0 <= i < |s.pcs| && Step(s, s', i, spurious, asserts)
  }

  /** A run of `n` threads from the initial state. */
  ghost predicate Run(run: seq<State>, n: nat, spurious: bool, asserts: bool) {
    && |run| > 0 && run[0] == Init(n)
    && forall k :: 0 < k < |run| ==> Next(run[k - 1], run[k], spurious, asserts)
  }

  // ---------- Holders ----------

  datatype Role = Outside | Reader | Writer | Queued | Granter

  function RoleOf(pc: Pc): Role {
    match pc
    case Reading => Reader
    case ReadEnd => Reader
    case ReadEndLoaded(_) => Reader
    case WriteWait => Queued
    case Writing => Writer
    case WriteEnd => Writer
    case WriteEndLoaded(_) => Writer
    case Post => Granter
    case _ => Outside
  }

  /** How many threads have a role. */
  function Num(pcs: seq<Pc>, role: Role): nat {
    if pcs == [] then 0 else (if RoleOf(pcs[0]) == role then 1 else 0) + Num(pcs[1..], role)
  }

  lemma {:induction false} NumSet(pcs: seq<Pc>, i: nat, pc: Pc, role: Role)
    requires i < |pcs|
    ensures Num(pcs[i := pc], role) - (if RoleOf(pc) == role then 1 else 0)
         == Num(pcs, role) - (if RoleOf(pcs[i]) == role then 1 else 0)
  {
    if i > 0 {
      assert pcs[i := pc][1..] == pcs[1..][i - 1 := pc];
      NumSet(pcs[1..], i - 1, pc, role);
    } else {
      assert pcs[i := pc][1..] == pcs[1..];
    }
  }

  lemma {:induction false} NumBound(pcs: seq<Pc>)
    ensures Num(pcs, Reader) + Num(pcs, Writer) + Num(pcs, Queued) + Num(pcs, Granter) <= |pcs|
  {
    if pcs != [] {
      NumBound(pcs[1..]);
    }
  }

  lemma {:induction false} NumIdle(n: nat, role: Role)
    ensures role != Outside ==> Num(seq(n, i => Idle), role) == 0
  {
    if n > 0 {
      NumIdle(n - 1, role);
      var idle: seq<Pc> := seq(n, i => Idle);
      assert idle[1..] == seq(n - 1, i => Idle);
    }
  }

  /** How many grants are on their way to a queued writer. */
  function Grants(s: State): nat {
    Num(s.pcs, Granter) + (if s.posted then 1 else 0)
  }

  /** The lock word tells who holds the lock and who waits for it: r readers, w writers, x queued writers, g grants. */
  ghost predicate Tally(word: Word, r: int, w: int, x: int, g: int) {
    && 0 <= r && 0 <= w && 0 <= x && 0 <= g && r + w + x < BIAS
    && w + g <= 1 && (word.count > 0 ==> !word.rdpend)
    && if w + g == 1 then r == 0 && g <= x && word.count == g - x
       else if x == 0 then word.count == BIAS - r
       else word.count == -r - (x - 1) && word.count < 0
  }

  /** What a thread remembers of the word it has read. */
  ghost predicate Recalls(pc: Pc) {
    && (pc.ReadTry? ==> pc.prev.count > 0)
    && (pc.WriteTry? ==> WriteTryNext(pc.prev).count == 0)
  }

  ghost predicate Inv(s: State) {
    && |s.pcs| < BIAS
    && Tally(s.word, Num(s.pcs, Reader), Num(s.pcs, Writer), Num(s.pcs, Queued), Grants(s))
    && forall i :: 0 <= i < |s.pcs| ==> Recalls(s.pcs[i])
  }

  /** Never two writers, nor a writer and a reader. */
  ghost predicate Safe(s: State) {
    Num(s.pcs, Writer) <= 1 && (Num(s.pcs, Writer) == 1 ==> Num(s.pcs, Reader) == 0)
  }

  // ---------- What each exchange does to the tally ----------

  lemma {:induction false} TallyRead(p: Word, r: int, w: int, x: int, g: int)
    requires Tally(p, r, w, x, g) && (p.count > 0 ==> r + 1 + w + x < BIAS)
    ensures Tally(ReadNext(p), if p.count > 0 then r + 1 else r, w, x, g)
  {
  }

  lemma {:induction false} TallyReadEnd(p: Word, r: int, w: int, x: int, g: int)
    requires Tally(p, r, w, x, g) && r > 0
    ensures ReadEndNext(p).count == p.count + 1
    ensures Tally(ReadEndNext(p), r - 1, w, x, if p.count + 1 == 0 then g + 1 else g)
  {
  }

  lemma {:induction false} TallyWrite(p: Word, r: int, w: int, x: int, g: int)
    requires Tally(p, r, w, x, g) && r + w + x + 1 < BIAS
    ensures WriteNext(p).count == (if p.count <= 0 then p.count - 1 else p.count - BIAS) <= 0
    ensures if WriteNext(p).count != 0 then Tally(WriteNext(p), r, w, x + 1, g) else Tally(WriteNext(p), r, w + 1, x, g)
  {
  }

  lemma {:induction false} TallyWriteTry(p: Word, r: int, w: int, x: int, g: int)
    requires Tally(p, r, w, x, g) && r + w + x + 1 < BIAS && WriteTryNext(p).count == 0
    ensures Tally(WriteTryNext(p), r, w + 1, x, g)
  {
  }

  lemma {:induction false} TallyWriteEnd(p: Word, r: int, w: int, x: int, g: int)
    requires Tally(p, r, w, x, g) && w > 0
    ensures p.count < 0 ==> WriteEndNext(p).count == p.count + 1
    ensures Tally(WriteEndNext(p), r, w - 1, x, if p.count < 0 then g + 1 else g)
  {
  }

  lemma {:induction false} InitInv(n: nat)
    requires n < BIAS
    ensures Inv(Init(n))
  {
    NumIdle(n, Reader);
    NumIdle(n, Writer);
    NumIdle(n, Queued);
    NumIdle(n, Granter);
  }

  lemma {:induction false} Counted(pcs: seq<Pc>, i: nat, pc: Pc)
    requires i < |pcs|
    ensures Num(pcs[i := pc], Reader) == Num(pcs, Reader) + Change(pcs[i], pc, Reader)
    ensures Num(pcs[i := pc], Writer) == Num(pcs, Writer) + Change(pcs[i], pc, Writer)
    ensures Num(pcs[i := pc], Queued) == Num(pcs, Queued) + Change(pcs[i], pc, Queued)
    ensures Num(pcs[i := pc], Granter) == Num(pcs, Granter) + Change(pcs[i], pc, Granter)
    ensures Num(pcs, Reader) + Num(pcs, Writer) + Num(pcs, Queued) + Num(pcs, Granter) <= |pcs|
    ensures RoleOf(pcs[i]) != Outside ==> Num(pcs, RoleOf(pcs[i])) > 0
    ensures RoleOf(pcs[i]) == Outside ==>
              Num(pcs, Reader) + Num(pcs, Writer) + Num(pcs, Queued) + Num(pcs, Granter) < |pcs|
  {
    NumSet(pcs, i, pc, Reader);
    NumSet(pcs, i, pc, Writer);
    NumSet(pcs, i, pc, Queued);
    NumSet(pcs, i, pc, Granter);
    NumBound(pcs);
    NumBound(pcs[i := Reading]);
    NumSet(pcs, i, Reading, Reader);
    NumSet(pcs, i, Reading, Writer);
    NumSet(pcs, i, Reading, Queued);
    NumSet(pcs, i, Reading, Granter);
    NumSet(pcs, i, Idle, RoleOf(pcs[i]));
  }

  function Change(a: Pc, b: Pc, role: Role): int {
    (if RoleOf(b) == role then 1 else 0) - (if RoleOf(a) == role then 1 else 0)
  }

  /** Thread `i` moves to `pc`, and the tally follows. */
  lemma {:induction false} Update(s: State, s': State, i: nat, word: Word, posted: bool, pc: Pc)
    requires Inv(s) && i < |s.pcs| && Moved(s, s', i, word, posted, pc) && Recalls(pc)
    requires var was := s.pcs[i];
      Tally(word, Num(s.pcs, Reader) + Change(was, pc, Reader), Num(s.pcs, Writer) + Change(was, pc, Writer),
            Num(s.pcs, Queued) + Change(was, pc, Queued),
            Grants(s) + Change(was, pc, Granter) + (if posted then 1 else 0) - (if s.posted then 1 else 0))
    ensures Inv(s')
  {
    hide Num, Tally, WriteTryNext, RoleOf, Change;
    Counted(s.pcs, i, pc);
  }

  lemma {:induction false} NumWoken(pcs: seq<Pc>, role: Role)
    ensures Num(Woken(pcs), role) == Num(pcs, role)
  {
    if pcs != [] {
      assert Woken(pcs)[1..] == Woken(pcs[1..]);
      NumWoken(pcs[1..], role);
    }
  }

  /** The thread that makes a step is the only one whose role may change. */
  lemma {:induction false} StepMoves(s: State, s': State, i: nat)
    requires i < |s.pcs| && Step(s, s', i, false, true)
    ensures |s'.pcs| == |s.pcs|
    ensures s'.pcs == (if s.pcs[i] == Cast then Woken(s.pcs) else s.pcs)[i := s'.pcs[i]]
  {
    hide Int31, ReadNext, ReadEndNext, WriteNext, WriteEndNext, WriteTryNext;
  }

  lemma {:induction false} StepCounts(s: State, s': State, i: nat)
    requires i < |s.pcs| && Step(s, s', i, false, true)
    ensures |s'.pcs| == |s.pcs|
    ensures Num(s'.pcs, Reader) == Num(s.pcs, Reader) + Change(s.pcs[i], s'.pcs[i], Reader)
    ensures Num(s'.pcs, Writer) == Num(s.pcs, Writer) + Change(s.pcs[i], s'.pcs[i], Writer)
    ensures Num(s'.pcs, Queued) == Num(s.pcs, Queued) + Change(s.pcs[i], s'.pcs[i], Queued)
    ensures Num(s'.pcs, Granter) == Num(s.pcs, Granter) + Change(s.pcs[i], s'.pcs[i], Granter)
    ensures RoleOf(s.pcs[i]) != Outside ==> Num(s.pcs, RoleOf(s.pcs[i])) > 0
    ensures RoleOf(s.pcs[i]) == Outside ==>
              Num(s.pcs, Reader) + Num(s.pcs, Writer) + Num(s.pcs, Queued) + Num(s.pcs, Granter) < |s.pcs|
  {
    hide Step, Num, RoleOf, Woken, Change;
    StepMoves(s, s', i);
    Counted(s.pcs, i, s'.pcs[i]);
    if s.pcs[i] == Cast {
      Counted(Woken(s.pcs), i, s'.pcs[i]);
      NumWoken(s.pcs, Reader);
      NumWoken(s.pcs, Writer);
      NumWoken(s.pcs, Queued);
      NumWoken(s.pcs, Granter);
    }
  }

  /** A release calls the waiting readers. */
  lemma {:induction false} CastStep(s: State, s': State, i: nat)
    requires Inv(s) && i < |s.pcs| && s.pcs[i] == Cast && Step(s, s', i, false, true)
    ensures Inv(s')
  {
    hide Num, Tally;
    StepCounts(s, s', i);
    hide WriteTryNext;
  }

  lemma {:induction false} ReadStep(s: State, s': State, i: nat)
    requires Inv(s) && i < |s.pcs| && Step(s, s', i, false, true)
    requires s.pcs[i].ReadLoaded? || s.pcs[i].ReadTry? || s.pcs[i].ReadEndLoaded?
    ensures Inv(s')
  {
    hide Num, Int31, Tally, ReadNext, ReadEndNext, WriteNext, WriteEndNext, WriteTryNext;
    Counted(s.pcs, i, Idle);
    var r, w, x, g := Num(s.pcs, Reader), Num(s.pcs, Writer), Num(s.pcs, Queued), Grants(s);
    var p := s.pcs[i].prev;
    if s.word == p {
      if s.pcs[i].ReadEndLoaded? {
        TallyReadEnd(p, r, w, x, g);
      } else {
        TallyRead(p, r, w, x, g);
      }
    }
    Update(s, s', i, s'.word, s'.posted, s'.pcs[i]);
  }

  lemma {:induction false} WriteStep(s: State, s': State, i: nat)
    requires Inv(s) && i < |s.pcs| && Step(s, s', i, false, true)
    requires s.pcs[i].WriteLoaded? || s.pcs[i].WriteTry? || s.pcs[i].WriteEndLoaded?
    ensures Inv(s')
  {
    hide Num, Int31, Tally, ReadNext, ReadEndNext, WriteNext, WriteEndNext, WriteTryNext;
    Counted(s.pcs, i, Idle);
    var r, w, x, g := Num(s.pcs, Reader), Num(s.pcs, Writer), Num(s.pcs, Queued), Grants(s);
    var p := s.pcs[i].prev;
    if s.word == p {
      if s.pcs[i].WriteEndLoaded? {
        TallyWriteEnd(p, r, w, x, g);
      } else if s.pcs[i].WriteTry? {
        TallyWriteTry(p, r, w, x, g);
      } else {
        TallyWrite(p, r, w, x, g);
      }
    }
    Update(s, s', i, s'.word, s'.posted, s'.pcs[i]);
  }

  lemma {:induction false} OtherStep(s: State, s': State, i: nat)
    requires Inv(s) && i < |s.pcs| && Step(s, s', i, false, true)
    requires !s.pcs[i].ReadLoaded? && !s.pcs[i].ReadTry? && !s.pcs[i].ReadEndLoaded?
    requires !s.pcs[i].WriteLoaded? && !s.pcs[i].WriteTry? && !s.pcs[i].WriteEndLoaded? && !s.pcs[i].Cast?
    ensures Inv(s')
  {
    hide Num, Int31, Tally, Woken, ReadNext, ReadEndNext, WriteNext, WriteEndNext, WriteTryNext;
    Counted(s.pcs, i, Idle);
    var r, w, x, g := Num(s.pcs, Reader), Num(s.pcs, Writer), Num(s.pcs, Queued), Grants(s);
    OneGrant(s.word, r, w, x, g);
    if s.pcs[i].WriteWait? {
      TallyResume(s.word, r, w, x, g);
    }
    Update(s, s', i, s'.word, s'.posted, s'.pcs[i]);
  }

  lemma {:induction false} StepInv(s: State, s': State, i: nat)
    requires Inv(s) && i < |s.pcs| && Step(s, s', i, false, true)
    ensures Inv(s')
  {
    hide *;
    match s.pcs[i] {
      case ReadLoaded(_) => ReadStep(s, s', i);
      case ReadTry(_) => ReadStep(s, s', i);
      case ReadEndLoaded(_) => ReadStep(s, s', i);
      case WriteLoaded(_) => WriteStep(s, s', i);
      case WriteTry(_) => WriteStep(s, s', i);
      case WriteEndLoaded(_) => WriteStep(s, s', i);
      case Cast => CastStep(s, s', i);
      case _ => OtherStep(s, s', i);
    }
  }

  lemma {:induction false} TallyResume(p: Word, r: int, w: int, x: int, g: int)
    requires Tally(p, r, w, x, g) && g > 0
    ensures Tally(p, r, w + 1, x - 1, g - 1)
  {
  }

  lemma {:induction false} OneGrant(p: Word, r: int, w: int, x: int, g: int)
    requires Tally(p, r, w, x, g)
    ensures g <= 1
  {
  }

  // ---------- All runs ----------

  lemma {:induction false} RunInv(run: seq<State>, n: nat, k: nat)
    requires Run(run, n, false, true) && n < BIAS && k < |run|
    ensures Inv(run[k]) && |run[k].pcs| == n
    decreases k
  {
    if k == 0 {
      InitInv(n);
    } else {
      RunInv(run, n, k - 1);
      assert Next(run[k - 1], run[k], false, true);
      var i :| 0 <= i < |run[k - 1].pcs| && Step(run[k - 1], run[k], i, false, true);
      StepInv(run[k - 1], run[k], i);
      StepMoves(run[k - 1], run[k], i);
    }
  }

  /** Mutual exclusion, whatever the interleaving and the number of threads below the bias. */
  lemma {:induction false} AlwaysSafe(run: seq<State>, n: nat, k: nat)
    requires Run(run, n, false, true) && n < BIAS && k < |run|
    ensures Safe(run[k])
  {
    RunInv(run, n, k);
  }

  /** At most one grant is on its way, and never next to a holder: posting the WR flag never finds it set. */
  lemma {:induction false} OneToken(run: seq<State>, n: nat, k: nat)
    requires Run(run, n, false, true) && n < BIAS && k < |run|
    ensures Grants(run[k]) <= 1
    ensures Grants(run[k]) == 1 ==>
              Num(run[k].pcs, Writer) == 0 && Num(run[k].pcs, Reader) == 0 && Num(run[k].pcs, Queued) > 0
  {
    RunInv(run, n, k);
  }

  /** The assertions on the word `p` that a thread about to leave `pc` reads. */
  ghost predicate Asserted(pc: Pc, p: Word) {
    && ((pc.ReadStart? || pc.TryReadStart?) && p.count > 0 ==> !p.rdpend)
    && (pc.WriteStart? ==> WriteNext(p).count <= 0)
    && (pc.WriteEnd? && p.count >= 0 ==> p.count == 0)
  }

  /** The count that the operation ahead of `pc` stores does not leave the bit-field. */
  ghost predicate Fits(pc: Pc, p: Word) {
    && ((pc.ReadStart? || pc.TryReadStart?) && p.count > 0 ==> ReadNext(p).count == p.count - 1)
    && (pc.ReadEnd? ==> ReadEndNext(p).count == p.count + 1)
    && (pc.WriteStart? ==> WriteNext(p).count == if p.count <= 0 then p.count - 1 else p.count - BIAS)
    && (pc.WriteEnd? && p.count < 0 ==> WriteEndNext(p).count == p.count + 1)
  }

  /** In any run, only the assertion of evl_trylock_write () may fire, when Crowded says; no count overflows. */
  lemma {:induction false} AssertionsHold(run: seq<State>, n: nat, k: nat, i: nat)
    requires Run(run, n, false, true) && n < BIAS && k < |run| && i < n
    ensures |run[k].pcs| == n && Asserted(run[k].pcs[i], run[k].word) && Fits(run[k].pcs[i], run[k].word)
    ensures WriteTryNext(run[k].word).count <= 0 <==> !Crowded(run[k])
  {
    WriteTryAsserts(run, n, k);
    RunInv(run, n, k);
    var s := run[k];
    Counted(s.pcs, i, Idle);
    LocalAsserts(s.pcs[i], s.word, Num(s.pcs, Reader), Num(s.pcs, Writer), Num(s.pcs, Queued), Grants(s), n);
  }

  lemma {:induction false} LocalAsserts(pc: Pc, p: Word, r: int, w: int, x: int, g: int, n: int)
    requires Tally(p, r, w, x, g) && n < BIAS && (RoleOf(pc) == Outside ==> r + w + x < n)
    requires (RoleOf(pc) == Reader ==> r > 0) && (RoleOf(pc) == Writer ==> w > 0)
    ensures Asserted(pc, p) && Fits(pc, p)
  {
    if pc.WriteStart? {
      TallyWrite(p, r, w, x, g);
    } else if pc.ReadEnd? {
      TallyReadEnd(p, r, w, x, g);
    } else if pc.WriteEnd? {
      TallyWriteEnd(p, r, w, x, g);
    }
  }

  /** Too many threads are at the lock for a writer that will not wait. */
  ghost predicate Crowded(s: State) {
    var r, w, x, g := Num(s.pcs, Reader), Num(s.pcs, Writer), Num(s.pcs, Queued), Grants(s);
    if w + g == 1 then x > g + 1 else x > 0 && r + x > 2
  }

  lemma {:induction false} WriteTryCount(p: Word)
    requires -0x4000_0000 <= p.count <= BIAS
    ensures WriteTryNext(p).count <= 0 <==> p.count >= -1
  {
  }

  /**
   * In any run, the assertion of evl_trylock_write () fails exactly when two writers wait behind an owner, or when at
   * least three threads, a queued writer among them, hold the lock for reading or wait behind the readers.
   */
  lemma {:induction false} WriteTryAsserts(run: seq<State>, n: nat, k: nat)
    requires Run(run, n, false, true) && n < BIAS && k < |run|
    ensures WriteTryNext(run[k].word).count <= 0 <==> !Crowded(run[k])
  {
    RunInv(run, n, k);
    WriteTryCount(run[k].word);
    hide Num, WriteTryNext;
  }

  // ---------- Where the lock does not do what one would expect ----------

  lemma {:induction false} StartRun(n: nat) returns (run: seq<State>)
    ensures Run(run, n, false, true) && Run(run, n, true, true) && |run| == 1 && run[0] == Init(n)
  {
    run := [Init(n)];
  }

  lemma {:induction false} Extend(run: seq<State>, n: nat, spurious: bool, asserts: bool, word: Word, i: nat, pc: Pc)
    returns (run': seq<State>)
    requires |run| > 0 && Run(run, n, spurious, asserts) && var s := run[|run| - 1];
      i < |s.pcs| && Step(s, State(word, s.posted, s.pcs[i := pc]), i, spurious, asserts)
    ensures Run(run', n, spurious, asserts) && |run'| == |run| + 1
    ensures var s := run[|run| - 1]; run'[|run|] == State(word, s.posted, s.pcs[i := pc])
  {
    var s := run[|run| - 1];
    run' := run + [State(word, s.posted, s.pcs[i := pc])];
    assert forall k :: 0 <= k < |run| ==> run'[k] == run[k];
    forall k | 0 < k < |run'| ensures Next(run'[k - 1], run'[k], spurious, asserts) {
      if k < |run| {
        assert Next(run[k - 1], run[k], spurious, asserts);
      }
    }
  }

  /** Thread `i` calls evl_lock_write () and reads the word. */
  lemma {:induction false} StartWrite(run: seq<State>, n: nat, spurious: bool, asserts: bool, i: nat)
    returns (run': seq<State>)
    requires |run| > 0 && Run(run, n, spurious, asserts) && var s := run[|run| - 1]; i < |s.pcs| && s.pcs[i] == Idle
    ensures Run(run', n, spurious, asserts) && |run'| > 0
    ensures var s := run[|run| - 1]; run'[|run'| - 1] == s.(pcs := s.pcs[i := WriteLoaded(s.word)])
  {
    var s := run[|run| - 1];
    run' := Extend(run, n, spurious, asserts, s.word, i, WriteStart);
    run' := Extend(run', n, spurious, asserts, s.word, i, WriteLoaded(s.word));
    assert s.pcs[i := WriteStart][i := WriteLoaded(s.word)] == s.pcs[i := WriteLoaded(s.word)];
  }

  /** Thread `i` calls evl_lock_write () undisturbed. */
  lemma {:induction false} LockWrite(run: seq<State>, n: nat, i: nat) returns (run': seq<State>)
    requires |run| > 0 && Run(run, n, false, true) && var s := run[|run| - 1]; i < |s.pcs| && s.pcs[i] == Idle
    ensures Run(run', n, false, true) && |run'| > 0
    ensures var s := run[|run| - 1]; var next := WriteNext(s.word);
            run'[|run'| - 1] == State(next, s.posted, s.pcs[i := if next.count != 0 then WriteWait else Writing])
  {
    var s := run[|run| - 1];
    var next, pc := WriteNext(s.word), if WriteNext(s.word).count != 0 then WriteWait else Writing;
    run' := StartWrite(run, n, false, true, i);
    run' := Extend(run', n, false, true, next, i, pc);
    assert s.pcs[i := WriteLoaded(s.word)][i := pc] == s.pcs[i := pc];
  }

  /** Thread `i` calls evl_lock_read () undisturbed, and gets the lock. */
  lemma {:induction false} LockRead(run: seq<State>, n: nat, i: nat) returns (run': seq<State>)
    requires |run| > 0 && Run(run, n, false, true) && run[|run| - 1].word.count > 0
    requires var s := run[|run| - 1]; i < |s.pcs| && s.pcs[i] == Idle
    ensures Run(run', n, false, true) && |run'| > 0
    ensures var s := run[|run| - 1]; run'[|run'| - 1] == State(ReadNext(s.word), s.posted, s.pcs[i := Reading])
  {
    var s := run[|run| - 1];
    run' := Extend(run, n, false, true, s.word, i, ReadStart);
    run' := Extend(run', n, false, true, s.word, i, ReadLoaded(s.word));
    run' := Extend(run', n, false, true, ReadNext(s.word), i, Reading);
    assert s.pcs[i := ReadStart][i := ReadLoaded(s.word)][i := Reading] == s.pcs[i := Reading];
  }

  /** Thread `i` calls evl_unlock_read () undisturbed, up to its exchange. */
  lemma {:induction false} UnlockRead(run: seq<State>, n: nat, i: nat) returns (run': seq<State>)
    requires |run| > 0 && Run(run, n, false, true) && var s := run[|run| - 1]; i < |s.pcs| && s.pcs[i] == Reading
    ensures Run(run', n, false, true) && |run'| > 0
    ensures var s := run[|run| - 1]; var next := ReadEndNext(s.word);
            run'[|run'| - 1] == State(next, s.posted, s.pcs[i := if next.count == 0 then Post else Idle])
  {
    var s := run[|run| - 1];
    var next, pc := ReadEndNext(s.word), if ReadEndNext(s.word).count == 0 then Post else Idle;
    run' := Extend(run, n, false, true, s.word, i, ReadEnd);
    run' := Extend(run', n, false, true, s.word, i, ReadEndLoaded(s.word));
    run' := Extend(run', n, false, true, next, i, pc);
    assert s.pcs[i := ReadEnd][i := ReadEndLoaded(s.word)][i := pc] == s.pcs[i := pc];
  }

  /** A weak exchange that fails for no reason passes for a success, and lets two writers in. */
  lemma {:induction false} TwoWriters() returns (run: seq<State>)
    ensures Run(run, 2, true, true) && !Safe(run[|run| - 1])
  {
    var word := Word(BIAS, false);
    run := StartRun(2);
    run := StartWrite(run, 2, true, true, 0);
    run := Extend(run, 2, true, true, word, 0, Writing);
    run := StartWrite(run, 2, true, true, 1);
    run := Extend(run, 2, true, true, word, 1, Writing);
    assert run[|run| - 1].pcs == [Writing, Writing];
    TwoOf([Writing, Writing], Writer);
  }

  lemma {:induction false} TwoOf(pcs: seq<Pc>, role: Role)
    requires |pcs| == 2 && RoleOf(pcs[0]) == RoleOf(pcs[1]) == role
    ensures Num(pcs, role) == 2
  {
    assert Num(pcs[1..], role) == 1 + Num(pcs[1..][1..], role);
  }

  /** With an owner and two queued writers, the assertion of evl_trylock_write () fails for a fourth thread. */
  lemma {:induction false} WriteTryAssertFires() returns (run: seq<State>)
    ensures |run| > 0 && Run(run, 4, false, true) && WriteTryNext(run[|run| - 1].word).count > 0
    ensures run[|run| - 1] == State(Word(-2, false), false, [Writing, WriteWait, WriteWait, Idle])
  {
    run := StartRun(4);
    run := LockWrite(run, 4, 0);
    run := LockWrite(run, 4, 1);
    run := LockWrite(run, 4, 2);
  }

  /** What may happen when less is ruled out. */
  lemma {:induction false} RunLaxer(run: seq<State>, n: nat, spurious: bool, asserts: bool, spurious': bool,
                                    asserts': bool)
    requires Run(run, n, spurious, asserts) && (spurious ==> spurious') && (asserts' ==> asserts)
    ensures Run(run, n, spurious', asserts')
  {
    forall k | 0 < k < |run| ensures Next(run[k - 1], run[k], spurious', asserts') {
      assert Next(run[k - 1], run[k], spurious, asserts);
      var i :| 0 <= i < |run[k - 1].pcs| && Step(run[k - 1], run[k], i, spurious, asserts);
      StepLaxer(run[k - 1], run[k], i, spurious, asserts, spurious', asserts');
    }
  }

  lemma {:induction false} StepLaxer(s: State, s': State, i: nat, spurious: bool, asserts: bool, spurious': bool,
                                     asserts': bool)
    requires i < |s.pcs| && Step(s, s', i, spurious, asserts) && (spurious ==> spurious') && (asserts' ==> asserts)
    ensures Step(s, s', i, spurious', asserts')
  {
    hide ReadNext, ReadEndNext, WriteNext, WriteTryNext, WriteEndNext, Moved;
  }

  /** Without assertions, evl_trylock_write () mistakes a count of -2 for a free lock, and lets a second writer in. */
  lemma {:induction false} TwoWritersUnchecked() returns (run: seq<State>)
    ensures Run(run, 4, false, false) && !Safe(run[|run| - 1])
  {
    hide Run, Num;
    run := WriteTryAssertFires();
    RunLaxer(run, 4, false, true, false, false);
    var s := run[|run| - 1];
    assert s == State(Word(-2, false), false, [Writing, WriteWait, WriteWait, Idle]);
    run := Extend(run, 4, false, false, s.word, 3, TryWriteStart);
    run := Extend(run, 4, false, false, s.word, 3, WriteTry(s.word));
    run := Extend(run, 4, false, false, Word(BIAS, false), 3, Writing);
    TwoOfFour(run[|run| - 1].pcs);
  }

  lemma {:induction false} TwoOfFour(pcs: seq<Pc>)
    requires pcs == [Writing, WriteWait, WriteWait, Writing]
    ensures Num(pcs, Writer) == 2
  {
    var t := pcs[1..];
    assert t == [WriteWait, WriteWait, Writing] && t[1..] == [WriteWait, Writing] && t[1..][1..] == [Writing];
    assert Num([Writing], Writer) == 1 + Num([Writing][1..], Writer);
    assert Num(t[1..], Writer) == Num(t[1..][1..], Writer);
  }

  /**
   * Mutual exclusion holds on all runs exactly when weak exchanges only fail on a word that differs, and the assertion
   * of evl_trylock_write () is compiled in.
   */
  lemma {:induction false} SafeExactly(spurious: bool, asserts: bool)
    ensures (forall run, n: nat, k: nat :: Run(run, n, spurious, asserts) && n < BIAS && k < |run| ==> Safe(run[k]))
            <==> !spurious && asserts
  {
    if spurious {
      var run := TwoWriters();
      RunLaxer(run, 2, true, true, true, asserts);
    } else if !asserts {
      var run := TwoWritersUnchecked();
    } else {
      forall run, n: nat, k: nat | Run(run, n, spurious, asserts) && n < BIAS && k < |run| ensures Safe(run[k]) {
        AlwaysSafe(run, n, k);
      }
    }
  }

  /** The last reader hands the lock over when one writer is queued, and does not when several are. */
  lemma {:induction false} LastReader(s: State, s': State, i: nat)
    requires Inv(s) && i < |s.pcs| && s.pcs[i] == ReadEndLoaded(s.word) && Num(s.pcs, Reader) == 1
    requires Step(s, s', i, false, true) && Num(s.pcs, Queued) > 0
    ensures s'.pcs[i] == Post <==> Num(s.pcs, Queued) == 1
  {
    hide Num;
    Counted(s.pcs, i, Idle);
    TallyReadEnd(s.word, Num(s.pcs, Reader), Num(s.pcs, Writer), Num(s.pcs, Queued), Grants(s));
  }

  /** Writers wait, and nobody holds the lock nor is about to hand it over. */
  ghost predicate Stuck(s: State) {
    Inv(s) && Num(s.pcs, Reader) == 0 && Num(s.pcs, Writer) == 0 && Grants(s) == 0 && Num(s.pcs, Queued) > 0
  }

  /** Two writers queued behind the last reader are never woken. */
  lemma {:induction false} StuckReached() returns (run: seq<State>)
    ensures |run| > 0 && Run(run, 3, false, true) && Stuck(run[|run| - 1])
  {
    hide Run, Num, Inv;
    run := StartRun(3);
    run := LockRead(run, 3, 0);
    assert run[|run| - 1] == State(Word(BIAS - 1, false), false, [Reading, Idle, Idle]);
    run := LockWrite(run, 3, 1);
    assert run[|run| - 1] == State(Word(-1, false), false, [Reading, WriteWait, Idle]);
    run := LockWrite(run, 3, 2);
    assert run[|run| - 1] == State(Word(-2, false), false, [Reading, WriteWait, WriteWait]);
    run := UnlockRead(run, 3, 0);
    assert run[|run| - 1] == State(Word(-1, false), false, [Idle, WriteWait, WriteWait]);
    RunInv(run, 3, |run| - 1);
    OneQuiet(run[|run| - 1].pcs);
  }

  lemma {:induction false} OneQuiet(pcs: seq<Pc>)
    requires pcs == [Idle, WriteWait, WriteWait]
    ensures Num(pcs, Reader) == 0 && Num(pcs, Writer) == 0 && Num(pcs, Granter) == 0 && Num(pcs, Queued) == 2
  {
    var two := pcs[1..];
    assert two == [WriteWait, WriteWait] && two[1..] == [WriteWait] && two[1..][1..] == [];
    forall role: Role ensures Num(two, role) == if role == Queued then 2 else 0 {
      assert Num(two[1..], role) == if role == Queued then 1 else 0;
    }
  }

  lemma {:induction false} StuckStep(s: State, s': State, i: nat)
    requires Stuck(s) && i < |s.pcs| && Step(s, s', i, false, true)
    ensures Stuck(s')
  {
    hide Num, Woken;
    StepInv(s, s', i);
    StepCounts(s, s', i);
  }

  /** From then on nobody ever gets the lock, whatever the threads do, short of a failed assertion. */
  lemma {:induction false} StuckForever(run: seq<State>, n: nat, j: nat, k: nat)
    requires Run(run, n, false, true) && n < BIAS && j <= k < |run| && Stuck(run[j])
    ensures Stuck(run[k])
    decreases k
  {
    hide Stuck, Step;
    if j < k {
      StuckForever(run, n, j, k - 1);
      assert Next(run[k - 1], run[k], false, true);
      var i :| 0 <= i < |run[k - 1].pcs| && Step(run[k - 1], run[k], i, false, true);
      StuckStep(run[k - 1], run[k], i);
    }
  }

  /** Several writers are queued, and none of them owns the lock or is about to. */
  ghost predicate Starved(s: State) {
    Inv(s) && Num(s.pcs, Writer) == 0 && Grants(s) == 0 && Num(s.pcs, Queued) > 1
  }

  /** Readers hold the lock, and several writers are queued behind them. */
  ghost predicate Outnumbered(s: State) {
    Num(s.pcs, Reader) > 0 && Num(s.pcs, Queued) > 1
  }

  lemma {:induction false} StarvedCases(s: State)
    requires Inv(s)
    ensures Outnumbered(s) ==> Starved(s)
    ensures Stuck(s) <==> Starved(s) && Num(s.pcs, Reader) == 0
  {
    hide Num;
  }

  lemma {:induction false} StarvedStep(s: State, s': State, i: nat)
    requires Starved(s) && i < |s.pcs| && Step(s, s', i, false, true)
    ensures Starved(s')
  {
    hide Num, Woken;
    StepInv(s, s', i);
    StepCounts(s, s', i);
  }

  /** The second writer queues up while readers hold the lock. */
  lemma {:induction false} StarvedEntered(s: State, s': State, i: nat)
    requires Inv(s) && !Starved(s) && i < |s.pcs| && Step(s, s', i, false, true) && Starved(s')
    ensures Outnumbered(s')
  {
    hide Num, Int31, ReadNext, ReadEndNext, WriteNext, WriteTryNext, WriteEndNext, Recalls, Woken;
    StepCounts(s, s', i);
  }

  /** Once several writers are queued behind readers, no writer ever gets the lock. */
  lemma {:induction false} StarvedForever(run: seq<State>, n: nat, j: nat, k: nat)
    requires Run(run, n, false, true) && n < BIAS && j <= k < |run| && Starved(run[j])
    ensures Starved(run[k])
    decreases k
  {
    hide Starved, Step;
    if j < k {
      StarvedForever(run, n, j, k - 1);
      assert Next(run[k - 1], run[k], false, true);
      var i :| 0 <= i < |run[k - 1].pcs| && Step(run[k - 1], run[k], i, false, true);
      StarvedStep(run[k - 1], run[k], i);
    }
  }

  lemma {:induction false} StarvedFrom(run: seq<State>, n: nat, k: nat) returns (j: nat)
    requires Run(run, n, false, true) && n < BIAS && k < |run| && Starved(run[k])
    ensures j <= k && Outnumbered(run[j])
    decreases k
  {
    hide Starved, Step, Num, Outnumbered;
    if k == 0 {
      NotStarvedAtFirst(n);
    } else {
      RunInv(run, n, k - 1);
      assert Next(run[k - 1], run[k], false, true);
      var i :| 0 <= i < |run[k - 1].pcs| && Step(run[k - 1], run[k], i, false, true);
      if Starved(run[k - 1]) {
        j := StarvedFrom(run, n, k - 1);
      } else {
        StarvedEntered(run[k - 1], run[k], i);
        j := k;
      }
    }
  }

  lemma {:induction false} NotStarvedAtFirst(n: nat)
    ensures !Starved(Init(n))
  {
    NumIdle(n, Queued);
  }

  /** Writers are left waiting for ever exactly when several of them were queued, at some time, behind readers. */
  lemma {:induction false} StuckExactly(run: seq<State>, n: nat, k: nat)
    requires Run(run, n, false, true) && n < BIAS && k < |run|
    ensures Stuck(run[k]) <==> Num(run[k].pcs, Reader) == 0 && exists j :: 0 <= j <= k && Outnumbered(run[j])
  {
    hide Num, Run, Outnumbered, Starved, Stuck;
    RunInv(run, n, k);
    StarvedCases(run[k]);
    if Stuck(run[k]) {
      var j := StarvedFrom(run, n, k);
    }
    if j :| 0 <= j <= k && Outnumbered(run[j]) {
      RunInv(run, n, j);
      StarvedCases(run[j]);
      StarvedForever(run, n, j, k);
    }
  }
}
