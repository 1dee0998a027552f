/** The cross-process read/write lock of apc_lock.c (the PHP_WIN32 branch), as a transition system
    over any number of single-threaded processes, each of which may die between any two steps. */
module Lock {

  /** A DWORD process id; 0 is the source's "no writer". */
  newtype Pid = p: int | 0 <= p < 0x1_0000_0000

  const NOBODY: Pid := 0

  /** The readers word is a 32-bit LONG, kept here by its residue. */
  const WORD: int := 0x1_0000_0000

  /** Locals of the two acquire loops: start_tick != 0, and timeout_pid. */
  datatype Locals = Locals(timing: bool, timeoutPid: Pid)

  const FRESH := Locals(false, NOBODY)

  /** Every access to the three shared words (readers, writer, writer_pid) is one step, so all
      interleavings of the source's interlocked operations are runs of this system. A program
      counter is named after the access it is about to make. */
  datatype PC =
    | Idle
      // apc_lock_rlock_impl
    | RCheck(l: Locals)                   // while (lock->writer)
    | RReadPid(l: Locals)                 // holder_pid = lock->writer_pid
    | RJudge(l: Locals, holder: Pid)      // apc_lock_process_alive(holder_pid)
    | RResnap                             // timeout_pid = lock->writer_pid
    | RCas(l: Locals, target: Pid)        // CompareExchange(writer_pid, 0, target)
    | RClear(l: Locals)                   // Exchange(writer, 0)
    | RInc(l: Locals)                     // InterlockedIncrement(readers)
    | RRecheck(l: Locals)                 // if (!lock->writer)
    | RDec(l: Locals)                     // InterlockedDecrement(readers)
    | RHold                               // read lock held
    | RUnlock                             // apc_lock_runlock: InterlockedDecrement(readers)
      // apc_lock_wlock_impl
    | WTry(l: Locals)                     // CompareExchange(writer, 1, 0)
    | WReadPid(l: Locals)                 // holder_pid = lock->writer_pid
    | WJudge(l: Locals, holder: Pid)      // apc_lock_process_alive(holder_pid)
    | WTimeout(l: Locals, holder: Pid)    // wall-clock branch
    | WResnap                             // timeout_pid = lock->writer_pid
    | WCasHolder(l: Locals, target: Pid)  // CompareExchange(writer_pid, 0, holder_pid)
    | WCasTimeout(target: Pid)            // CompareExchange(writer_pid, 0, timeout_pid)
    | WClear                              // Exchange(writer, 0)
    | WSetPid                             // Exchange(writer_pid, my_pid)
    | WDrain                              // while (lock->readers)
    | WAbortPid                           // timed out: Exchange(writer_pid, 0)
    | WAbortFlag                          //            Exchange(writer, 0)
    | WHold                               // write lock held
      // apc_lock_wunlock
    | WUnlockPid                          // Exchange(writer_pid, 0)
    | WUnlockFlag                         // Exchange(writer, 0)

  datatype Proc = Proc(alive: bool, pc: PC)

  /** The shared words, the processes, and (for the proof only) whose duty it is to clear the
      writer flag: the process whose CompareExchange set it or took it over. */
  datatype State = State(readers: int, writer: bool, writerPid: Pid, procs: map<Pid, Proc>, duty: Pid)

  ghost predicate Init(s: State) {
    s == State(0, false, NOBODY, map[], NOBODY)
  }

  function Goto(s: State, p: Pid, pc: PC): State
    requires p in s.procs
  {
    s.(procs := s.procs[p := s.procs[p].(pc := pc)])
  }

  predicate Alive(s: State, p: Pid) {
    p in s.procs && s.procs[p].alive
  }

  /** What a program counter does to the three shared words. */
  datatype Op =
    | Look                      // reads only
    | Increment | Decrement     // readers
    | TakeFlag                  // CompareExchange(writer, 1, 0)
    | PutPid | DropPid          // Exchange(writer_pid, my_pid / 0)
    | DropFlag                  // Exchange(writer, 0)
    | Revoke(target: Pid)       // CompareExchange(writer_pid, 0, target)

  function OpOf(pc: PC): Op {
    match pc
    case RInc(_) => Increment
    case RDec(_) => Decrement
    case RUnlock => Decrement
    case WTry(_) => TakeFlag
    case WSetPid => PutPid
    case WAbortPid => DropPid
    case WUnlockPid => DropPid
    case RClear(_) => DropFlag
    case WClear => DropFlag
    case WAbortFlag => DropFlag
    case WUnlockFlag => DropFlag
    case RCas(_, t) => Revoke(t)
    case WCasHolder(_, t) => Revoke(t)
    case WCasTimeout(t) => Revoke(t)
    case _ => Look
  }

  function Act(s: State, p: Pid, op: Op): State {
    match op
    case Look => s
    case Increment => s.(readers := (s.readers + 1) % WORD)
    case Decrement => s.(readers := (s.readers - 1) % WORD)
    case TakeFlag => if s.writer then s else s.(writer := true, duty := p)
    case PutPid => s.(writerPid := p)
    case DropPid => s.(writerPid := NOBODY)
    case DropFlag => s.(writer := false, duty := NOBODY)
    case Revoke(t) => if s.writerPid == t then s.(writerPid := NOBODY, duty := p) else s
  }

  /** Where p may go next, given the shared words its access saw. Spin counts and clocks decide
      only which of several continuations is taken, so they appear as a free choice. The
      liveness query may call a process dead only when it is; it may be wrong the other way
      (exit code 259). */
  predicate May(s: State, p: Pid, pc': PC)
    requires p in s.procs
  {
    if s.procs[p].pc.Idle? then pc' == RCheck(FRESH) || pc' == WTry(FRESH)
    else MayRead(s, s.procs[p].pc, pc') || MayWrite(s, p, s.procs[p].pc, pc')
  }

  /** apc_lock_rlock_impl and apc_lock_runlock. */
  predicate MayRead(s: State, pc: PC, pc': PC) {
    match pc
    case RCheck(l) => if s.writer then pc' == RCheck(l) || pc' == RReadPid(l) else pc' == RInc(l)
    case RReadPid(l) => pc' == RJudge(l, s.writerPid)
    case RJudge(l, holder) =>
      || (holder != NOBODY && !Alive(s, holder) && pc' == RCas(l, holder))
      || (!l.timing && pc' == RCheck(Locals(true, holder)))
      || (l.timing && pc' == RCheck(l))
      || (l.timing && l.timeoutPid != NOBODY && !Alive(s, l.timeoutPid) && pc' == RCas(l, l.timeoutPid))
      || (l.timing && pc' == RResnap)
    case RResnap => pc' == RCheck(Locals(true, s.writerPid))
    case RCas(l, target) => pc' == if s.writerPid == target then RClear(l) else RInc(l)
    case RClear(l) => pc' == RInc(l)
    case RInc(l) => pc' == RRecheck(l)
    case RRecheck(l) => pc' == if s.writer then RDec(l) else RHold
    case RDec(l) => pc' == RCheck(l)
    case RHold => pc' == RHold || pc' == RUnlock
    case RUnlock => pc' == Idle
    case _ => false
  }

  /** apc_lock_wlock_impl and apc_lock_wunlock. */
  predicate MayWrite(s: State, p: Pid, pc: PC, pc': PC) {
    match pc
    case WTry(l) => if s.writer then pc' == WTry(l) || pc' == WReadPid(l) else pc' == WSetPid
    case WReadPid(l) => pc' == WJudge(l, s.writerPid)
    case WJudge(l, holder) =>
      || (holder != NOBODY && holder != p && !Alive(s, holder) && pc' == WCasHolder(l, holder))
      || pc' == WTimeout(l, holder)
    case WTimeout(l, holder) =>
      || (!l.timing && pc' == WTry(Locals(true, holder)))
      || (l.timing && pc' == WTry(l))
      || (l.timing && l.timeoutPid != NOBODY && !Alive(s, l.timeoutPid) && pc' == WCasTimeout(l.timeoutPid))
      || (l.timing && pc' == WResnap)
    case WResnap => pc' == WTry(Locals(true, s.writerPid))
    case WCasHolder(l, target) => pc' == if s.writerPid == target then WClear else WTimeout(l, target)
    case WCasTimeout(target) => pc' == if s.writerPid == target then WClear else WResnap
    case WClear => pc' == WTry(FRESH)
    case WSetPid => pc' == WDrain
    case WDrain => if s.readers != 0 then pc' == WDrain || pc' == WAbortPid else pc' == WHold
    case WAbortPid => pc' == WAbortFlag
    case WAbortFlag => pc' == Idle
    case WHold => pc' == WHold || pc' == WUnlockPid
    case WUnlockPid => pc' == WUnlockFlag
    case WUnlockFlag => pc' == Idle
    case _ => false
  }

  /** One step of p: its access to the shared words, then the jump. */
  function Step(s: State, p: Pid, pc': PC): State
    requires p in s.procs
  {
    Goto(Act(s, p, OpOf(s.procs[p].pc)), p, pc')
  }

  function Start(s: State, p: Pid): State {
    s.(procs := s.procs[p := Proc(true, Idle)])
  }

  function Die(s: State, p: Pid): State
    requires p in s.procs
  {
    s.(procs := s.procs[p := s.procs[p].(alive := false)])
  }

  /** A process starts (process ids are not reused), dies where it stands, or takes a step. */
  ghost predicate Next(s: State, s': State) {
    || (exists p: Pid :: p != NOBODY && p !in s.procs && s' == Start(s, p))
    || (exists p: Pid :: Alive(s, p) && s' == Die(s, p))
    || (exists p: Pid, pc': PC :: Alive(s, p) && May(s, p, pc') && s' == Step(s, p, pc'))
  }

  /** A run: any finite sequence of steps of any of the processes. */
  ghost predicate Run(t: seq<State>) {
    var n := |t| - 1;
    t != [] && if n == 0 then Init(t[0]) else Run(t[..n]) && Next(t[n - 1], t[n])
  }

  // ------------------------------------------------------------------- the invariant

  /** What a program counter means for the lock. */
  datatype Phase =
    | Outside      // no trace in the shared words
    | Entered      // counted in readers
    | Reading      // counted, and inside the read section
    | Owing        // owes the lock a writer := 0, its pid not (or no longer) published
    | Draining     // owes it, pid published
    | Writing      // owes it, pid published, readers seen drained
    | Leaving      // owes it, pid withdrawn after writing
  {
    predicate Counted() { Entered? || Reading? }
    predicate OnDuty() { Owing? || Published() || Leaving? }
    predicate Published() { Draining? || Writing? }
    predicate Drained() { Writing? || Leaving? }
  }

  function PhaseOf(pc: PC): Phase {
    match pc
    case RRecheck(_) => Entered
    case RDec(_) => Entered
    case RUnlock => Entered
    case RHold => Reading
    case RClear(_) => Owing
    case WClear => Owing
    case WSetPid => Owing
    case WAbortFlag => Owing
    case WDrain => Draining
    case WAbortPid => Draining
    case WHold => Writing
    case WUnlockPid => Writing
    case WUnlockFlag => Leaving
    case _ => Outside
  }

  function PhaseAt(s: State, p: Pid): Phase
    requires p in s.procs
  {
    PhaseOf(s.procs[p].pc)
  }

  ghost function Readers(s: State): set<Pid> {
    set p | p in s.procs && PhaseAt(s, p).Counted()
  }

  ghost predicate DutyOk(s: State) {
    && NOBODY !in s.procs
    && (s.writer <==> s.duty != NOBODY)
    && (s.duty != NOBODY ==> s.duty in s.procs && PhaseAt(s, s.duty).OnDuty())
    && (forall p :: Alive(s, p) && PhaseAt(s, p).OnDuty() ==> s.duty == p)
    && s.writerPid == if s.duty != NOBODY && PhaseAt(s, s.duty).Published() then s.duty else NOBODY
  }

  ghost predicate CountOk(s: State) {
    s.readers == |Readers(s)| % WORD
  }

  ghost predicate ExclusionOk(s: State) {
    s.duty in s.procs && PhaseAt(s, s.duty).Drained() ==> forall q :: q in s.procs ==> !PhaseAt(s, q).Reading?
  }

  /** The process ids a program counter remembers, and those among them found dead. */
  function Snapshots(pc: PC): set<Pid> {
    match pc
    case RCheck(l) => {l.timeoutPid}
    case RReadPid(l) => {l.timeoutPid}
    case RJudge(l, h) => {l.timeoutPid, h}
    case RCas(l, t) => {l.timeoutPid, t}
    case RClear(l) => {l.timeoutPid}
    case RInc(l) => {l.timeoutPid}
    case RRecheck(l) => {l.timeoutPid}
    case RDec(l) => {l.timeoutPid}
    case WTry(l) => {l.timeoutPid}
    case WReadPid(l) => {l.timeoutPid}
    case WJudge(l, h) => {l.timeoutPid, h}
    case WTimeout(l, h) => {l.timeoutPid, h}
    case WCasHolder(l, t) => {l.timeoutPid, t}
    case WCasTimeout(t) => {t}
    case _ => {}
  }

  predicate Condemns(pc: PC, q: Pid) {
    (pc.RCas? && pc.target == q) || (pc.WCasHolder? && pc.target == q) || (pc.WCasTimeout? && pc.target == q)
  }

  ghost predicate SnapshotsOk(s: State) {
    && (forall p, q :: p in s.procs && q in Snapshots(s.procs[p].pc) ==> q == NOBODY || q in s.procs)
    && (forall p, q :: p in s.procs && Condemns(s.procs[p].pc, q) ==> q in s.procs && !s.procs[q].alive)
  }

  ghost predicate Inv(s: State) {
    DutyOk(s) && CountOk(s) && ExclusionOk(s) && SnapshotsOk(s)
  }

  // ------------------------------------------------- every step keeps the invariant

  /** The phase changes that each kind of access allows. */
  predicate PhaseStep(s: State, op: Op, a: Phase, b: Phase) {
    match op
    case Look =>
      || b == a
      || (a.Entered? && b.Reading? && !s.writer)
      || (a.Reading? && b.Entered?)
      || (a.Draining? && b.Writing? && s.readers == 0)
    case Increment => a.Outside? && b.Entered?
    case Decrement => a.Entered? && b.Outside?
    case TakeFlag => a.Outside? && b == if s.writer then Outside else Owing
    case PutPid => a.Owing? && b.Draining?
    case DropPid => (a.Draining? && b.Owing?) || (a.Writing? && b.Leaving?)
    case DropFlag => (a.Owing? || a.Leaving?) && b.Outside?
    case Revoke(t) => a.Outside? && b == if s.writerPid == t then Owing else Outside
  }

  lemma ReadFlow(s: State, pc: PC, pc': PC)
    requires MayRead(s, pc, pc')
    ensures PhaseStep(s, OpOf(pc), PhaseOf(pc), PhaseOf(pc'))
  {
  }

  lemma WriteFlow(s: State, p: Pid, pc: PC, pc': PC)
    requires MayWrite(s, p, pc, pc')
    ensures PhaseStep(s, OpOf(pc), PhaseOf(pc), PhaseOf(pc'))
  {
  }

  lemma Flow(s: State, p: Pid, pc': PC)
    requires p in s.procs && May(s, p, pc')
    ensures PhaseStep(s, OpOf(s.procs[p].pc), PhaseAt(s, p), PhaseOf(pc'))
  {
    hide MayRead, MayWrite;
    if MayRead(s, s.procs[p].pc, pc') {
      ReadFlow(s, s.procs[p].pc, pc');
    } else if MayWrite(s, p, s.procs[p].pc, pc') {
      WriteFlow(s, p, s.procs[p].pc, pc');
    }
  }

  lemma StepKeepsDuty(s: State, p: Pid, pc': PC)
    requires Inv(s) && Alive(s, p) && PhaseStep(s, OpOf(s.procs[p].pc), PhaseAt(s, p), PhaseOf(pc'))
    ensures DutyOk(Step(s, p, pc'))
  {
  }

  lemma ReadersAfterJump(s: State, s': State, p: Pid)
    requires p in s'.procs && s'.procs == s.procs[p := s'.procs[p]]
    ensures Readers(s') == if PhaseAt(s', p).Counted() then Readers(s) + {p} else Readers(s) - {p}
  {
    hide PhaseOf;
  }

  function Delta(op: Op): int {
    match op case Increment => 1 case Decrement => -1 case _ => 0
  }

  lemma ReadersWord(s: State, p: Pid, op: Op, n: int)
    requires s.readers == n % WORD
    ensures Act(s, p, op).readers == (n + Delta(op)) % WORD
  {
  }

  lemma PhaseDelta(s: State, op: Op, a: Phase, b: Phase)
    requires PhaseStep(s, op, a, b)
    ensures (if b.Counted() then 1 else 0) - (if a.Counted() then 1 else 0) == Delta(op)
  {
  }

  lemma CardAfterJump(before: set<Pid>, after: set<Pid>, p: Pid, counted: bool)
    requires after == if counted then before + {p} else before - {p}
    ensures |after| - |before| == (if counted then 1 else 0) - (if p in before then 1 else 0)
  {
    if p in before && counted {
      assert after == before;
    } else if p !in before && !counted {
      assert after == before;
    }
  }

  lemma StepKeepsCount(s: State, p: Pid, pc': PC)
    requires CountOk(s) && Alive(s, p) && PhaseStep(s, OpOf(s.procs[p].pc), PhaseAt(s, p), PhaseOf(pc'))
    ensures CountOk(Step(s, p, pc'))
  {
    var s' := Step(s, p, pc');
    var op := OpOf(s.procs[p].pc);
    assert p in Readers(s) <==> PhaseAt(s, p).Counted();
    ReadersAfterJump(s, s', p);
    hide PhaseOf, OpOf, Readers;
    CardAfterJump(Readers(s), Readers(s'), p, PhaseAt(s', p).Counted());
    PhaseDelta(s, op, PhaseAt(s, p), PhaseOf(pc'));
    ReadersWord(s, p, op, |Readers(s)|);
    hide Act, PhaseStep, Delta;
  }

  /** There are fewer process ids than values of the readers word, so the word cannot wrap to
      zero while a reader is counted. */
  lemma {:induction false} FewPids(ps: set<Pid>, n: int)
    requires 1 <= n <= WORD && NOBODY !in ps && forall p :: p in ps ==> p as int < n
    ensures |ps| < n
    decreases n
  {
    if n > 1 {
      var top := (n - 1) as Pid;
      FewPids(ps - {top}, n - 1);
    } else {
      assert ps == {};
    }
  }

  lemma ZeroMeansNoReader(s: State)
    requires Inv(s)
    ensures s.readers == 0 <==> Readers(s) == {}
  {
    FewPids(Readers(s), WORD);
  }

  lemma StepKeepsExclusion(s: State, p: Pid, pc': PC)
    requires Inv(s) && Alive(s, p) && PhaseStep(s, OpOf(s.procs[p].pc), PhaseAt(s, p), PhaseOf(pc'))
    ensures ExclusionOk(Step(s, p, pc'))
  {
    ZeroMeansNoReader(s);
    assert forall q :: q in s.procs && PhaseAt(s, q).Reading? ==> q in Readers(s);
    hide PhaseOf, OpOf, CountOk, SnapshotsOk;
  }

  lemma SnapshotReadFlow(s: State, pc: PC, pc': PC, q: Pid)
    requires MayRead(s, pc, pc') && q in Snapshots(pc')
    ensures q in Snapshots(pc) || q == s.writerPid || q == NOBODY
  {
  }

  lemma SnapshotWriteFlow(s: State, p: Pid, pc: PC, pc': PC, q: Pid)
    requires MayWrite(s, p, pc, pc') && q in Snapshots(pc')
    ensures q in Snapshots(pc) || q == s.writerPid || q == NOBODY
  {
  }

  lemma SnapshotFlow(s: State, p: Pid, pc': PC, q: Pid)
    requires p in s.procs && May(s, p, pc') && q in Snapshots(pc')
    ensures q in Snapshots(s.procs[p].pc) || q == s.writerPid || q == NOBODY
  {
    hide MayRead, MayWrite;
    if MayRead(s, s.procs[p].pc, pc') {
      SnapshotReadFlow(s, s.procs[p].pc, pc', q);
    } else if MayWrite(s, p, s.procs[p].pc, pc') {
      SnapshotWriteFlow(s, p, s.procs[p].pc, pc', q);
    }
  }

  lemma StepKeepsSnapshots(s: State, p: Pid, pc': PC)
    requires DutyOk(s) && SnapshotsOk(s) && Alive(s, p)
    requires forall q :: q in Snapshots(pc') ==> q in Snapshots(s.procs[p].pc) || q == s.writerPid || q == NOBODY
    requires forall q :: Condemns(pc', q) ==> q in Snapshots(s.procs[p].pc) && q != NOBODY && !Alive(s, q)
    ensures SnapshotsOk(Step(s, p, pc'))
  {
    hide Snapshots, Condemns, OpOf;
    assert s.writerPid == NOBODY || s.writerPid in s.procs by {
      hide SnapshotsOk;
    }
    hide DutyOk;
    var s' := Step(s, p, pc');
    assert s'.procs == s.procs[p := Proc(true, pc')];
    forall r, q | r in s'.procs && q in Snapshots(s'.procs[r].pc)
      ensures q == NOBODY || q in s'.procs
    {
      assert r != p ==> q in Snapshots(s.procs[r].pc);
    }
    forall r, q | r in s'.procs && Condemns(s'.procs[r].pc, q)
      ensures q in s'.procs && !s'.procs[q].alive
    {
      if r == p {
        assert q in Snapshots(s.procs[p].pc);
      } else {
        assert Condemns(s.procs[r].pc, q);
      }
    }
  }

  lemma CondemnFlow(s: State, p: Pid, pc': PC)
    requires p in s.procs && May(s, p, pc')
    ensures forall q :: Condemns(pc', q) ==> q in Snapshots(s.procs[p].pc) && q != NOBODY && !Alive(s, q)
  {
  }

  lemma StepKeepsInv(s: State, p: Pid, pc': PC)
    requires Inv(s) && Alive(s, p) && May(s, p, pc')
    ensures Inv(Step(s, p, pc'))
  {
    hide May, PhaseStep, PhaseOf, OpOf, Snapshots, Condemns, Act;
    Flow(s, p, pc');
    CondemnFlow(s, p, pc');
    StepKeepsDuty(s, p, pc');
    StepKeepsCount(s, p, pc');
    StepKeepsExclusion(s, p, pc');
    forall q | q in Snapshots(pc')
      ensures q in Snapshots(s.procs[p].pc) || q == s.writerPid || q == NOBODY
    {
      SnapshotFlow(s, p, pc', q);
    }
    StepKeepsSnapshots(s, p, pc');
  }

  lemma StartKeepsInv(s: State, p: Pid)
    requires Inv(s) && p != NOBODY && p !in s.procs
    ensures Inv(Start(s, p))
  {
    assert Readers(Start(s, p)) == Readers(s);
  }

  lemma DieKeepsInv(s: State, p: Pid)
    requires Inv(s) && Alive(s, p)
    ensures Inv(Die(s, p))
  {
    assert Readers(Die(s, p)) == Readers(s);
  }

  lemma NextKeepsInv(s: State, s': State)
    requires Inv(s) && Next(s, s')
    ensures Inv(s')
  {
    hide Inv, May, Step;
    if p: Pid :| p != NOBODY && p !in s.procs && s' == Start(s, p) {
      StartKeepsInv(s, p);
    } else if p: Pid :| Alive(s, p) && s' == Die(s, p) {
      DieKeepsInv(s, p);
    } else {
      var p: Pid, pc': PC :| Alive(s, p) && May(s, p, pc') && s' == Step(s, p, pc');
      StepKeepsInv(s, p, pc');
    }
  }

  /** The invariant holds all along every run. */
  lemma {:induction false} RunKeepsInv(t: seq<State>, i: nat)
    requires Run(t) && i < |t|
    ensures Inv(t[i])
  {
    var n := |t| - 1;
    if n == 0 {
      assert Readers(t[0]) == {};
    } else if i < n {
      RunKeepsInv(t[..n], i);
    } else {
      RunKeepsInv(t[..n], n - 1);
      NextKeepsInv(t[n - 1], t[n]);
    }
  }

  // ------------------------------------------------------------------- the theorems

  /** Safety: while a live process holds the write lock, no other live process holds it, and no
      process at all (not even a dead one) is inside the read section. */
  lemma {:induction false} WriteHolderIsAlone(t: seq<State>, i: nat, p: Pid)
    requires Run(t) && i < |t| && Alive(t[i], p) && t[i].procs[p].pc.WHold?
    ensures forall q :: q != p && Alive(t[i], q) ==> !t[i].procs[q].pc.WHold?
    ensures forall q :: q in t[i].procs ==> !t[i].procs[q].pc.RHold?
  {
    RunKeepsInv(t, i);
    var s := t[i];
    assert PhaseAt(s, p) == Writing && s.duty == p;
    forall q | q in s.procs
      ensures s.procs[q].pc.RHold? ==> PhaseAt(s, q).Reading?
      ensures s.procs[q].pc.WHold? ==> PhaseAt(s, q).OnDuty()
    {
    }
  }

  /** Bookkeeping: the readers word is exactly the number of processes, alive or dead, between
      their increment and their decrement. */
  lemma {:induction false} ReadersIsExact(t: seq<State>, i: nat)
    requires Run(t) && i < |t|
    ensures t[i].readers == |Readers(t[i])|
  {
    RunKeepsInv(t, i);
    FewPids(Readers(t[i]), WORD);
  }

  /** Recovery never takes the flag from a live writer: a step of any other process leaves the
      flag, the published pid and the duty of a live owner alone. */
  lemma {:induction false} LiveOwnerIsNotRevoked(t: seq<State>, i: nat, p: Pid, q: Pid, pc': PC)
    requires Run(t) && i < |t|
    requires Alive(t[i], p) && PhaseAt(t[i], p).OnDuty()
    requires q != p && Alive(t[i], q) && May(t[i], q, pc')
    ensures var s' := Step(t[i], q, pc');
            s'.writer && s'.duty == p && s'.writerPid == t[i].writerPid
  {
    RunKeepsInv(t, i);
    Flow(t[i], q, pc');
  }

  lemma AbortFlow(s: State, p: Pid, pc': PC)
    requires p in s.procs && May(s, p, pc') && (s.procs[p].pc.WAbortPid? || s.procs[p].pc.WAbortFlag?)
    ensures pc' == if s.procs[p].pc.WAbortPid? then WAbortFlag else Idle
  {
  }

  lemma AbortStep(s: State, p: Pid, pc': PC)
    requires Inv(s) && Alive(s, p) && (s.procs[p].pc.WAbortPid? || s.procs[p].pc.WAbortFlag?)
    requires pc' == if s.procs[p].pc.WAbortPid? then WAbortFlag else Idle
    ensures var s' := Step(s, p, pc');
            && s'.readers == s.readers && Readers(s') == Readers(s)
            && s.writer && s'.writerPid == NOBODY
            && (pc'.Idle? ==> !s'.writer && s'.duty == NOBODY)
  {
    assert DutyOk(s) && PhaseAt(s, p).OnDuty();
    hide Inv, CountOk, ExclusionOk, SnapshotsOk;
  }

  /** A write attempt that times out waiting for readers gives the flag back and does not touch
      the readers word, whatever the other processes did between its two stores. */
  lemma {:induction false} AbortReleases(t: seq<State>, i: nat, p: Pid, pc': PC)
    requires Run(t) && i < |t| && Alive(t[i], p) && May(t[i], p, pc')
    requires t[i].procs[p].pc.WAbortPid? || t[i].procs[p].pc.WAbortFlag?
    ensures var s, s' := t[i], Step(t[i], p, pc');
            && s'.readers == s.readers && Readers(s') == Readers(s)
            && s.writer && s'.writerPid == NOBODY
            && (pc'.Idle? <==> s.procs[p].pc.WAbortFlag?)
            && (pc'.Idle? ==> !s'.writer && s'.duty == NOBODY)
  {
    hide Run, May, Inv, Step;
    RunKeepsInv(t, i);
    AbortFlow(t[i], p, pc');
    AbortStep(t[i], p, pc');
  }

  /** The flag is set and its owner died with no pid published. */
  ghost predicate Orphaned(s: State) {
    s.writer && s.writerPid == NOBODY && s.duty in s.procs && !s.procs[s.duty].alive
  }

  lemma NextKeepsOrphan(s: State, s': State)
    requires Inv(s) && Orphaned(s) && Next(s, s')
    ensures Orphaned(s')
  {
    hide May;
    if p: Pid, pc': PC :| Alive(s, p) && May(s, p, pc') && s' == Step(s, p, pc') {
      Flow(s, p, pc');
      assert SnapshotsOk(s);
      SnapshotNever0(s, p);
    }
  }

  /** A CompareExchange on writer_pid is never attempted with the null pid. */
  lemma SnapshotNever0(s: State, p: Pid)
    requires Inv(s) && p in s.procs
    ensures OpOf(s.procs[p].pc) != Revoke(NOBODY)
  {
    if OpOf(s.procs[p].pc) == Revoke(NOBODY) {
      assert Condemns(s.procs[p].pc, NOBODY);
    }
  }

  ghost predicate Continues(u: seq<State>, s: State) {
    var n := |u| - 1;
    u != [] && if n == 0 then u[0] == s else Continues(u[..n], s) && Next(u[n - 1], u[n])
  }

  lemma {:induction false} OrphanForever(u: seq<State>, s: State)
    requires Inv(s) && Orphaned(s) && Continues(u, s)
    ensures Inv(u[|u| - 1]) && Orphaned(u[|u| - 1])
  {
    hide Inv, Next;
    var n := |u| - 1;
    if n > 0 {
      OrphanForever(u[..n], s);
      NextKeepsInv(u[n - 1], u[n]);
      NextKeepsOrphan(u[n - 1], u[n]);
    }
  }

  lemma StepIsNext(s: State, p: Pid, pc': PC)
    requires Alive(s, p) && May(s, p, pc')
    ensures Next(s, Step(s, p, pc'))
  {
    hide May, Step;
  }

  lemma Extend(u: seq<State>, s: State, p: Pid, pc': PC) returns (u': seq<State>)
    requires u != [] && Continues(u, s) && Alive(u[|u| - 1], p) && May(u[|u| - 1], p, pc')
    ensures u' != [] && Continues(u', s) && u'[|u'| - 1] == Step(u[|u| - 1], p, pc')
  {
    hide Next, May, Step;
    StepIsNext(u[|u| - 1], p, pc');
    u' := u + [Step(u[|u| - 1], p, pc')];
    assert u'[..|u|] == u;
  }

  /** How a live process takes the flag of a dead owner away: give up on the flag, look at the
      published pid, ... */
  lemma LookingRun(s: State, p: Pid) returns (u: seq<State>)
    requires s.writer && Alive(s, p) && s.procs[p].pc.Idle?
    ensures u != [] && Continues(u, s) && u[|u| - 1] == Goto(s, p, WReadPid(FRESH))
  {
    assert Continues([s], s);
    hide Next, Continues, MayRead;
    u := Extend([s], s, p, WTry(FRESH));
    u := Extend(u, s, p, WReadPid(FRESH));
  }

  /** ... find it dead, ... */
  lemma CondemningRun(s: State, p: Pid, d: Pid) returns (u: seq<State>)
    requires s.writer && s.writerPid == d != NOBODY && !Alive(s, d)
    requires Alive(s, p) && s.procs[p].pc.Idle?
    ensures u != [] && Continues(u, s) && u[|u| - 1] == Goto(s, p, WCasHolder(FRESH, d))
  {
    hide Next, Continues, MayRead;
    u := LookingRun(s, p);
    u := Extend(u, s, p, WJudge(FRESH, d));
    u := Extend(u, s, p, WCasHolder(FRESH, d));
  }

  lemma PublishedByOwner(s: State)
    requires Inv(s) && s.writerPid != NOBODY
    ensures s.writerPid == s.duty
  {
  }

  /** ... revoke it, and clear the flag. */
  lemma RecoveryRun(s: State, p: Pid) returns (u: seq<State>)
    requires Inv(s) && s.writer && s.writerPid != NOBODY && !Alive(s, s.duty)
    requires Alive(s, p) && s.procs[p].pc.Idle?
    ensures u != [] && Continues(u, s)
    ensures u[|u| - 1] == Goto(s.(writer := false, writerPid := NOBODY, duty := NOBODY), p, WTry(FRESH))
  {
    hide Next, Continues, MayRead, Inv;
    PublishedByOwner(s);
    u := CondemningRun(s, p, s.writerPid);
    u := Extend(u, s, p, WClear);
    u := Extend(u, s, p, WTry(FRESH));
  }

  /** When the owner of the flag is dead, the lock can become free again exactly when the owner had
      its pid published at its death. It leaves the flag set for ever if it dies between taking the
      flag and publishing, or between withdrawing the pid (on release, on giving up, or by revoking
      a dead owner's) and dropping the flag. */
  lemma {:induction false} RecoverableIffPublished(t: seq<State>, s: State, p: Pid)
    requires Run(t) && s == t[|t| - 1] && s.writer && !Alive(s, s.duty)
    requires Alive(s, p) && s.procs[p].pc.Idle?
    ensures (exists u: seq<State> :: Continues(u, s) && !u[|u| - 1].writer) <==> s.writerPid != NOBODY
  {
    RunKeepsInv(t, |t| - 1);
    if s.writerPid != NOBODY {
      var u := RecoveryRun(s, p);
    } else {
      forall u: seq<State> | Continues(u, s)
        ensures u[|u| - 1].writer
      {
        OrphanForever(u, s);
      }
    }
  }

  ghost predicate DeadReader(s: State, q: Pid) {
    q in s.procs && !s.procs[q].alive && PhaseAt(s, q).Counted()
  }

  lemma WriteEntry(s: State, p: Pid, pc': PC)
    requires p in s.procs && May(s, p, pc') && pc'.WHold?
    ensures s.procs[p].pc.WHold? || s.readers == 0
  {
  }

  lemma ReadersLeft(s: State, q: Pid)
    requires Inv(s) && DeadReader(s, q)
    ensures s.readers != 0
  {
    ZeroMeansNoReader(s);
    assert q in Readers(s);
  }

  lemma StepUnderDeadReader(s: State, q: Pid, p: Pid, pc': PC)
    requires Inv(s) && DeadReader(s, q) && Alive(s, p) && May(s, p, pc')
    ensures DeadReader(Step(s, p, pc'), q)
    ensures pc'.WHold? ==> s.procs[p].pc.WHold?
  {
    hide PhaseOf, Inv, May, OpOf, Readers;
    if pc'.WHold? {
      ReadersLeft(s, q);
      WriteEntry(s, p, pc');
    }
  }

  lemma NextUnderDeadReader(s: State, s': State, q: Pid, p: Pid)
    requires Inv(s) && Next(s, s') && DeadReader(s, q) && !HoldsWrite(s, p)
    ensures DeadReader(s', q) && !HoldsWrite(s', p)
  {
    hide May, Inv;
    if r: Pid, pc': PC :| Alive(s, r) && May(s, r, pc') && s' == Step(s, r, pc') {
      StepUnderDeadReader(s, q, r, pc');
    }
  }

  predicate HoldsWrite(s: State, p: Pid) {
    p in s.procs && s.procs[p].pc.WHold?
  }

  /** A reader that dies before its decrement stays counted, and from then on no write attempt
      gets past the drain loop, whatever happens: it can only time out and abort. */
  lemma {:induction false} DeadReaderBlocksWriters(u: seq<State>, s: State, q: Pid, p: Pid)
    requires Inv(s) && Continues(u, s) && DeadReader(s, q) && !HoldsWrite(s, p)
    ensures Inv(u[|u| - 1]) && DeadReader(u[|u| - 1], q) && !HoldsWrite(u[|u| - 1], p)
  {
    hide Inv, Next, DeadReader, HoldsWrite;
    var n := |u| - 1;
    if n > 0 {
      DeadReaderBlocksWriters(u[..n], s, q, p);
      NextKeepsInv(u[n - 1], u[n]);
      NextUnderDeadReader(u[n - 1], u[n], q, p);
    }
  }

  // ------------------------------------------------- when a writer can still get in

  /** A step of p at the end of a run. */
  lemma Go(u: seq<State>, s: State, p: Pid, pc': PC) returns (u': seq<State>)
    requires u != [] && Continues(u, s) && Inv(u[|u| - 1]) && Alive(u[|u| - 1], p) && May(u[|u| - 1], p, pc')
    ensures u' != [] && Continues(u', s) && Inv(u'[|u'| - 1]) && u'[|u'| - 1] == Step(u[|u| - 1], p, pc')
  {
    hide *;
    u' := Extend(u, s, p, pc');
    StepKeepsInv(u[|u| - 1], p, pc');
  }

  lemma {:induction false} Join(u: seq<State>, v: seq<State>, s: State)
    requires u != [] && v != [] && Continues(u, s) && Continues(v, u[|u| - 1])
    ensures Continues(u + v[1..], s) && u + v[1..] != [] && (u + v[1..])[|u + v[1..]| - 1] == v[|v| - 1]
    decreases |v|
  {
    hide Next;
    var n := |v| - 1;
    if n == 0 {
      assert u + v[1..] == u;
    } else {
      Join(u, v[..n], s);
      assert (u + v[1..])[..|u| + n - 1] == u + v[..n][1..];
    }
  }

  /** Only p has moved, and nobody's claim to the flag has changed. */
  predicate OnlyMoved(s: State, s': State, p: Pid) {
    && p in s'.procs && s'.procs == s.procs[p := s'.procs[p]]
    && s'.writer == s.writer && s'.writerPid == s.writerPid && s'.duty == s.duty
  }

  /** The way of a counted reader to its decrement. */
  function Homewards(s: State, pc: PC): PC {
    match pc
    case RRecheck(l) => if s.writer then RDec(l) else RHold
    case RHold => RUnlock
    case RDec(l) => RCheck(l)
    case _ => Idle
  }

  function ToDecrement(pc: PC): nat {
    match pc
    case RRecheck(_) => 3
    case RHold => 2
    case _ => 1
  }

  lemma HomewardsStep(s: State, q: Pid)
    requires Inv(s) && Alive(s, q) && PhaseAt(s, q).Counted()
    ensures var pc' := Homewards(s, s.procs[q].pc);
            && May(s, q, pc') && OnlyMoved(s, Step(s, q, pc'), q) && Alive(Step(s, q, pc'), q)
            && (PhaseOf(pc').Counted() ==> ToDecrement(pc') < ToDecrement(s.procs[q].pc))
  {
  }

  /** A live reader leaves. */
  lemma {:induction false} LeaveRun(u: seq<State>, s: State, q: Pid) returns (u': seq<State>)
    requires u != [] && Continues(u, s) && Inv(u[|u| - 1]) && Alive(u[|u| - 1], q) && PhaseAt(u[|u| - 1], q).Counted()
    ensures u' != [] && Continues(u', s) && Inv(u'[|u'| - 1])
    ensures OnlyMoved(u[|u| - 1], u'[|u'| - 1], q) && !PhaseAt(u'[|u'| - 1], q).Counted()
    decreases ToDecrement(u[|u| - 1].procs[q].pc)
  {
    hide Inv, Continues, May, PhaseOf, Homewards, ToDecrement;
    var s0 := u[|u| - 1];
    var pc' := Homewards(s0, s0.procs[q].pc);
    HomewardsStep(s0, q);
    u' := Go(u, s, q, pc');
    if PhaseOf(pc').Counted() {
      u' := LeaveRun(u', s, q);
    }
  }

  ghost predicate ReadersLive(s: State) {
    forall q :: q in Readers(s) ==> Alive(s, q)
  }

  /** All readers leave, if none of them is dead. */
  lemma {:induction false} DrainRun(u: seq<State>, s: State) returns (u': seq<State>)
    requires u != [] && Continues(u, s) && Inv(u[|u| - 1]) && ReadersLive(u[|u| - 1])
    ensures u' != [] && Continues(u', s) && Inv(u'[|u'| - 1]) && Readers(u'[|u'| - 1]) == {}
    ensures var s0, s1 := u[|u| - 1], u'[|u'| - 1];
            && s1.writer == s0.writer && s1.writerPid == s0.writerPid && s1.duty == s0.duty
            && forall r :: r in s0.procs && r !in Readers(s0) ==> r in s1.procs && s1.procs[r] == s0.procs[r]
    decreases |Readers(u[|u| - 1])|
  {
    hide Inv, Continues, PhaseOf;
    var s0 := u[|u| - 1];
    u' := u;
    if Readers(s0) != {} {
      var q :| q in Readers(s0);
      u' := LeaveRun(u, s, q);
      var s1 := u'[|u'| - 1];
      ReadersAfterJump(s0, s1, q);
      assert |Readers(s1)| < |Readers(s0)| by { CardAfterJump(Readers(s0), Readers(s1), q, false); }
      u' := DrainRun(u', s);
    }
  }

  /** The way of the owner of the flag to dropping it. It gives up if there are readers. */
  function Dropwards(s: State, pc: PC): PC {
    match pc
    case RClear(l) => RInc(l)
    case WClear => WTry(FRESH)
    case WSetPid => WDrain
    case WDrain => if s.readers == 0 then WHold else WAbortPid
    case WHold => WUnlockPid
    case WUnlockPid => WUnlockFlag
    case WAbortPid => WAbortFlag
    case _ => Idle
  }

  function ToDrop(pc: PC): nat {
    match pc
    case WSetPid => 5
    case WDrain => 4
    case WHold => 3
    case WUnlockPid => 2
    case WAbortPid => 2
    case _ => 1
  }

  lemma DropwardsStep(s: State, d: Pid)
    requires Inv(s) && s.duty == d && Alive(s, d)
    ensures var pc' := Dropwards(s, s.procs[d].pc);
            && May(s, d, pc') && Step(s, d, pc').readers == s.readers && !PhaseOf(pc').Counted()
            && Step(s, d, pc').procs == s.procs[d := Proc(true, pc')]
            && (Step(s, d, pc').writer ==> Step(s, d, pc').duty == d && ToDrop(pc') < ToDrop(s.procs[d].pc))
  {
  }

  /** A live owner drops the flag. */
  lemma {:induction false} DropRun(u: seq<State>, s: State, d: Pid) returns (u': seq<State>)
    requires u != [] && Continues(u, s) && Inv(u[|u| - 1])
    requires u[|u| - 1].writer && u[|u| - 1].duty == d && Alive(u[|u| - 1], d)
    ensures u' != [] && Continues(u', s) && Inv(u'[|u'| - 1]) && !u'[|u'| - 1].writer
    ensures d in u'[|u'| - 1].procs && u'[|u'| - 1].procs == u[|u| - 1].procs[d := u'[|u'| - 1].procs[d]]
    ensures u'[|u'| - 1].readers == u[|u| - 1].readers
    decreases ToDrop(u[|u| - 1].procs[d].pc)
  {
    hide Inv, Continues, May, PhaseOf, Dropwards, ToDrop, Act, OpOf;
    var s0 := u[|u| - 1];
    DropwardsStep(s0, d);
    u' := Go(u, s, d, Dropwards(s0, s0.procs[d].pc));
    if u'[|u'| - 1].writer {
      u' := DropRun(u', s, d);
    }
  }

  /** With neither flag nor readers in the way, p gets in. */
  lemma EnterRun(u: seq<State>, s: State, p: Pid) returns (u': seq<State>)
    requires u != [] && Continues(u, s) && Alive(u[|u| - 1], p) && !u[|u| - 1].writer && u[|u| - 1].readers == 0
    requires u[|u| - 1].procs[p].pc.Idle? || u[|u| - 1].procs[p].pc == WTry(FRESH)
    ensures u' != [] && Continues(u', s) && Alive(u'[|u'| - 1], p) && HoldsWrite(u'[|u'| - 1], p)
  {
    hide Next, Continues, MayRead;
    u' := u;
    if u[|u| - 1].procs[p].pc.Idle? {
      u' := Extend(u', s, p, WTry(FRESH));
    }
    u' := Extend(u', s, p, WSetPid);
    u' := PublishRun(u', s, p);
  }

  lemma PublishRun(u: seq<State>, s: State, p: Pid) returns (u': seq<State>)
    requires u != [] && Continues(u, s) && Alive(u[|u| - 1], p) && u[|u| - 1].readers == 0
    requires u[|u| - 1].procs[p].pc.WSetPid?
    ensures u' != [] && Continues(u', s) && Alive(u'[|u'| - 1], p) && HoldsWrite(u'[|u'| - 1], p)
  {
    hide Next, Continues, MayRead;
    u' := Extend(u, s, p, WDrain);
    u' := Extend(u', s, p, WHold);
  }

  lemma OwnerIsOther(s: State, p: Pid)
    requires Inv(s) && s.writer && p in s.procs && s.procs[p].pc.Idle?
    ensures s.duty in s.procs && s.duty != p && s.duty !in Readers(s) && p !in Readers(s)
  {
  }

  /** A live owner drops the flag, a dead one is revoked. */
  lemma FreeRun(u: seq<State>, s: State, p: Pid) returns (u': seq<State>)
    requires u != [] && Continues(u, s) && Inv(u[|u| - 1]) && u[|u| - 1].readers == 0 && !Orphaned(u[|u| - 1])
    requires Alive(u[|u| - 1], p) && u[|u| - 1].procs[p].pc.Idle?
    ensures u' != [] && Continues(u', s) && Alive(u'[|u'| - 1], p) && !u'[|u'| - 1].writer && u'[|u'| - 1].readers == 0
    ensures u'[|u'| - 1].procs[p].pc.Idle? || u'[|u'| - 1].procs[p].pc == WTry(FRESH)
  {
    var s1 := u[|u| - 1];
    u' := u;
    if s1.writer {
      OwnerIsOther(s1, p);
      hide Inv, Continues;
      if Alive(s1, s1.duty) {
        u' := DropRun(u, s, s1.duty);
      } else {
        var v := RecoveryRun(s1, p);
        Join(u, v, s);
        u' := u + v[1..];
      }
    }
  }

  lemma NoneDead(s: State, p: Pid)
    requires (forall q :: !DeadReader(s, q)) && p in s.procs && s.procs[p].pc.Idle?
    ensures ReadersLive(s) && p !in Readers(s)
  {
    forall q | q in Readers(s) ensures Alive(s, q) {
      assert !DeadReader(s, q);
    }
  }

  lemma NotOrphaned(s: State, s1: State, p: Pid)
    requires Inv(s) && !Orphaned(s) && p in s.procs && s.procs[p].pc.Idle?
    requires s1.writer == s.writer && s1.writerPid == s.writerPid && s1.duty == s.duty
    requires forall r :: r in s.procs && r !in Readers(s) ==> r in s1.procs && s1.procs[r] == s.procs[r]
    ensures !Orphaned(s1)
  {
    if s.writer {
      OwnerIsOther(s, p);
    }
  }

  /** The readers leave, and then p gets in. */
  lemma WriterRun(s: State, p: Pid) returns (u: seq<State>)
    requires Inv(s) && Alive(s, p) && s.procs[p].pc.Idle? && (forall q :: !DeadReader(s, q)) && !Orphaned(s)
    ensures u != [] && Continues(u, s) && Alive(u[|u| - 1], p) && HoldsWrite(u[|u| - 1], p)
  {
    assert Continues([s], s);
    NoneDead(s, p);
    hide Inv, Continues, HoldsWrite, DeadReader, ReadersLive, Orphaned, Readers;
    u := DrainRun([s], s);
    ZeroMeansNoReader(u[|u| - 1]);
    NotOrphaned(s, u[|u| - 1], p);
    u := FreeRun(u, s, p);
    u := EnterRun(u, s, p);
  }

  /** An idle live process can still get the write lock, in some continuation, exactly if no dead
      process is counted as a reader and no dead process left the flag set without its pid. */
  lemma {:induction false} WriterMayEnterIff(t: seq<State>, s: State, p: Pid)
    requires Run(t) && s == t[|t| - 1] && Alive(s, p) && s.procs[p].pc.Idle?
    ensures (exists u: seq<State> :: Continues(u, s) && Alive(u[|u| - 1], p) && HoldsWrite(u[|u| - 1], p))
            <==> (forall q :: !DeadReader(s, q)) && !Orphaned(s)
  {
    RunKeepsInv(t, |t| - 1);
    if (forall q :: !DeadReader(s, q)) && !Orphaned(s) {
      var u := WriterRun(s, p);
    }
    forall u: seq<State> | Continues(u, s) && Alive(u[|u| - 1], p) && HoldsWrite(u[|u| - 1], p)
      ensures (forall q :: !DeadReader(s, q)) && !Orphaned(s)
    {
      if q :| DeadReader(s, q) {
        DeadReaderBlocksWriters(u, s, q, p);
      }
      if Orphaned(s) {
        OrphanForever(u, s);
        HolderOwns(u[|u| - 1], p);
      }
    }
  }

  lemma HolderOwns(s: State, p: Pid)
    requires Inv(s) && Alive(s, p) && HoldsWrite(s, p)
    ensures s.duty == p
  {
    assert PhaseAt(s, p).OnDuty();
  }

  // ------------------------------------------------- when a reader can get in

  predicate HoldsRead(s: State, p: Pid) {
    p in s.procs && s.procs[p].pc.RHold?
  }

  /** Without the flag, p gets in, also beside other readers. */
  lemma EnterReadRun(u: seq<State>, s: State, p: Pid) returns (u': seq<State>)
    requires u != [] && Continues(u, s) && Alive(u[|u| - 1], p) && !u[|u| - 1].writer
    requires u[|u| - 1].procs[p].pc.Idle? || u[|u| - 1].procs[p].pc == RInc(FRESH)
    ensures u' != [] && Continues(u', s) && Alive(u'[|u'| - 1], p) && HoldsRead(u'[|u'| - 1], p)
  {
    hide Next, Continues, MayWrite;
    u' := u;
    if u[|u| - 1].procs[p].pc.Idle? {
      u' := Extend(u', s, p, RCheck(FRESH));
      u' := Extend(u', s, p, RInc(FRESH));
    }
    u' := Extend(u', s, p, RRecheck(FRESH));
    u' := Extend(u', s, p, RHold);
  }

  /** A reader, too, looks at the published pid, finds it dead, ... */
  lemma ReaderCondemns(s: State, p: Pid, d: Pid) returns (u: seq<State>)
    requires s.writer && s.writerPid == d != NOBODY && !Alive(s, d)
    requires Alive(s, p) && s.procs[p].pc.Idle?
    ensures u != [] && Continues(u, s) && u[|u| - 1] == Goto(s, p, RCas(FRESH, d))
  {
    assert Continues([s], s);
    hide Next, Continues, MayWrite;
    u := Extend([s], s, p, RCheck(FRESH));
    u := Extend(u, s, p, RReadPid(FRESH));
    u := Extend(u, s, p, RJudge(FRESH, d));
    u := Extend(u, s, p, RCas(FRESH, d));
  }

  /** ... revokes it, and clears the flag. */
  lemma ReaderRecovers(s: State, p: Pid) returns (u: seq<State>)
    requires Inv(s) && s.writer && s.writerPid != NOBODY && !Alive(s, s.duty)
    requires Alive(s, p) && s.procs[p].pc.Idle?
    ensures u != [] && Continues(u, s) && Alive(u[|u| - 1], p) && !u[|u| - 1].writer
    ensures u[|u| - 1].procs[p].pc == RInc(FRESH)
  {
    hide Next, Continues, MayWrite, Inv;
    PublishedByOwner(s);
    u := ReaderCondemns(s, p, s.writerPid);
    u := Extend(u, s, p, RClear(FRESH));
    u := Extend(u, s, p, RInc(FRESH));
  }

  lemma ReaderRun(s: State, p: Pid) returns (u: seq<State>)
    requires Inv(s) && Alive(s, p) && s.procs[p].pc.Idle? && !Orphaned(s)
    ensures u != [] && Continues(u, s) && Alive(u[|u| - 1], p) && HoldsRead(u[|u| - 1], p)
  {
    assert Continues([s], s);
    if s.writer { OwnerIsOther(s, p); }
    hide Inv, Continues, HoldsRead, Readers;
    u := [s];
    if s.writer {
      if Alive(s, s.duty) {
        u := DropRun(u, s, s.duty);
      } else {
        u := ReaderRecovers(s, p);
      }
    }
    u := EnterReadRun(u, s, p);
  }

  /** While the flag is orphaned, nobody gets a read lock. */
  lemma {:induction false} NoReaderWhenOrphaned(u: seq<State>, s: State, p: Pid)
    requires Inv(s) && Orphaned(s) && Continues(u, s) && !HoldsRead(s, p)
    ensures !HoldsRead(u[|u| - 1], p)
  {
    hide Inv, Orphaned, MayWrite;
    var n := |u| - 1;
    if n > 0 {
      NoReaderWhenOrphaned(u[..n], s, p);
      OrphanForever(u[..n], s);
      StillNoReader(u[n - 1], u[n], p);
    }
  }

  lemma StillNoReader(s: State, s': State, p: Pid)
    requires Orphaned(s) && Next(s, s') && !HoldsRead(s, p)
    ensures !HoldsRead(s', p)
  {
  }

  /** An idle live process can get a read lock, in some continuation, exactly if no dead process left the flag
      set without its pid. Readers that died while they were counted are not in its way. */
  lemma {:induction false} ReaderMayEnterIff(t: seq<State>, s: State, p: Pid)
    requires Run(t) && s == t[|t| - 1] && Alive(s, p) && s.procs[p].pc.Idle?
    ensures (exists u: seq<State> :: Continues(u, s) && Alive(u[|u| - 1], p) && HoldsRead(u[|u| - 1], p))
            <==> !Orphaned(s)
  {
    RunKeepsInv(t, |t| - 1);
    if Orphaned(s) {
      forall u: seq<State> | Continues(u, s) ensures !HoldsRead(u[|u| - 1], p) {
        NoReaderWhenOrphaned(u, s, p);
      }
    } else {
      var u := ReaderRun(s, p);
    }
  }

  // ------------------------------------------------- both conditions can fail

  lemma GrowRun(t: seq<State>, p: Pid, pc': PC) returns (t': seq<State>)
    requires Run(t) && Alive(t[|t| - 1], p) && May(t[|t| - 1], p, pc')
    ensures Run(t') && t'[|t'| - 1] == Step(t[|t| - 1], p, pc')
  {
    hide Next, May, Step;
    StepIsNext(t[|t| - 1], p, pc');
    t' := t + [Step(t[|t| - 1], p, pc')];
    assert t'[..|t|] == t;
  }

  lemma StartRun(p: Pid) returns (t: seq<State>)
    requires p != NOBODY
    ensures Run(t) && t[|t| - 1] == State(0, false, NOBODY, map[p := Proc(true, Idle)], NOBODY)
  {
    var s := State(0, false, NOBODY, map[], NOBODY);
    assert Run([s]) && Next(s, Start(s, p));
    hide Next;
    t := [s] + [Start(s, p)];
    assert t[..1] == [s];
  }

  lemma DieRun(t: seq<State>, p: Pid) returns (t': seq<State>)
    requires Run(t) && Alive(t[|t| - 1], p)
    ensures Run(t') && t'[|t'| - 1] == Die(t[|t| - 1], p)
  {
    assert Next(t[|t| - 1], Die(t[|t| - 1], p));
    hide Next;
    t' := t + [Die(t[|t| - 1], p)];
    assert t'[..|t|] == t;
  }

  /** A writer that dies before it has published its pid leaves the flag set for ever. */
  lemma {:induction false} OrphanExists(p: Pid)
    requires p != NOBODY
    ensures exists t: seq<State> :: Run(t) && Orphaned(t[|t| - 1])
  {
    hide Run;
    var t := StartRun(p);
    t := GrowRun(t, p, WTry(FRESH));
    t := GrowRun(t, p, WSetPid);
    t := DieRun(t, p);
  }

  /** A reader that dies before it has decremented the readers stays counted. */
  lemma {:induction false} DeadReaderExists(p: Pid)
    requires p != NOBODY
    ensures exists t: seq<State> :: Run(t) && DeadReader(t[|t| - 1], p)
  {
    hide Run;
    var t := StartRun(p);
    t := GrowRun(t, p, RCheck(FRESH));
    t := GrowRun(t, p, RInc(FRESH));
    t := GrowRun(t, p, RRecheck(FRESH));
    t := DieRun(t, p);
  }
}
