/**
 apcu_entry: apc_cache_entry (apc_cache.c) holds the write lock while it runs user code, which may
 call any apcu function, also apcu_entry again. The lock wrappers of apc_cache.h therefore do
 nothing while entry_level is not 0.
 */
module EntryLevel {
  import opened Basics

  /** A call that user code makes. Entry is apcu_entry: granted tells whether the lock can be had,
      hit whether the key is found; if not, the generator makes the calls in body, and throws tells
      whether it fails after them. If the call fails, caught tells whether its caller goes on all the
      same. Other is one locked section of any other apcu function. */
  datatype Call =
    | Other(granted: bool)
    | Entry(granted: bool, hit: bool, body: seq<Call>, throws: bool, caught: bool)

  /** A piece of work under the lock: apcu_entry looks for its key, or stores the generated value; or any
      other function does its work. */
  datatype Piece = Lookup | Saving | Section

  /** What happens to the real lock, and what is done under it. */
  datatype Event = Take | Give | Work(piece: Piece)

  predicate Inner(trace: seq<Event>) {
    forall i :: 0 <= i < |trace| ==> trace[i].Work?
  }

  // ---- what a call amounts to, once its lock can be had

  /** Its generator fails, by itself or because a call in it fails that is not caught. */
  predicate Fails(c: Call)
    decreases c, 0
  {
    c.Entry? && !c.hit && (c.throws || exists i :: 0 <= i < |c.body| && Escapes(c.body[i]))
  }

  predicate Escapes(c: Call)
    decreases c, 1
  {
    Fails(c) && !c.caught
  }

  /** How many calls of a generator are made: all, or those up to the first failure that is not caught. */
  function Made(cs: seq<Call>): (n: nat)
    ensures n <= |cs| && forall i :: 0 <= i < n - 1 ==> !Escapes(cs[i])
    ensures n < |cs| ==> n > 0 && Escapes(cs[n - 1])
  {
    if cs == [] then 0 else if Escapes(cs[0]) then 1 else 1 + Made(cs[1..])
  }

  /** The work of a call. */
  function WorkOf(c: Call): seq<Event>
    decreases c, 0
  {
    match c
    case Other(_) => [Work(Section)]
    case Entry(_, hit, body, _, _) =>
      if hit then [Work(Lookup)]
      else [Work(Lookup)] + WorkOfFirst(body, Made(body)) + if Fails(c) then [] else [Work(Saving)]
  }

  /** The work of the first n calls, one after the other. */
  function WorkOfFirst(cs: seq<Call>, n: nat): seq<Event>
    requires n <= |cs|
    decreases cs, n
  {
    if n == 0 then [] else WorkOfFirst(cs, n - 1) + WorkOf(cs[n - 1])
  }

  /** No generator in the call throws by itself. */
  predicate Quiet(c: Call) {
    c.Entry? && !c.hit ==> !c.throws && forall i :: 0 <= i < |c.body| ==> Quiet(c.body[i])
  }

  /** One piece of work for a hit or another function, two for an apcu_entry that generates, besides those of
      its calls. */
  function Pieces(c: Call): nat
    decreases c, 0
  {
    if c.Other? || c.hit then 1 else 2 + PiecesOfFirst(c.body, |c.body|)
  }

  function PiecesOfFirst(cs: seq<Call>, n: nat): nat
    requires n <= |cs|
    decreases cs, n
  {
    if n == 0 then 0 else PiecesOfFirst(cs, n - 1) + Pieces(cs[n - 1])
  }

  lemma {:induction false} QuietSucceeds(c: Call)
    requires Quiet(c)
    ensures !Fails(c)
  {
    if c.Entry? && !c.hit {
      forall i | 0 <= i < |c.body| ensures !Escapes(c.body[i]) {
        QuietSucceeds(c.body[i]);
      }
    }
  }

  /** A call in which nothing throws does all the work. */
  lemma {:induction false} QuietWork(c: Call)
    requires Quiet(c)
    ensures |WorkOf(c)| == Pieces(c)
    decreases c, 0
  {
    if c.Entry? && !c.hit {
      QuietSucceeds(c);
      forall i | 0 <= i < |c.body| ensures !Escapes(c.body[i]) {
        QuietSucceeds(c.body[i]);
      }
      QuietWorkAll(c.body, |c.body|);
    }
  }

  lemma {:induction false} QuietWorkAll(cs: seq<Call>, n: nat)
    requires n <= |cs| && forall i :: 0 <= i < |cs| ==> Quiet(cs[i])
    ensures |WorkOfFirst(cs, n)| == PiecesOfFirst(cs, n)
    decreases cs, n
  {
    if n > 0 {
      QuietWorkAll(cs, n - 1);
      QuietWork(cs[n - 1]);
    }
  }

  /** In any case, a generator that fails does less, and one that does not ends with the store. */
  lemma {:induction false} FailingStoresNothing(c: Call)
    requires c.Entry? && !c.hit
    ensures WorkOf(c) != [] && WorkOf(c)[0] == Work(Lookup)
    ensures |WorkOf(c)| <= Pieces(c) && (Fails(c) ==> |WorkOf(c)| < Pieces(c))
    ensures !Fails(c) ==> |WorkOf(c)| > 1 && WorkOf(c)[|WorkOf(c)| - 1] == Work(Saving)
    decreases c, 0
  {
    WorkLimited(c.body, Made(c.body));
    PiecesMore(c.body, Made(c.body), |c.body|);
  }

  lemma {:induction false} WorkLimited(cs: seq<Call>, n: nat)
    requires n <= |cs|
    ensures |WorkOfFirst(cs, n)| <= PiecesOfFirst(cs, n)
    decreases cs, n
  {
    if n > 0 {
      WorkLimited(cs, n - 1);
      if cs[n - 1].Entry? && !cs[n - 1].hit {
        FailingStoresNothing(cs[n - 1]);
      }
    }
  }

  lemma {:induction false} PiecesMore(cs: seq<Call>, m: nat, n: nat)
    requires m <= n <= |cs|
    ensures PiecesOfFirst(cs, m) <= PiecesOfFirst(cs, n)
  {
    if m < n {
      PiecesMore(cs, m, n - 1);
    }
  }

  lemma MadeIs(cs: seq<Call>, n: nat)
    requires n <= |cs| && forall i :: 0 <= i < n - 1 ==> !Escapes(cs[i])
    requires if n > 0 && Escapes(cs[n - 1]) then true else n == |cs|
    ensures Made(cs) == n
  {
  }

  /** A failure that is caught makes no difference to the caller. */
  lemma CaughtIsHarmless(c: Call)
    requires c.Entry? && !c.hit && forall i :: 0 <= i < |c.body| ==> c.body[i].Entry? ==> c.body[i].caught
    ensures Fails(c) <==> c.throws
    ensures WorkOf(c) ==
      [Work(Lookup)] + WorkOfFirst(c.body, |c.body|) + if c.throws then [] else [Work(Saving)]
  {
    MadeIs(c.body, |c.body|);
  }

  /** One that is not makes the caller fail, and what comes behind it is not done. */
  lemma UncaughtEndsGenerator(c: Call, i: nat)
    requires c.Entry? && !c.hit && i < |c.body| && c.body[i].Entry? && !c.body[i].caught && Fails(c.body[i])
    ensures Fails(c) && WorkOf(c) == WorkOf(c.(body := c.body[..i + 1]))
  {
    var d := c.(body := c.body[..i + 1]);
    assert Escapes(c.body[i]) && Escapes(d.body[i]);
    MadeWithin(c.body, i + 1);
    WorkWithin(c.body, i + 1, Made(c.body));
  }

  lemma {:induction false} MadeWithin(cs: seq<Call>, n: nat)
    requires 0 < n <= |cs| && Escapes(cs[n - 1])
    ensures Made(cs) == Made(cs[..n]) <= n
  {
    if !Escapes(cs[0]) {
      assert cs[..n][1..] == cs[1..][..n - 1];
      MadeWithin(cs[1..], n - 1);
    }
  }

  lemma {:induction false} WorkWithin(cs: seq<Call>, n: nat, m: nat)
    requires m <= n <= |cs|
    ensures WorkOfFirst(cs[..n], m) == WorkOfFirst(cs, m)
  {
    if m > 0 {
      WorkWithin(cs, n, m - 1);
    }
  }

  class Thread {
    var entryLevel: nat
    var held: bool
    var trace: seq<Event>

    constructor ()
      ensures entryLevel == 0 && !held && trace == []
    {
      entryLevel, held, trace := 0, false, [];
    }

    /** The real lock is held exactly while the thread is inside apcu_entry. */
    ghost predicate Consistent()
      reads this
    {
      held <==> entryLevel > 0
    }

    /** apc_cache_wlock and apc_cache_rlock. The real lock is not recursive: taking it again would
        be a deadlock. */
    method Lock(granted: bool) returns (ok: bool)
      requires Consistent()
      modifies this`held, this`trace
      ensures ok <==> granted || entryLevel > 0
      ensures held <==> entryLevel > 0 || granted
      ensures trace == old(trace) + if entryLevel == 0 && granted then [Take] else []
    {
      ok := true;
      if entryLevel == 0 {
        assert !held;
        ok := granted;
        if ok {
          held, trace := true, trace + [Take];
        }
      }
    }

    /** apc_cache_wunlock and apc_cache_runlock */
    method Unlock()
      requires held
      modifies this`held, this`trace
      ensures held <==> entryLevel > 0
      ensures trace == old(trace) + if entryLevel == 0 then [Give] else []
    {
      if entryLevel == 0 {
        held, trace := false, trace + [Give];
      }
    }

    /** What a function does to the cache, for which the lock must be held. */
    method DoWork(piece: Piece)
      requires held
      modifies this`trace
      ensures trace == old(trace) + [Work(piece)]
    {
      trace := trace + [Work(piece)];
    }

    /** Any call. Outside of apcu_entry, it takes the real lock once and releases it once, and
        everything in between is done under it, however deep the calls nest and even if one of them
        throws. Inside, the real lock is not touched. entry_level is as before. Without the lock, nothing is
        done; else all the work of the call, and it fails exactly if its generator does. */
    method Run(c: Call) returns (thrown: bool, ghost work: seq<Event>)
      requires Consistent()
      modifies this
      ensures Consistent() && entryLevel == old(entryLevel) && Inner(work)
      ensures entryLevel > 0 ==> trace == old(trace) + work
      ensures entryLevel == 0 ==> trace == old(trace) + if c.granted then [Take] + work + [Give] else []
      ensures thrown <==> (c.granted || entryLevel > 0) && Fails(c)
      ensures work == if c.granted || entryLevel > 0 then WorkOf(c) else []
      decreases c, 2
    {
      ghost var before := trace;
      thrown, work := false, [];
      var ok := Lock(c.granted);
      if !ok {
        return;
      }
      ghost var locked := trace;
      match c {
        case Other(_) =>
          DoWork(Section);
          work := [Work(Section)];
        case Entry(_, hit, body, throws, _) =>
          entryLevel := entryLevel + 1;
          thrown, work := Produce(hit, body, throws, c);
          entryLevel := entryLevel - 1;  // also after a bailout
      }
      assert trace == locked + work;
      Unlock();
      assert entryLevel == 0 ==> trace == before + ([Take] + work + [Give]);
      assert entryLevel > 0 ==> trace == before + work;
    }

    /** What apcu_entry does under the lock. */
    method Produce(hit: bool, body: seq<Call>, throws: bool, ghost c: Call)
      returns (thrown: bool, ghost work: seq<Event>)
      requires Consistent() && entryLevel > 0
      requires c.Entry? && c.hit == hit && c.body == body && c.throws == throws
      modifies this
      ensures Consistent() && entryLevel == old(entryLevel) && Inner(work) && trace == old(trace) + work
      ensures (thrown <==> Fails(c)) && work == WorkOf(c)
      decreases body, 1
    {
      DoWork(Lookup);  // apc_cache_rlocked_find_incref
      thrown, work := false, [Work(Lookup)];
      if !hit {
        ghost var more;
        thrown, more := RunAll(body);
        work := work + more;
        thrown := thrown || throws;
        if !thrown {
          DoWork(Saving);  // apc_cache_store_internal
          work := work + [Work(Saving)];
        }
      }
    }

    /** The calls of a generator, up to the first failure that is not caught. */
    method RunAll(cs: seq<Call>) returns (thrown: bool, ghost work: seq<Event>)
      requires Consistent() && entryLevel > 0
      modifies this
      ensures Consistent() && entryLevel == old(entryLevel) && Inner(work) && trace == old(trace) + work
      ensures thrown <==> exists i :: 0 <= i < |cs| && Escapes(cs[i])
      ensures work == WorkOfFirst(cs, Made(cs))
      decreases cs, 0
    {
      thrown, work := false, [];
      for i := 0 to |cs|
        invariant Consistent() && entryLevel == old(entryLevel) && Inner(work) && trace == old(trace) + work
        invariant !thrown && work == WorkOfFirst(cs, i) && forall j :: 0 <= j < i ==> !Escapes(cs[j])
      {
        ghost var more;
        thrown, more := Run(cs[i]);
        work := work + more;
        if thrown && !(cs[i].Entry? && cs[i].caught) {
          MadeIs(cs, i + 1);
          return;
        }
        thrown := false;
      }
      MadeIs(cs, |cs|);
    }
  }

  // ---- calls by many processes

  /** A call of apcu_entry is looking for its key, generating the value, about to store it, or about
      to leave. */
  datatype Pc = Looking | Generating | Storing | Leaving

  datatype Frame = Frame(key: string, pc: Pc)

  /** present: the keys that have entries. lock: who has the write lock. stacks: the calls that each
      process is in, the innermost last. runs: how many generators of a key have completed with a
      value. */
  datatype State = State(present: set<string>, lock: Option<nat>, stacks: map<nat, seq<Frame>>, runs: map<string, nat>)

  function Stack(s: State, p: nat): seq<Frame> {
    if p in s.stacks then s.stacks[p] else []
  }

  function Runs(s: State, k: string): nat {
    if k in s.runs then s.runs[k] else 0
  }

  predicate TopIs(st: seq<Frame>, pc: Pc) {
    st != [] && st[|st| - 1].pc == pc
  }

  predicate TopOf(st: seq<Frame>, k: string) {
    st != [] && st[|st| - 1].key == k
  }

  /** User code runs: outside, while nobody has the lock, or in a generator. */
  predicate UserCode(s: State, p: nat) {
    if Stack(s, p) == [] then s.lock.None? else TopIs(Stack(s, p), Generating)
  }

  function Retop(s: State, p: nat, pc: Pc): State
    requires Stack(s, p) != []
  {
    var st := Stack(s, p);
    s.(stacks := s.stacks[p := st[..|st| - 1] + [st[|st| - 1].(pc := pc)]])
  }

  /** What a process does next: begin an apcu_entry, store a key otherwise, look for the key of its
      innermost apcu_entry, let that one's generator return a value or fail, store the value, leave. */
  datatype Act = Begin(k: string) | Put(k: string) | Look | Return | Fail | Store | Leave

  /** A step of process p. Entries are neither removed nor do they expire, and storing one does not
      fail. Only the outermost apcu_entry takes the lock. */
  ghost predicate Next(s: State, p: nat, a: Act, s': State) {
    var st := Stack(s, p);
    match a
    case Begin(k) => UserCode(s, p) && s' == s.(lock := Some(p), stacks := s.stacks[p := st + [Frame(k, Looking)]])
    case Put(k) => UserCode(s, p) && s' == s.(present := s.present + {k})
    case Look => TopIs(st, Looking) && s' == Retop(s, p, if st[|st| - 1].key in s.present then Leaving else Generating)
    case Return =>
      TopIs(st, Generating) && var k := st[|st| - 1].key;
      s' == Retop(s, p, Storing).(runs := s.runs[k := Runs(s, k) + 1])
    case Fail => TopIs(st, Generating) && s' == Retop(s, p, Leaving)
    case Store => TopIs(st, Storing) && s' == Retop(s, p, Leaving).(present := s.present + {st[|st| - 1].key})
    case Leave =>
      TopIs(st, Leaving) && var rest := st[..|st| - 1];
      s' == s.(lock := if rest == [] then None else s.lock, stacks := s.stacks[p := rest])
  }

  /** How many generators for key k are running in a stack. */
  function Gens(st: seq<Frame>, k: string): nat {
    if st == [] then 0 else Gens(st[..|st| - 1], k) + if st[|st| - 1] == Frame(k, Generating) then 1 else 0
  }

  /** A process that is already generating a missing key begins an apcu_entry for that same key. */
  predicate Recursive(s: State, p: nat, a: Act, k: string) {
    a == Begin(k) && k !in s.present && Gens(Stack(s, p), k) > 0
  }

  ghost predicate Follows(s: State, s': State, k: string) {
    exists p, a :: Next(s, p, a, s') && !Recursive(s, p, a, k)
  }

  /** A run from s in which no process calls apcu_entry recursively for k. */
  ghost predicate Calm(run: seq<State>, s: State, k: string) {
    var n := |run| - 1;
    run != [] && if n == 0 then run[0] == s else Calm(run[..n], s, k) && Follows(run[n - 1], run[n], k)
  }

  predicate Initial(s: State) {
    s.lock.None? && s.stacks == map[] && s.runs == map[]
  }

  // ---- invariant

  /** The calls under way: those of the holder of the lock. */
  function Current(s: State): seq<Frame> {
    if s.lock.Some? then Stack(s, s.lock.value) else []
  }

  ghost predicate OneInside(s: State) {
    forall p: nat :: Stack(s, p) != [] ==> s.lock == Some(p) && Outer(Stack(s, p))
  }

  /** All calls but the innermost are generating. */
  ghost predicate Outer(st: seq<Frame>) {
    forall i :: 0 <= i < |st| - 1 ==> st[i].pc.Generating?
  }

  /** At most one generator of k is at work or has completed; n have completed, and here tells
      whether the key is there. */
  predicate KeyOk(st: seq<Frame>, here: bool, n: nat, k: string) {
    && Gens(st, k) + n <= 1
    && (TopOf(st, k) && TopIs(st, Looking) && Gens(st, k) > 0 ==> here)
    && (TopOf(st, k) && TopIs(st, Storing) ==> n == 1)
    && (n == 1 && !here ==> TopOf(st, k) && TopIs(st, Storing))
  }

  ghost predicate Inv(s: State, k: string) {
    OneInside(s) && KeyOk(Current(s), k in s.present, Runs(s, k), k)
  }

  /** If the key was there from the beginning, it is never generated. */
  predicate Spared(s: State, k: string) {
    k in s.present && Runs(s, k) == 0 && Gens(Current(s), k) ==
      0 && !(TopOf(Current(s), k) && TopIs(Current(s), Storing))
  }

  lemma GensSnoc(st: seq<Frame>, f: Frame, k: string)
    ensures Gens(st + [f], k) == Gens(st, k) + if f == Frame(k, Generating) then 1 else 0
  {
    assert (st + [f])[..|st|] == st;
  }

  /** What a step does to the calls under way. */
  lemma StepInside(s: State, p: nat, a: Act, s': State)
    requires OneInside(s) && Next(s, p, a, s')
    ensures OneInside(s') && Current(s) == Stack(s, p) && Current(s') == Stack(s', p)
  {
    var st, st' := Stack(s, p), Stack(s', p);
    assert Outer(st) && Outer(st');
    forall q | q != p ensures Stack(s', q) == Stack(s, q) {
    }
    assert forall q :: q != p && Stack(s, q) != [] ==> s.lock == Some(q);
  }

  /** KeyOk for a stack with innermost call f, on top of g running generators of k. */
  predicate TopOk(g: nat, f: Frame, here: bool, n: nat, k: string) {
    && g + (if f == Frame(k, Generating) then 1 else 0) + n <= 1
    && (f == Frame(k, Looking) && g > 0 ==> here)
    && (f == Frame(k, Storing) ==> n == 1)
    && (n == 1 && !here ==> f == Frame(k, Storing))
  }

  lemma KeyOkTop(rest: seq<Frame>, f: Frame, here: bool, n: nat, k: string)
    ensures KeyOk(rest + [f], here, n, k) <==> TopOk(Gens(rest, k), f, here, n, k)
  {
    GensSnoc(rest, f, k);
    hide Gens;
  }

  /** All calls below the innermost one are generating. */
  lemma KeyOkBelow(st: seq<Frame>, here: bool, n: nat, k: string)
    requires Outer(st) && st != []
    ensures var rest := st[..|st| - 1];
            KeyOk(rest, here, n, k) <==> Gens(rest, k) + n <= 1 && (n == 1 ==> here)
  {
    var rest := st[..|st| - 1];
    hide Gens;
    assert rest != [] ==> rest[|rest| - 1].pc == Generating;
  }

  lemma BeginKeyOk(s: State, p: nat, a: Act, s': State, k: string)
    requires OneInside(s) && Next(s, p, a, s') && !Recursive(s, p, a, k)
    requires KeyOk(Stack(s, p), k in s.present, Runs(s, k), k)
    requires a.Begin? || a.Put?
    ensures KeyOk(Stack(s', p), k in s'.present, Runs(s', k), k)
  {
    hide Gens, OneInside;
    if a.Begin? {
      KeyOkTop(Stack(s, p), Frame(a.k, Looking), k in s.present, Runs(s, k), k);
    }
  }

  lemma LeaveKeyOk(s: State, p: nat, s': State, k: string)
    requires OneInside(s) && Next(s, p, Leave, s') && !Recursive(s, p, Leave, k)
    requires KeyOk(Stack(s, p), k in s.present, Runs(s, k), k)
    ensures KeyOk(Stack(s', p), k in s'.present, Runs(s', k), k)
  {
    hide Gens, KeyOk;
    var st := Stack(s, p);
    var rest, f := st[..|st| - 1], st[|st| - 1];
    assert st == rest + [f] && Outer(st);
    KeyOkTop(rest, f, k in s.present, Runs(s, k), k);
    KeyOkBelow(st, k in s.present, Runs(s, k), k);
  }

  lemma TopKeyOk(s: State, p: nat, a: Act, s': State, k: string)
    requires OneInside(s) && Next(s, p, a, s') && !Recursive(s, p, a, k)
    requires KeyOk(Stack(s, p), k in s.present, Runs(s, k), k)
    requires !a.Begin? && !a.Put? && !a.Leave?
    ensures KeyOk(Stack(s', p), k in s'.present, Runs(s', k), k)
  {
    hide Gens, KeyOk, OneInside;
    var st := Stack(s, p);
    var rest, f, f' := st[..|st| - 1], st[|st| - 1], Stack(s', p)[|st| - 1];
    assert st == rest + [f] && Stack(s', p) == rest + [f'];
    KeyOkTop(rest, f, k in s.present, Runs(s, k), k);
    KeyOkTop(rest, f', k in s'.present, Runs(s', k), k);
  }

  lemma StepKeyOk(s: State, p: nat, a: Act, s': State, k: string)
    requires OneInside(s) && Next(s, p, a, s') && !Recursive(s, p, a, k)
    requires KeyOk(Stack(s, p), k in s.present, Runs(s, k), k)
    ensures KeyOk(Stack(s', p), k in s'.present, Runs(s', k), k)
  {
    hide *;
    if a.Begin? || a.Put? {
      BeginKeyOk(s, p, a, s', k);
    } else if a.Leave? {
      LeaveKeyOk(s, p, s', k);
    } else {
      TopKeyOk(s, p, a, s', k);
    }
  }

  lemma StepInv(s: State, s': State, k: string)
    requires Inv(s, k) && Follows(s, s', k)
    ensures Inv(s', k)
    ensures Spared(s, k) ==> Spared(s', k)
  {
    var p, a :| Next(s, p, a, s') && !Recursive(s, p, a, k);
    StepInside(s, p, a, s');
    StepKeyOk(s, p, a, s', k);
  }

  lemma {:induction false} CalmInv(run: seq<State>, s: State, k: string)
    requires Calm(run, s, k) && Inv(s, k)
    ensures Inv(run[|run| - 1], k)
    ensures Spared(s, k) ==> Spared(run[|run| - 1], k)
  {
    hide Inv, Spared, Follows;
    var n := |run| - 1;
    if n > 0 {
      CalmInv(run[..n], s, k);
      StepInv(run[n - 1], run[n], k);
    }
  }

  // ---- one generator per key

  /** However many processes call apcu_entry, and whatever keys their generators store or ask for: in a
      run without recursive calls for k, at most one generator of k completes with a value, and none
      does if the key was there. Once one has completed, every later call for k finds the entry. */
  lemma {:induction false} SingleFlight(run: seq<State>, k: string)
    requires run != [] && Initial(run[0]) && Calm(run, run[0], k)
    ensures Runs(run[|run| - 1], k) <= if k in run[0].present then 0 else 1
    ensures var s := run[|run| - 1];
            Runs(s, k) > 0 ==>
              forall p, s' :: Next(s, p, Look, s') && TopOf(Stack(s, p), k) ==> TopIs(Stack(s', p), Leaving)
  {
    CalmInv(run, run[0], k);
    hide Calm, Gens;
  }

  lemma Extend(u: seq<State>, s: State, k: string, p: nat, a: Act, s': State)
    requires u != [] && Calm(u, s, k) && Next(u[|u| - 1], p, a, s') && !Recursive(u[|u| - 1], p, a, k)
    ensures Calm(u + [s'], s, k)
  {
    hide Next, Recursive;
    assert (u + [s'])[..|u|] == u;
  }

  lemma {:induction false} Chain(u: seq<State>, v: seq<State>, s: State, k: string)
    requires u != [] && v != [] && Calm(u, s, k) && Calm(v, u[|u| - 1], k)
    ensures Calm(u + v[1..], s, k)
    decreases |v|
  {
    hide Follows;
    var n := |v| - 1;
    if n == 0 {
      assert u + v[1..] == u;
    } else {
      Chain(u, v[..n], s, k);
      assert (u + v[1..])[..|u| + n - 1] == u + v[..n][1..];
      assert (u + v[1..])[|u| + n - 2] == v[n - 1] by {
        assert n >= 2 ==> (u + v[1..])[|u| + n - 2] == v[1..][n - 2];
      }
    }
  }

  lemma Advance(u: seq<State>, s: State, k: string, p: nat, a: Act, s': State) returns (u': seq<State>)
    requires u != [] && Calm(u, s, k) && Next(u[|u| - 1], p, a, s') && !Recursive(u[|u| - 1], p, a, k)
    ensures u' != [] && Calm(u', s, k) && u'[|u'| - 1] == s'
  {
    hide *;
    Extend(u, s, k, p, a, s');
    u' := u + [s'];
  }

  lemma LeaveRun(u: seq<State>, s: State, p: nat, k: string, st: seq<Frame>) returns (u': seq<State>)
    requires u != [] && Calm(u, s, k) && TopIs(Stack(u[|u| - 1], p), Leaving)
    requires Stack(u[|u| - 1], p)[..|Stack(u[|u| - 1], p)| - 1] == st
    ensures u' != [] && Calm(u', s, k) && Runs(u'[|u'| - 1], k) == Runs(u[|u| - 1], k) && Stack(u'[|u'| - 1], p) == st
  {
    hide Calm, Gens;
    var s0 := u[|u| - 1];
    u' := Advance(u, s, k, p, Leave, s0.(lock := if st == [] then None else s0.lock, stacks := s0.stacks[p := st]));
  }

  /** The innermost call fails. */
  lemma FailRun(u: seq<State>, s: State, p: nat, k: string) returns (u': seq<State>)
    requires u != [] && Calm(u, s, k) && TopIs(Stack(u[|u| - 1], p), Generating)
    ensures u' != [] && Calm(u', s, k) && Runs(u'[|u'| - 1], k) == Runs(u[|u| - 1], k)
    ensures var st := Stack(u[|u| - 1], p); Stack(u'[|u'| - 1], p) == st[..|st| - 1]
  {
    hide Calm, Gens;
    var s0 := u[|u| - 1];
    var st := Stack(s0, p);
    var s1 := Retop(s0, p, Leaving);
    assert Stack(s1, p)[..|st| - 1] == st[..|st| - 1];
    u' := Advance(u, s, k, p, Fail, s1);
    u' := LeaveRun(u', s, p, k, st[..|st| - 1]);
  }

  /** Its generator completes. */
  lemma ReturnRun(u: seq<State>, s: State, p: nat, k: string) returns (u': seq<State>)
    requires u != [] && Calm(u, s, k) && TopIs(Stack(u[|u| - 1], p), Generating) && TopOf(Stack(u[|u| - 1], p), k)
    ensures u' != [] && Calm(u', s, k)
    ensures u'[|u'| - 1] == Retop(u[|u| - 1], p, Storing).(runs := u[|u| - 1].runs[k := Runs(u[|u| - 1], k) + 1])
  {
    hide Calm, Gens;
    var s0 := u[|u| - 1];
    u' := Advance(u, s, k, p, Return, Retop(s0, p, Storing).(runs := s0.runs[k := Runs(s0, k) + 1]));
  }

  /** The innermost call fails, and then the next one, until a generator of k is innermost; that one
      completes. */
  lemma {:induction false} UnwindRun(u: seq<State>, s: State, p: nat, k: string) returns (u': seq<State>)
    requires u != [] && Calm(u, s, k)
    requires var st := Stack(u[|u| - 1], p); Gens(st, k) > 0 && Outer(st) && TopIs(st, Generating)
    ensures u' != [] && Calm(u', s, k) && Runs(u'[|u'| - 1], k) == Runs(u[|u| - 1], k) + 1
    decreases |Stack(u[|u| - 1], p)|
  {
    var st := Stack(u[|u| - 1], p);
    hide Calm, Retop;
    if TopOf(st, k) {
      u' := ReturnRun(u, s, p, k);
    } else {
      var rest := st[..|st| - 1];
      assert Gens(rest, k) > 0 && rest != [] && rest[|rest| - 1].pc == Generating;
      u' := FailRun(u, s, p, k);
      u' := UnwindRun(u', s, p, k);
    }
  }

  /** A call for the missing key k completes and leaves. */
  lemma CallRun(u: seq<State>, s: State, p: nat, k: string, st: seq<Frame>) returns (u': seq<State>)
    requires u != [] && Calm(u, s, k) && k !in u[|u| - 1].present && Stack(u[|u| - 1], p) == st + [Frame(k, Looking)]
    ensures u' != [] && Calm(u', s, k) && Runs(u'[|u'| - 1], k) == Runs(u[|u| - 1], k) + 1
    ensures Stack(u'[|u'| - 1], p) == st
  {
    hide Calm, Gens;
    var s1 := Retop(u[|u| - 1], p, Generating);
    u' := Advance(u, s, k, p, Look, s1);
    u' := ReturnRun(u', s, p, k);
    var s2 := u'[|u'| - 1];
    assert Stack(s2, p) == st + [Frame(k, Storing)];
    u' := StoreRun(u', s, p, k, st);
  }

  lemma StoreRun(u: seq<State>, s: State, p: nat, k: string, st: seq<Frame>) returns (u': seq<State>)
    requires u != [] && Calm(u, s, k) && Stack(u[|u| - 1], p) == st + [Frame(k, Storing)]
    ensures u' != [] && Calm(u', s, k) && Runs(u'[|u'| - 1], k) == Runs(u[|u| - 1], k) && Stack(u'[|u'| - 1], p) == st
  {
    hide Calm, Gens;
    var s0 := u[|u| - 1];
    var st0 := Stack(s0, p);
    assert st0[|st0| - 1] == Frame(k, Storing) && st0[..|st0| - 1] == st;
    u' := Advance(u, s, k, p, Store, Retop(s0, p, Leaving).(present := s0.present + {k}));
    u' := LeaveRun(u', s, p, k, st);
  }

  /** After a recursive call for k, two generators can complete. */
  lemma TwiceRun(s: State, p: nat, k: string, s1: State) returns (u: seq<State>)
    requires OneInside(s) && Next(s, p, Begin(k), s1) && Recursive(s, p, Begin(k), k)
    ensures u != [] && Calm(u, s1, k) && Runs(u[|u| - 1], k) == Runs(s, k) + 2
  {
    var st := Stack(s, p);
    assert Outer(st) && TopIs(st, Generating);
    assert Calm([s1], s1, k);
    hide Calm, OneInside, Gens;
    u := CallRun([s1], s1, p, k, st);
    u := UnwindRun(u, s1, p, k);
  }

  /** Beginning a call for k can make a second generator of k complete exactly if the process that
      begins it is already generating k, and k is still missing. */
  lemma {:induction false} SingleFlightIff(run: seq<State>, p: nat, k: string, s1: State)
    requires run != [] && Initial(run[0]) && Calm(run, run[0], k) && Next(run[|run| - 1], p, Begin(k), s1)
    ensures (forall u: seq<State> :: Calm(u, s1, k) ==>
      Runs(u[|u| - 1], k) <= 1) <==> !Recursive(run[|run| - 1], p, Begin(k), k)
  {
    var s := run[|run| - 1];
    CalmInv(run, run[0], k);
    if Recursive(s, p, Begin(k), k) {
      var u := TwiceRun(s, p, k, s1);
      assert Calm(u, s1, k) && Runs(u[|u| - 1], k) >= 2;
    } else {
      hide Initial, Next, Recursive;
      Extend(run, run[0], k, p, Begin(k), s1);
      forall u: seq<State> | Calm(u, s1, k) ensures Runs(u[|u| - 1], k) <= 1 {
        Chain(run + [s1], u, run[0], k);
        SingleFlight(run + [s1] + u[1..], k);
      }
    }
  }

  lemma {:induction false} CalmFirst(u: seq<State>, s: State, k: string)
    requires Calm(u, s, k)
    ensures u[0] == s
  {
    if |u| > 1 {
      CalmFirst(u[..|u| - 1], s, k);
    }
  }

  lemma FirstRun(k: string) returns (run: seq<State>)
    ensures run != [] && Calm(run, State({}, None, map[], map[]), k)
    ensures run[|run| - 1] == State({}, Some(0), map[0 := [Frame(k, Generating)]], map[])
  {
    var s0 := State({}, None, map[], map[]);
    assert Calm([s0], s0, k);
    hide Calm, Gens;
    var s1 := s0.(lock := Some(0), stacks := s0.stacks[0 := [] + [Frame(k, Looking)]]);
    run := Advance([s0], s0, k, 0, Begin(k), s1);
    assert Stack(s1, 0) == [Frame(k, Looking)] && [Frame(k, Looking)][..0] + [Frame(k, Generating)] ==
      [Frame(k, Generating)];
    assert s0.stacks[0 := [] + [Frame(k, Looking)]][0 := [Frame(k, Generating)]] == map[0 := [Frame(k, Generating)]];
    run := Advance(run, s0, k, 0, Look, Retop(s1, 0, Generating));
  }

  /** After run, process 0 begins a call for k, with which u begins, and then two generators of k have
      completed. */
  ghost predicate RunsTwice(run: seq<State>, u: seq<State>, k: string) {
    && run != [] && Calm(run, State({}, None, map[], map[]), k) && u != [] && Calm(u, u[0], k)
    && Next(run[|run| - 1], 0, Begin(k), u[0]) && Runs(u[|u| - 1], k) == 2
  }

  /** For instance, when the generator of a missing key asks for that same key. */
  lemma {:induction false} RecursiveCallRunsTwice(k: string)
    ensures exists run: seq<State>, u: seq<State> :: RunsTwice(run, u, k)
  {
    var run := FirstRun(k);
    var s := run[|run| - 1];
    hide Calm;
    assert Gens([Frame(k, Generating)], k) == 1;
    var s1 := s.(lock := Some(0), stacks := s.stacks[0 := [Frame(k, Generating)] + [Frame(k, Looking)]]);
    var u := TwiceRun(s, 0, k, s1);
    CalmFirst(u, s1, k);
    assert RunsTwice(run, u, k);
  }
}
