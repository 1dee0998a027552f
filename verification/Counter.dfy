/** apcu_inc by any number of processes on one key: apc_cache_atomic_update_long (apc_cache.c) with
    php_inc_updater (php_apc.c), step by step. */
module Counter {
  import opened Basics
  import Effects
  import Entries
  import History

  /** Where a call is. insert tells whether it may still insert the key. Nothing removes the entry
      meanwhile, and storing it does not fail. The read lock lets several processes look and add at
      once, the write lock does not. */
  datatype Pc =
    | Idle
    | Look(step: int, insert: bool)      // about to take the read lock
    | Holding(step: int, insert: bool)   // about to look for the entry
    | Found(step: int)                   // about to add
    | Added(step: int, ret: int)         // about to release the lock
    | Missing(step: int, insert: bool)   // about to release the lock, without an entry
    | Storing(step: int)                 // about to store 0, exclusively
    | Done(step: int, ret: int)
    | Failed(step: int)

  datatype Addition = Addition(p: nat, step: int, ret: int)

  /** log lists the additions in the order in which they took effect. */
  datatype State = State(entry: Option<int>, pcs: map<nat, Pc>, returned: map<nat, nat>, log: seq<Addition>)

  function At(s: State, p: nat): Pc {
    if p in s.pcs then s.pcs[p] else Idle
  }

  function Returned(s: State, p: nat): nat {
    if p in s.returned then s.returned[p] else 0
  }

  predicate Reading(pc: Pc) {
    pc.Holding? || pc.Found? || pc.Added? || pc.Missing?
  }

  // ---- one step of process p

  /** Process p does its next step; if that begins a new call, step is what it will add. */
  ghost predicate Next(s: State, p: nat, step: int, s': State) {
    match At(s, p)
    case Idle => s' == s.(pcs := s.pcs[p := Look(step, true)])
    case Done(_, _) => s' == s.(pcs := s.pcs[p := Look(step, true)])
    case Failed(_) => s' == s.(pcs := s.pcs[p := Look(step, true)])
    case Look(n, insert) => s' == s.(pcs := s.pcs[p := Holding(n, insert)])
    case Holding(n, insert) => s' == s.(pcs := s.pcs[p := if s.entry.Some? then Found(n) else Missing(n, insert)])
    case Found(n) =>
      && s.entry.Some?
      && var v := Wrap(s.entry.value + n);
         s' == s.(entry := Some(v), pcs := s.pcs[p := Added(n, v)], log := s.log + [Addition(p, n, v)])
    case Added(n, v) => s' == s.(pcs := s.pcs[p := Done(n, v)], returned := s.returned[p := Returned(s, p) + 1])
    case Missing(n, insert) => s' == s.(pcs := s.pcs[p := if insert then Storing(n) else Failed(n)])
    case Storing(n) =>
      && (forall q :: q in s.pcs ==> !Reading(s.pcs[q]))
      && s' == s.(entry := if s.entry.Some? then s.entry else Some(0), pcs := s.pcs[p := Look(n, false)])
  }

  /** Nobody is in a call, and the key is absent or holds an integer. */
  predicate Initial(s: State) {
    s.pcs == map[] && s.returned == map[] && s.log == [] && (s.entry.Some? ==> s.entry.value == Wrap(s.entry.value))
  }

  function Start(s: State): int {
    if s.entry.Some? then s.entry.value else 0
  }

  ghost predicate Run(run: seq<State>) {
    var n := |run| - 1;
    run != [] && if n == 0 then Initial(run[0]) else Run(run[..n]) && Follows(run[n - 1], run[n])
  }

  ghost predicate Follows(s: State, s': State) {
    exists p, step :: Next(s, p, step, s')
  }

  // ---- invariant

  function SumSteps(log: seq<Addition>): int {
    if log == [] then 0 else SumSteps(log[..|log| - 1]) + log[|log| - 1].step
  }

  /** Every addition returned the total of all additions up to it. */
  ghost predicate RunningTotals(start: int, log: seq<Addition>) {
    forall i :: 0 <= i < |log| ==> log[i].ret == TotalAt(start, log, i)
  }

  function TotalAt(start: int, log: seq<Addition>, i: nat): int
    requires i < |log|
  {
    Wrap(start + SumSteps(log[..i + 1]))
  }

  function CountOf(log: seq<Addition>, p: nat): nat {
    if log == [] then 0 else CountOf(log[..|log| - 1], p) + if log[|log| - 1].p == p then 1 else 0
  }

  /** A process that has found or inserted the entry relies on it. */
  predicate NeedsEntry(pc: Pc) {
    pc.Found? || pc.Added? || pc.Done? || (pc.Look? && !pc.insert) || (pc.Holding? && !pc.insert)
  }

  ghost predicate Accounted(s: State, start: int) {
    && RunningTotals(start, s.log)
    && (s.entry.Some? ==> s.entry.value == Wrap(start + SumSteps(s.log)))
    && (s.entry.None? ==> s.log == [] && start == 0)
  }

  /** Every call of p that has added has done so exactly once, and knows what its addition returned. */
  ghost predicate OnceBy(s: State, p: nat) {
    var pc := At(s, p);
    && CountOf(s.log, p) == Returned(s, p) + (if pc.Added? then 1 else 0)
    && (pc.Added? || pc.Done? ==> Addition(p, pc.step, pc.ret) in s.log)
  }

  /** A call that relies on the entry has it, and no call fails. */
  predicate Fine(s: State, pc: Pc) {
    (NeedsEntry(pc) ==> s.entry.Some?) && !pc.Failed? && (pc.Missing? ==> pc.insert)
  }

  ghost predicate Inv(s: State, start: int) {
    && Accounted(s, start)
    && (forall p :: OnceBy(s, p))
    && (forall p :: Fine(s, At(s, p)))
  }

  /** One more addition. */
  lemma LogMore(log: seq<Addition>, a: Addition, p: nat)
    ensures SumSteps(log + [a]) == SumSteps(log) + a.step
    ensures CountOf(log + [a], p) == CountOf(log, p) + if a.p == p then 1 else 0
  {
    assert (log + [a])[..|log|] == log;
  }

  lemma AddKeepsTotals(s: State, start: int, a: Addition)
    requires Accounted(s, start) && s.entry.Some? && a.ret == Wrap(s.entry.value + a.step)
    ensures RunningTotals(start, s.log + [a]) && a.ret == Wrap(start + SumSteps(s.log + [a]))
  {
    var log := s.log + [a];
    assert a.ret == Wrap(start + SumSteps(log)) by {
      LogMore(s.log, a, 0);
      WrapAdd(start + SumSteps(s.log), a.step);
      hide Wrap, SumSteps;
    }
    forall i | 0 <= i < |log| ensures log[i].ret == TotalAt(start, log, i) {
      hide Wrap, SumSteps;
      if i < |s.log| {
        assert log[..i + 1] == s.log[..i + 1];
        assert s.log[i].ret == TotalAt(start, s.log, i);
      } else {
        assert log[..i + 1] == log;
      }
    }
  }

  lemma StepAccounted(s: State, p: nat, step: int, s': State, start: int)
    requires Accounted(s, start) && Next(s, p, step, s') && Fine(s, At(s, p))
    ensures Accounted(s', start)
  {
    hide Wrap, SumSteps, RunningTotals;
    ZeroStart();
    if At(s, p).Found? {
      var n := At(s, p).step;
      AddKeepsTotals(s, start, Addition(p, n, Wrap(s.entry.value + n)));
    }
  }

  lemma ZeroStart()
    ensures SumSteps([]) == 0 && Wrap(0) == 0
  {
  }

  lemma StepOnce(s: State, p: nat, step: int, s': State, q: nat)
    requires OnceBy(s, p) && OnceBy(s, q) && Next(s, p, step, s')
    ensures OnceBy(s', q)
  {
    hide CountOf, Wrap;
    if At(s, p).Found? {
      LogMore(s.log, s'.log[|s.log|], q);
    }
  }

  /** While somebody stores, nobody has found anything; and an entry stays. */
  lemma StepFine(s: State, p: nat, step: int, s': State, q: nat)
    requires Fine(s, At(s, p)) && Fine(s, At(s, q)) && Next(s, p, step, s')
    ensures Fine(s', At(s', q))
  {
    hide Wrap;
  }

  lemma StepInv(s: State, p: nat, step: int, s': State, start: int)
    requires Inv(s, start) && Next(s, p, step, s')
    ensures Inv(s', start)
  {
    hide Accounted, OnceBy, Fine, Next;
    assert Fine(s, At(s, p)) && OnceBy(s, p);
    StepAccounted(s, p, step, s', start);
    forall q ensures OnceBy(s', q) { StepOnce(s, p, step, s', q); }
    forall q ensures Fine(s', At(s', q)) { StepFine(s, p, step, s', q); }
  }

  lemma {:induction false} RunInv(run: seq<State>)
    requires Run(run)
    ensures Inv(run[|run| - 1], Start(run[0]))
  {
    var n := |run| - 1;
    if n > 0 {
      RunInv(run[..n]);
      var p, step :| Next(run[n - 1], p, step, run[n]);
      hide Inv;
      StepInv(run[n - 1], p, step, run[n], Start(run[0]));
    }
  }

  // ---- the theorems

  /** No increment is lost: in every run, from an absent key or any integer, the entry holds the
      initial value plus the sum of all additions so far, wrapped around. */
  lemma {:induction false} NoLostIncrements(run: seq<State>)
    requires Run(run)
    ensures var s, start := run[|run| - 1], Start(run[0]);
            && (s.entry.Some? ==> s.entry.value == Wrap(start + SumSteps(s.log)))
            && (s.entry.None? ==> s.log == [])
  {
    hide Wrap, SumSteps, Run, RunningTotals, OnceBy, Fine;
    RunInv(run);
  }

  /** Every return value is the running total where the addition took effect. */
  lemma {:induction false} ReturnsRunningTotals(run: seq<State>, i: nat)
    requires Run(run) && i < |run[|run| - 1].log|
    ensures run[|run| - 1].log[i].ret == Wrap(Start(run[0]) + SumSteps(run[|run| - 1].log[..i + 1]))
  {
    hide Wrap, SumSteps, Run, OnceBy, Fine;
    RunInv(run);
  }

  /** Every call adds exactly once, and none fails. */
  lemma {:induction false} EachCallAddsOnce(run: seq<State>, p: nat)
    requires Run(run)
    ensures var s := run[|run| - 1];
            && CountOf(s.log, p) == Returned(s, p) + (if At(s, p).Added? then 1 else 0)
            && (At(s, p).Done? ==> Addition(p, At(s, p).step, At(s, p).ret) in s.log)
            && !At(s, p).Failed?
  {
    hide Wrap, SumSteps, Accounted;
    RunInv(run);
    assert OnceBy(run[|run| - 1], p) && Fine(run[|run| - 1], At(run[|run| - 1], p));
  }

  // ---- the entry of the key is the cache's

  /** The integer that the cache has under key k. */
  function ValueOf(tab: Entries.Tab, k: string): Option<int> {
    if k in tab.at && tab.at[k] in tab.rec && tab.rec[tab.at[k]].val.Long? then Some(tab.rec[tab.at[k]].val.n) else None
  }

  /** An addition is what the cache does in apc_cache_atomic_update_long. */
  lemma AddIsIncrease(s: State, p: nat, step: int, s': State, c: History.Config,
                      tab: Entries.Tab, tab': Entries.Tab, k: string, t: int, now: int)
    requires At(s, p).Found? && Next(s, p, step, s') && s.entry == ValueOf(tab, k) && History.Found(tab, k, t).Some?
    requires History.Does(c, tab, History.Increase(k, At(s, p).step, t), tab', now)
    ensures s'.entry == ValueOf(tab', k)
  {
    hide Wrap, Entries.HardExpired;
  }

  /** Storing 0 exclusively is what the cache does in apc_cache_wlocked_insert: it changes nothing if the
      key has an entry. */
  lemma StoreIsInsert(s: State, p: nat, step: int, s': State, c: History.Config,
                      tab: Entries.Tab, tab': Entries.Tab, e: nat, now: int)
    requires At(s, p).Storing? && Next(s, p, step, s') && e in tab.rec && tab.rec[e].val == Entries.Long(0)
    requires s.entry == ValueOf(tab, tab.rec[e].key)
    requires tab.rec[e].key in tab.at ==>
      s.entry.Some? && History.Found(tab, tab.rec[e].key, tab.rec[e].ctime).Some?
    requires History.Does(c, tab, History.Insert(e, true), tab', now)
    ensures s'.entry == ValueOf(tab', tab.rec[e].key)
  {
    hide Wrap, Reading, Entries.HardExpired, Effects.GcUpheld, Effects.Purged;
  }
}
