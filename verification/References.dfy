/** Reference safety over whole runs. */
module References {
  import opened Basics
  import opened Cache
  import opened Effects
  import opened Entries
  import opened History
  import opened Table

  /** A run: the worlds before, between and after the operations ops, done at the times times. */
  ghost predicate Run(c: Config, run: seq<World>, ops: seq<Op>, times: seq<int>) {
    |run| == |ops| + 1 == |times| + 1 && forall i :: 0 <= i < |ops| ==> StepAt(c, run, ops, times, i)
  }

  ghost predicate StepAt(c: Config, run: seq<World>, ops: seq<Op>, times: seq<int>, i: nat)
    requires |run| == |ops| + 1 == |times| + 1 && i < |ops|
  {
    Step(c, run[i], ops[i], run[i + 1], times[i])
  }

  /** Every release that is owed would find its reference. */
  ghost predicate Finds(w: World) {
    !w.broken && forall r :: r in w.owed ==> Holds(w.tab, r.0, r.1)
  }

  /** The operation collects: it runs the gc. */
  predicate Collects(w: World, op: Op) {
    op.Insert? || op.Collect? || (op.Expunge? && !Skipped(w, op))
  }

  /** The operation gives up an entry on the gc list that is still referenced. */
  ghost predicate GivesUp(c: Config, w: World, op: Op, now: int) {
    Collects(w, op) && exists e: nat, h: nat :: Holds(w.tab, e, h) && Late(c.y, c.gcTtl, w.tab, e, now)
  }

  // ---- one step

  lemma TouchHeldAt(y: Layout, s: Tab, d: Option<nat>, f: Entry -> Entry, e: nat, h: nat, now: int)
    requires d.Some? && d.value in s.rec ==>
      var x := f(s.rec[d.value]);
      && SameHeld(s.rec[d.value], x) && x.dtime == s.rec[d.value].dtime
      && (d.value == e && h in s.rec[d.value].holders ==> h in x.holders)
    ensures HeldAt(y, 0, s, Updated(s, d, f), e, h, now)
  {
  }

  lemma OthersHeldAt(y: Layout, s: Tab, s': Tab, d: nat, e: nat, h: nat, now: int)
    requires Others(s, s', d) && d != e
    ensures HeldAt(y, 0, s, s', e, h, now)
  {
  }

  lemma LaunchHeldAt(y: Layout, s: Tab, s': Tab, x: Entry, e: nat, h: nat, now: int)
    requires s' == s || exists d :: d !in s.home && s' == Launched(y, s, d, x)
    ensures HeldAt(y, 0, s, s', e, h, now)
  {
  }

  lemma UpheldAt(y: Layout, s: Tab, s': Tab, e: nat, h: nat, now: int)
    requires Upheld(y, s, s', now)
    ensures HeldAt(y, 0, s, s', e, h, now)
  {
  }

  lemma GcUpheldAt(y: Layout, gcTtl: int, s: Tab, s': Tab, e: nat, h: nat, now: int)
    requires GcUpheld(y, gcTtl, s, s', now) && !Late(y, gcTtl, s, e, now)
    ensures HeldAt(y, 0, s, s', e, h, now)
  {
    assert HeldAt(y, gcTtl, s, s', e, h, now);
  }

  lemma DoesHeldAt(c: Config, s: Tab, op: Op, s': Tab, e: nat, h: nat, now: int)
    requires Does(c, s, op, s', now) && op != Release(e, h) && op != Discard(e)
    requires op.Insert? || op.Collect? || op.Expunge? ==> !Late(c.y, c.gcTtl, s, e, now)
    ensures HeldAt(c.y, 0, s, s', e, h, now)
  {
    hide Upheld, GcUpheld, HeldAt, Others, Updated, Launched, HardExpired, GcOnly, Relocated, Wiped, Survived,
      Inserting,
      KeysKept, Wrap, Late;
    match op
    case Allocate(x) => LaunchHeldAt(c.y, s, s', x, e, h, now);
    case Discard(d) => OthersHeldAt(c.y, s, s', d, e, h, now);
    case Look(k, t) =>
      TouchHeldAt(c.y, s, Found(s, k, t), (x: Entry) => x.(nhits := x.nhits + 1, atime := t), e, h, now);
    case FindIncref(k, t, g) => TouchHeldAt(c.y, s, Found(s, k, t), x => Accessed(x, t, g), e, h, now);
    case Release(d, g) => TouchHeldAt(c.y, s, Some(d), x => Released(x, g), e, h, now);
    case Increase(k, step, t) => TouchHeldAt(c.y, s, Found(s, k, t), x => Increased(x, step, t), e, h, now);
    case Delete(_) => UpheldAt(c.y, s, s', e, h, now);
    case Defragment => UpheldAt(c.y, s, s', e, h, now);
    case Clear => UpheldAt(c.y, s, s', e, h, now);
    case _ => GcUpheldAt(c.y, c.gcTtl, s, s', e, h, now);
  }

  /** No operation, whoever does it, touches the reference of h to e, but its being given back, the return
      of e while it has not been inserted, and its being given up. */
  lemma StepHeldAt(c: Config, w: World, op: Op, w': World, e: nat, h: nat, now: int)
    requires Step(c, w, op, w', now) && !w.broken && !Stale(w, op) && op != Release(e, h) && op != Discard(e)
    requires Collects(w, op) ==> !Late(c.y, c.gcTtl, w.tab, e, now)
    ensures HeldAt(c.y, 0, w.tab, w'.tab, e, h, now)
  {
    hide Does, Consistent, Can, Owed, HeldAt, Late;
    if Skipped(w, op) {
      UpheldRefl(c.y, w.tab, now);
      UpheldAt(c.y, w.tab, w.tab, e, h, now);
    } else {
      DoesHeldAt(c, w.tab, op, w'.tab, e, h, now);
    }
  }

  /** New references are owed. */
  lemma DoesBacked(c: Config, w: World, op: Op, s': Tab, e: nat, h: nat, now: int)
    requires Backed(w) && Does(c, w.tab, op, s', now) && Holds(s', e, h)
    requires w.tab.rec.Keys == w.tab.home.Keys
    ensures (e, h) in Owed(w, op, s', now)
  {
    assert Holds(w.tab, e, h) ==> (e, h) in w.owed;
    hide Backed, HardExpired, GcOnly, Relocated, Wiped, Survived, Inserting, KeysKept, Wrap, Held, Collected;
  }

  lemma StepBacked(c: Config, w: World, op: Op, w': World, now: int)
    requires Step(c, w, op, w', now) && !w'.broken && Backed(w)
    ensures Backed(w')
  {
    StepKeys(c, w, op, w', now);
    hide Does, Consistent, Can;
    forall e: nat, h: nat | Holds(w'.tab, e, h) ensures (e, h) in w'.owed {
      if !Skipped(w, op) {
        DoesBacked(c, w, op, w'.tab, e, h, now);
      }
    }
  }

  lemma StepKeys(c: Config, w: World, op: Op, w': World, now: int)
    requires Step(c, w, op, w', now) && !w.broken
    ensures w.tab.rec.Keys == w.tab.home.Keys
  {
    ConsistentParts(c.y, c.hash, w.tab);
  }

  /** A reference that has just been taken is there. */
  lemma NewFinds(c: Config, w: World, op: Op, s': Tab, r: (nat, nat), now: int)
    requires Does(c, w.tab, op, s', now) && Consistent(c.y, c.hash, w.tab) && r in Owed(w, op, s', now) && r !in w.owed
    ensures Holds(s', r.0, r.1) && s'.home[r.0] != OnGc(c.y)
  {
    hide Consistent, HardExpired, Upheld, GcUpheld, Purged, Relocated, Survived, Wiped, GcOnly, KeysKept, Inserting,
      Others;
    if op.FindIncref? && op.k in w.tab.at {
      KeyHoused(c.y, c.hash, w.tab, op.k);
    }
  }

  lemma StepFinds(c: Config, w: World, op: Op, w': World, now: int)
    requires Step(c, w, op, w', now) && Finds(w) && !GivesUp(c, w, op, now)
    ensures Finds(w')
    ensures forall r :: r in w.owed && r in w'.owed ==> HeldAt(c.y, 0, w.tab, w'.tab, r.0, r.1, now)
    ensures forall r :: r in w'.owed && r !in w.owed ==> w'.tab.home[r.0] != OnGc(c.y)
  {
    hide Does, Consistent, Late, HeldAt;
    assert op.Release? ==> (op.e, op.h) in w.owed;
    forall r | r in w.owed && r in w'.owed
      ensures HeldAt(c.y, 0, w.tab, w'.tab, r.0, r.1, now)
    {
      assert Holds(w.tab, r.0, r.1) && op != Release(r.0, r.1) && op != Discard(r.0);
      StepHeldAt(c, w, op, w', r.0, r.1, now);
    }
    forall r | r in w'.owed
      ensures Holds(w'.tab, r.0, r.1) && (r !in w.owed ==> w'.tab.home[r.0] != OnGc(c.y))
    {
      if r in w.owed {
        StillHolds(c.y, w.tab, w'.tab, r.0, r.1, now);
      } else {
        NewFinds(c, w, op, w'.tab, r, now);
      }
    }
  }

  lemma StillHolds(y: Layout, s: Tab, s': Tab, e: nat, h: nat, now: int)
    requires HeldAt(y, 0, s, s', e, h, now) && Holds(s, e, h)
    ensures Holds(s', e, h) && SameHeld(s.rec[e], s'.rec[e]) && MayGo(y, s.home[e], s'.home[e])
    ensures Noted(y, s.home[e], s.rec[e], s'.home[e], s'.rec[e], now)
  {
  }

  /** What is given up leaves a release behind that does not find its reference. */
  lemma StepLoses(c: Config, w: World, op: Op, w': World, now: int)
    requires Step(c, w, op, w', now) && !w.broken && Backed(w) && GivesUp(c, w, op, now)
    ensures !Finds(w')
  {
    hide Consistent, Late, Holds, Inserting, GcOnly, Wiped, Survived, Held, NoneNew;
    var e: nat, h: nat :| Holds(w.tab, e, h) && Late(c.y, c.gcTtl, w.tab, e, now);
    assert (e, h) in w.owed && !Holds(w'.tab, e, h);
    assert (e, h) in w'.owed && (e, h).0 == e && (e, h).1 == h;
  }

  // ---- whole runs

  ghost predicate NothingGivenUp(c: Config, run: seq<World>, ops: seq<Op>, times: seq<int>, n: nat)
    requires n <= |ops| == |times| < |run|
  {
    forall i :: 0 <= i < n ==> !GivesUp(c, run[i], ops[i], times[i])
  }

  lemma {:induction false} FindsUpTo(c: Config, run: seq<World>, ops: seq<Op>, times: seq<int>, n: nat)
    requires Run(c, run, ops, times) && n < |run| && Finds(run[0]) && Backed(run[0])
    requires NothingGivenUp(c, run, ops, times, n)
    ensures Finds(run[n]) && Backed(run[n])
  {
    hide Step, Finds, Backed, GivesUp;
    if n > 0 {
      FindsUpTo(c, run, ops, times, n - 1);
      assert StepAt(c, run, ops, times, n - 1);
      StepFinds(c, run[n - 1], ops[n - 1], run[n], times[n - 1]);
      NotBroken(run[n]);
      StepBacked(c, run[n - 1], ops[n - 1], run[n], times[n - 1]);
    }
  }

  lemma NotBroken(w: World)
    requires Finds(w)
    ensures !w.broken
  {
  }

  lemma {:induction false} BackedUpTo(c: Config, run: seq<World>, ops: seq<Op>, times: seq<int>, n: nat)
    requires Run(c, run, ops, times) && n < |run| && Backed(run[0]) && forall i :: 0 <= i <= n ==> !run[i].broken
    ensures Backed(run[n])
  {
    hide Step, Backed;
    if n > 0 {
      BackedUpTo(c, run, ops, times, n - 1);
      assert StepAt(c, run, ops, times, n - 1);
      StepBacked(c, run[n - 1], ops[n - 1], run[n], times[n - 1]);
    }
  }

  /** All along a run, every release that is owed finds its reference, exactly if no operation that
      collects gives up an entry that is still referenced. */
  lemma {:induction false} ReleasesFindIff(c: Config, run: seq<World>, ops: seq<Op>, times: seq<int>)
    requires Run(c, run, ops, times) && Finds(run[0]) && Backed(run[0])
    ensures (forall i :: 0 <= i < |run| ==> Finds(run[i])) <==> NothingGivenUp(c, run, ops, times, |ops|)
  {
    hide Step, Finds, Backed, GivesUp;
    if NothingGivenUp(c, run, ops, times, |ops|) {
      forall i | 0 <= i < |run| ensures Finds(run[i]) {
        FindsUpTo(c, run, ops, times, i);
      }
    }
    if (forall i :: 0 <= i < |run| ==> Finds(run[i])) {
      forall i | 0 <= i < |run| ensures !run[i].broken {
        NotBroken(run[i]);
      }
      forall i | 0 <= i < |ops| ensures !GivesUp(c, run[i], ops[i], times[i]) {
        BackedUpTo(c, run, ops, times, i);
        assert StepAt(c, run, ops, times, i);
        if GivesUp(c, run[i], ops[i], times[i]) {
          StepLoses(c, run[i], ops[i], run[i + 1], times[i]);
        }
      }
    }
  }

  /** With gc_ttl 0, nothing is ever given up. */
  lemma {:induction false} NeverWithoutGcTtl(c: Config, run: seq<World>, ops: seq<Op>, times: seq<int>, n: nat)
    requires Run(c, run, ops, times) && n < |run| && Finds(run[0]) && Backed(run[0]) && c.gcTtl == 0
    ensures NothingGivenUp(c, run, ops, times, n) && Finds(run[n])
  {
    hide Step, Finds, Backed;
    FindsUpTo(c, run, ops, times, n);
  }

  /** At time now, nobody has had a reference for more than gc_ttl seconds. */
  ghost predicate Brief(c: Config, w: World, now: int) {
    forall r :: r in w.owed ==> w.owed[r] <= now <= w.owed[r] + c.gcTtl
  }

  /** An entry that has been referenced since some time came to the gc list later. */
  ghost predicate LaterOnGc(c: Config, w: World) {
    forall r :: r in w.owed && Holds(w.tab, r.0, r.1) && w.tab.home[r.0] == OnGc(c.y) ==>
      w.tab.rec[r.0].dtime >= w.owed[r]
  }

  lemma OwedSince(w: World, op: Op, s': Tab, now: int, r: (nat, nat))
    requires r in Owed(w, op, s', now) && r in w.owed
    requires op.FindIncref? ==> Unused(w, op.h)
    requires op.Allocate? ==> forall h :: h in op.x.holders ==> Unused(w, h)
    ensures Owed(w, op, s', now)[r] == w.owed[r]
  {
  }

  lemma StepLater(c: Config, w: World, op: Op, w': World, now: int)
    requires Step(c, w, op, w', now) && Finds(w) && Backed(w) && LaterOnGc(c, w) && Brief(c, w, now)
    ensures !GivesUp(c, w, op, now) && LaterOnGc(c, w')
  {
    assert !GivesUp(c, w, op, now);
    StepFinds(c, w, op, w', now);
    hide GivesUp, Does, Consistent, HeldAt, Owed, Backed;
    forall r | r in w'.owed && Holds(w'.tab, r.0, r.1) && w'.tab.home[r.0] == OnGc(c.y)
      ensures w'.tab.rec[r.0].dtime >= w'.owed[r]
    {
      assert r in w.owed;
      OwedSince(w, op, w'.tab, now, r);
      StillHolds(c.y, w.tab, w'.tab, r.0, r.1, now);
    }
  }

  /** And nothing is given up as long as nobody keeps a reference for more than gc_ttl seconds. */
  lemma {:induction false} NeverWhileBrief(c: Config, run: seq<World>, ops: seq<Op>, times: seq<int>, n: nat)
    requires Run(c, run, ops, times) && n < |run| && Finds(run[0]) && Backed(run[0]) && LaterOnGc(c, run[0])
    requires forall i :: 0 <= i < n ==> Brief(c, run[i], times[i])
    ensures NothingGivenUp(c, run, ops, times, n) && Finds(run[n]) && Backed(run[n]) && LaterOnGc(c, run[n])
  {
    hide Step, Finds, Backed, GivesUp, LaterOnGc, Brief;
    if n > 0 {
      NeverWhileBrief(c, run, ops, times, n - 1);
      assert StepAt(c, run, ops, times, n - 1);
      StepLater(c, run[n - 1], ops[n - 1], run[n], times[n - 1]);
      FindsUpTo(c, run, ops, times, n);
    }
  }

  /** From s to s' the entry e stayed where it is, held by h, with its key and value. */
  predicate Keeps(y: Layout, s: Tab, s': Tab, e: nat, h: nat) {
    Holds(s, e, h) && Holds(s', e, h) && SameHeld(s.rec[e], s'.rec[e]) && MayGo(y, s.home[e], s'.home[e])
  }

  lemma KeepsRefl(y: Layout, w: World, e: nat, h: nat)
    requires Finds(w) && (e, h) in w.owed
    ensures Keeps(y, w.tab, w.tab, e, h)
  {
    assert Holds(w.tab, (e, h).0, (e, h).1);
  }

  lemma KeepsOn(c: Config, s0: Tab, w: World, op: Op, w': World, e: nat, h: nat, now: int)
    requires Step(c, w, op, w', now) && Finds(w) && !GivesUp(c, w, op, now) && Keeps(c.y, s0, w.tab, e, h)
    requires (e, h) in w.owed && op != Release(e, h) && (op == Discard(e) ==> !InFlightAt(c.y, s0, e))
    ensures Keeps(c.y, s0, w'.tab, e, h) && (e, h) in w'.owed
  {
    hide Does, Consistent, HeldAt, GivesUp, Finds, Owed, Late;
    NotStale(c, w, op, w', now);
    InSomeHome(c.y, c.hash, w.tab, e);
    assert op != Discard(e);
    StepFinds(c, w, op, w', now);
    StillOwed(w, op, w'.tab, now, e, h);
    assert (e, h).0 == e && (e, h).1 == h;
    StillHolds(c.y, w.tab, w'.tab, e, h, now);
  }

  lemma NotStale(c: Config, w: World, op: Op, w': World, now: int)
    requires Step(c, w, op, w', now) && Finds(w)
    ensures !Stale(w, op) && !w.broken
  {
    assert op.Release? ==> (op.e, op.h) in w.owed;
    hide Does, Consistent, Owed;
  }

  lemma StillOwed(w: World, op: Op, s': Tab, now: int, e: nat, h: nat)
    requires (e, h) in w.owed && op != Release(e, h) && op != Discard(e)
    ensures (e, h) in Owed(w, op, s', now)
  {
  }

  lemma InSomeHome(y: Layout, hash: string -> nat, s: Tab, e: nat)
    requires Consistent(y, hash, s) && e in s.home
    ensures s.home[e] <= InFlight(y) && OnGc(y) < InFlight(y)
  {
  }

  /** Reference safety: in a run in which nothing is given up that is still referenced, whatever operations
      come in between, an entry that h holds is still there, at the same place, with the same key and value
      (an integer may have been increased), as long as h does not give its reference back. If the entry is
      removed meanwhile, it is on the gc list. */
  lemma {:induction false} HeldThroughRun(c: Config, run: seq<World>, ops: seq<Op>, times: seq<int>,
                                          a: nat, b: nat, e: nat, h: nat)
    requires Run(c, run, ops, times) && a <= b < |run| && Finds(run[0]) && Backed(run[0])
    requires NothingGivenUp(c, run, ops, times, b) && (e, h) in run[a].owed
    requires forall i :: a <= i < b ==> ops[i] != Release(e, h)
    requires forall i :: a <= i < b && ops[i] == Discard(e) ==> !InFlightAt(c.y, run[a].tab, e)
    ensures Keeps(c.y, run[a].tab, run[b].tab, e, h) && (e, h) in run[b].owed
    decreases b - a
  {
    hide Step, Finds, Backed, GivesUp, Keeps;
    FindsUpTo(c, run, ops, times, a);
    if a < b {
      HeldThroughRun(c, run, ops, times, a, b - 1, e, h);
      FindsUpTo(c, run, ops, times, b - 1);
      assert StepAt(c, run, ops, times, b - 1);
      KeepsOn(c, run[a].tab, run[b - 1], ops[b - 1], run[b], e, h, times[b - 1]);
    } else {
      KeepsRefl(c.y, run[a], e, h);
    }
  }

  /** A fetch among other operations: the entry found by h still has the value, when it is read, that the
      key had when it was found. */
  lemma {:induction false} FetchAmidst(c: Config, run: seq<World>, ops: seq<Op>, times: seq<int>,
                                       a: nat, b: nat, k: string, t: int, h: nat, e: nat)
    requires Run(c, run, ops, times) && a < b < |run| && Finds(run[0]) && Backed(run[0])
    requires NothingGivenUp(c, run, ops, times, b)
    requires ops[a] == FindIncref(k, t, h) && Found(run[a].tab, k, t) == Some(e)
    requires forall i :: a < i < b ==> ops[i] != Release(e, h)
    ensures var x := run[a].tab.rec[e];
            x.key == k && Holds(run[b].tab, e, h) && SameHeld(x, run[b].tab.rec[e])
  {
    FindsUpTo(c, run, ops, times, a);
    assert StepAt(c, run, ops, times, a);
    FindStep(c, run[a], k, t, h, run[a + 1], times[a], e);
    hide Step, Finds, Backed, GivesUp;
    HeldThroughRun(c, run, ops, times, a + 1, b, e, h);
  }

  lemma FindStep(c: Config, w: World, k: string, t: int, h: nat, w': World, now: int, e: nat)
    requires Step(c, w, FindIncref(k, t, h), w', now) && !w.broken && Found(w.tab, k, t) == Some(e)
    ensures w.tab.rec[e].key == k && (e, h) in w'.owed && Holds(w'.tab, e, h)
    ensures SameHeld(w.tab.rec[e], w'.tab.rec[e]) && !InFlightAt(c.y, w'.tab, e)
  {
    hide Consistent, HardExpired;
    KeyHoused(c.y, c.hash, w.tab, k);
  }
}
