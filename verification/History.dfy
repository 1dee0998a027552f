/** Runs of the cache: the operations of any number of processes, one after the other. What a process
    does in several locked sections is several operations, and others may come in between. */
module History {
  import opened Basics
  import opened Cache
  import opened Effects
  import opened Entries
  import opened Imprint
  import opened Owner
  import opened SharedMemory
  import opened Table

  /** What does not change in a run. */
  datatype Config = Config(y: Layout, hash: string -> nat, gcTtl: int, ttl: int)

  /** Allocate is the allocation and filling of a new entry, Discard its return when it could not be
      inserted; Collect and Defragment also happen as parts of others. */
  datatype Op =
    | Allocate(x: Entry)
    | Insert(e: nat, exclusive: bool)
    | Discard(e: nat)
    | Look(k: string, t: int)
    | FindIncref(k: string, t: int, h: nat)
    | Release(e: nat, h: nat)
    | Increase(k: string, step: int, t: int)
    | Delete(k: string)
    | Collect
    | Defragment
    | Expunge(size: nat, t: int, seen: int)
    | Clear

  /** The table; the references that processes have taken and still owe a release, with the time at
      which they took them; and the number of cleanups. Once a process has released a reference that
      was no longer there, the memory of the cache is broken. */
  datatype World = World(tab: Tab, owed: map<(nat, nat), int>, cleanups: int, broken: bool)

  // ---- what operations do to the table

  /** The entry of k, if it can be found at time t. */
  function Found(s: Tab, k: string, t: int): Option<nat> {
    if k in s.at && s.at[k] in s.rec && !HardExpired(s.rec[s.at[k]], t) then Some(s.at[k]) else None
  }

  function Updated(s: Tab, e: Option<nat>, f: Entry -> Entry): Tab {
    if e.Some? && e.value in s.rec then Written(s, e.value, f(s.rec[e.value])) else s
  }

  function Increased(x: Entry, step: int, t: int): Entry {
    if x.val.Long? then x.(val := Long(Wrap(x.val.n + step)), mtime := t) else x
  }

  /** An insert is refused if it is exclusive and the key has an entry that can be found. */
  predicate Refused(s: Tab, x: Entry, exclusive: bool) {
    exclusive && Found(s, x.key, x.ctime).Some?
  }

  /** The new entry e with record x is inserted or refused. */
  ghost predicate Inserting(c: Config, s: Tab, e: nat, x: Entry, exclusive: bool, s': Tab) {
    && Purged(c.ttl, {x.key}, s, s', x.ctime)
    && if Refused(s, x, exclusive) then SameKey(s, s', x.key) && Flying(c.y, s', e, x)
       else x.key in s'.at && s'.at[x.key] == e && e in s'.rec && s'.rec[e] == x
  }

  /** The keys that are left have the entries that they had. */
  ghost predicate KeysKept(s: Tab, s': Tab) {
    forall j :: j in s'.at ==> s'.at[j] in s'.rec && s'.at[j] in s.rec && s'.rec[s'.at[j]] == s.rec[s'.at[j]]
  }

  /** What an operation at time now does to the table. */
  ghost predicate Does(c: Config, s: Tab, op: Op, s': Tab, now: int) {
    match op
    case Allocate(x) => s' == s || exists e :: e !in s.home && s' == Launched(c.y, s, e, x)
    case Insert(e, exclusive) =>
      GcUpheld(c.y, c.gcTtl, s, s', now) && e in s.rec && Inserting(c, s, e, s.rec[e], exclusive, s')
    case Discard(e) => Others(s, s', e) && e !in s'.rec && s'.at == s.at
    case Look(k, t) => s' == Updated(s, Found(s, k, t), (x: Entry) => x.(nhits := x.nhits + 1, atime := t))
    case FindIncref(k, t, h) => s' == Updated(s, Found(s, k, t), x => Accessed(x, t, h))
    case Release(e, h) => s' == Updated(s, Some(e), x => Released(x, h))
    case Increase(k, step, t) => s' == Updated(s, Found(s, k, t), x => Increased(x, step, t))
    case Delete(k) => Upheld(c.y, s, s', now) && s'.at == s.at - {k} && KeysKept(s, s')
    case Collect => GcUpheld(c.y, c.gcTtl, s, s', now) && GcOnly(c.y, s, s')
    case Defragment => Upheld(c.y, s, s', now) && Relocated(s, s')
    case Expunge(_, t, _) => GcUpheld(c.y, c.gcTtl, s, s', now) && (Wiped(c.y, s') || Survived(c.ttl, s, s', t))
    case Clear => Upheld(c.y, s, s', now) && Wiped(c.y, s')
  }

  // ---- what processes may do

  predicate Unused(w: World, h: nat) {
    forall r :: r in w.owed ==> r.1 != h
  }

  predicate InFlightAt(y: Layout, s: Tab, e: nat) {
    e in s.home && s.home[e] == InFlight(y)
  }

  /** What a process may do is a matter of what it has done: it releases a reference that it has taken
      and not yet released, to an entry that it has found or inserted; it inserts or discards an entry
      that it has allocated and done neither with; and a new reference has a new name. */
  predicate Can(c: Config, w: World, op: Op) {
    match op
    case Allocate(x) =>
      x.refs == |x.holders| >= 1 && x.memSize > 0 && Fitting(x) && forall h :: h in x.holders ==> Unused(w, h)
    case Insert(e, _) => InFlightAt(c.y, w.tab, e) && e in w.tab.rec
    case Discard(e) => InFlightAt(c.y, w.tab, e) && e in w.tab.rec
    case FindIncref(_, _, h) => Unused(w, h)
    case Release(e, h) => (e, h) in w.owed && !(Holds(w.tab, e, h) && InFlightAt(c.y, w.tab, e))
    case _ => true
  }

  /** The reference to be released is no longer there. */
  predicate Stale(w: World, op: Op) {
    op.Release? && !Holds(w.tab, op.e, op.h)
  }

  /** Another cleanup was made since the number of cleanups was read. */
  predicate Skipped(w: World, op: Op) {
    op.Expunge? && op.seen < w.cleanups
  }

  function Cleanups(w: World, op: Op): int {
    if op.Expunge? && !Skipped(w, op) then w.cleanups + 1 else if op.Clear? then 0 else w.cleanups
  }

  /** The references that are owed after operation op has led to table s'. */
  function Owed(w: World, op: Op, s': Tab, now: int): map<(nat, nat), int> {
    match op
    case Allocate(x) => w.owed + map e, h | e in s'.home.Keys - w.tab.home.Keys && h in x.holders :: (e, h) := now
    case FindIncref(k, t, h) =>
      var e := Found(w.tab, k, t);
      if e.Some? then w.owed[(e.value, h) := now] else w.owed
    case Release(e, h) => w.owed - {(e, h)}
    case Discard(e) => map r | r in w.owed && !(r.0 == e && Holds(w.tab, e, r.1)) :: w.owed[r]
    case _ => w.owed
  }

  /** A step of a run. A stale release decrements the reference count of the entry that happens to be
      there, or changes something else; after that, anything may happen. */
  ghost predicate Step(c: Config, w: World, op: Op, w': World, now: int) {
    if w.broken then w'.broken
    else
      && (!w'.broken ==> Consistent(c.y, c.hash, w'.tab))
      && Consistent(c.y, c.hash, w.tab) && c.gcTtl >= 0 && Can(c, w, op)
      && w'.owed == Owed(w, op, w'.tab, now) && w'.cleanups == Cleanups(w, op) && w'.broken == Stale(w, op)
      && if Stale(w, op) then op.e in w.tab.rec ==> w'.tab == Written(w.tab, op.e, Released(w.tab.rec[op.e], op.h))
         else if Skipped(w, op) then w'.tab == w.tab
         else Does(c, w.tab, op, w'.tab, now)
  }

  // ---- the cache makes these steps

  /** Every reference in the table is owed by somebody. */
  ghost predicate Backed(w: World) {
    forall e: nat, h: nat :: Holds(w.tab, e, h) ==> (e, h) in w.owed
  }

  ghost predicate Mirrors(c: Cache, w: World)
    reads c, c.sma
  {
    !w.broken && c.Valid() && w.tab == c.State() && w.cleanups == c.ncleanups
  }

  function ConfigOf(c: Cache): Config {
    Config(c.y, c.hash, c.gcTtl, c.ttl)
  }

  /** Every operation of the class is a step. */
  method Perform(c: Cache, ghost w: World, op: Op, now: int) returns (ghost w': World)
    requires Mirrors(c, w) && Backed(w) && Can(ConfigOf(c), w, op)
    modifies c, c.sma
    ensures Step(ConfigOf(c), w, op, w', now) && w'.tab == c.State() && (!w'.broken ==> Mirrors(c, w'))
  {
    hide Sma.Valid, Consistent, Recorded, Owned, Imprinted, Does, Backed, Owed;
    PerformReady(c);
    match op {
      case Release(e, h) => PerformRelease(c, e, h, now);
      case Expunge(size, t, seen) => PerformExpunge(c, size, t, seen, now);
      case FindIncref(k, t, h) =>
        NobodyHolds(w, h);
        PerformFind(c, k, t, h, now);
      case _ => PerformOther(c, op, now);
    }
    if !Stale(w, op) { PerformReady(c); }
    w' := World(c.State(), Owed(w, op, c.State(), now), Cleanups(w, op), Stale(w, op));
  }

  lemma PerformReady(c: Cache)
    requires c.Valid()
    ensures Consistent(c.y, c.hash, c.State()) && c.gcTtl >= 0 && c.rec.Keys == c.home.Keys
  {
    c.Basics();
  }

  lemma NobodyHolds(w: World, h: nat)
    requires Backed(w) && Unused(w, h) && w.tab.rec.Keys == w.tab.home.Keys
    ensures forall o :: o in w.tab.rec ==> h !in w.tab.rec[o].holders
  {
    forall o | o in w.tab.rec ensures h !in w.tab.rec[o].holders {
      assert !Holds(w.tab, o, h);
    }
  }

  /** A release that finds its reference, and one that does not. */
  method PerformRelease(c: Cache, e: nat, h: nat, now: int)
    requires c.Valid() && !(Holds(c.State(), e, h) && InFlightAt(c.y, c.State(), e))
    modifies c, c.sma
    ensures Holds(old(c.State()), e, h) ==>
      c.Valid() && Does(ConfigOf(c), old(c.State()), Release(e, h), c.State(), now) && c.ncleanups == old(c.ncleanups)
    ensures !Holds(old(c.State()), e, h) && e in old(c.rec) ==>
      c.State() == Written(old(c.State()), e, Released(old(c.rec)[e], h))
  {
    hide Sma.Valid, Consistent, Recorded, Owned, Imprinted;
    c.Release(e, h);
  }

  method PerformExpunge(c: Cache, size: nat, t: int, seen: int, now: int)
    requires c.Valid()
    modifies c, c.sma
    ensures c.Valid()
    ensures seen < old(c.ncleanups) ==> c.State() == old(c.State()) && c.ncleanups == old(c.ncleanups)
    ensures !(seen < old(c.ncleanups)) ==>
      Does(ConfigOf(c), old(c.State()), Expunge(size, t, seen), c.State(), now) && c.ncleanups == old(c.ncleanups) + 1
  {
    hide Sma.Valid, Consistent, Recorded, Owned, Imprinted, GcUpheld, Wiped, Survived, Held;
    var done := c.DefaultExpunge(size, t, now, seen);
  }

  method PerformFind(c: Cache, k: string, t: int, h: nat, now: int)
    requires c.Valid() && forall o :: o in c.rec ==> h !in c.rec[o].holders
    modifies c, c.sma
    ensures c.Valid() && Does(ConfigOf(c), old(c.State()), FindIncref(k, t, h), c.State(), now)
    ensures c.ncleanups == old(c.ncleanups)
  {
    hide Sma.Valid, Consistent, Recorded, Owned, Imprinted, Held;
    var e := c.FindIncref(k, t, h, now);
  }

  method PerformOther(c: Cache, op: Op, now: int)
    requires c.Valid() && !op.Release? && !op.Expunge? && !op.FindIncref?
    requires op.Allocate? ==> op.x.refs == |op.x.holders| >= 1 && op.x.memSize > 0 && Fitting(op.x)
    requires op.Insert? || op.Discard? ==> InFlightAt(c.y, c.State(), op.e) && op.e in c.rec
    modifies c, c.sma
    ensures c.Valid() && Does(ConfigOf(c), old(c.State()), op, c.State(), now)
    ensures c.ncleanups == if op.Clear? then 0 else old(c.ncleanups)
  {
    hide Sma.Valid, Consistent, Recorded, Owned, Imprinted, Does;
    match op
    case Allocate(x) => PerformAllocate(c, x, now);
    case Insert(e, exclusive) => PerformInsert(c, e, exclusive, now);
    case Discard(e) => PerformDiscard(c, e, now);
    case Look(k, t) => PerformLook(c, k, t, now);
    case Increase(k, step, t) => PerformIncrease(c, k, step, t, now);
    case Delete(k) => PerformDelete(c, k, now);
    case Collect => PerformCollect(c, now);
    case Defragment => PerformDefragment(c, now);
    case Clear => PerformClear(c, now);
  }

  method PerformAllocate(c: Cache, x: Entry, now: int)
    requires c.Valid() && x.refs == |x.holders| >= 1 && x.memSize > 0 && Fitting(x)
    modifies c, c.sma
    ensures c.Valid() && Does(ConfigOf(c), old(c.State()), Allocate(x), c.State(), now)
    ensures c.ncleanups == old(c.ncleanups)
  {
    hide Sma.Valid, Consistent, Recorded, Owned, Imprinted, Held, Unharmed, Launched;
    var e := c.TryNew(x, now);
  }

  method PerformInsert(c: Cache, e: nat, exclusive: bool, now: int)
    requires c.Valid() && InFlightAt(c.y, c.State(), e) && e in c.rec
    modifies c, c.sma
    ensures c.Valid() && Does(ConfigOf(c), old(c.State()), Insert(e, exclusive), c.State(), now)
    ensures c.ncleanups == old(c.ncleanups)
  {
    hide Sma.Valid, Consistent, Recorded, Owned, Imprinted, Held, GcUpheld, Purged, HardExpired, SameKey, Flying,
      GcCleaning;
    ghost var s, x := c.State(), c.rec[e];
    var ok := c.Insert(e, exclusive, now);
    GcCleaningIs(c.y, c.gcTtl, c.ttl, {x.key}, s, c.State(), x.ctime, now);
  }

  method PerformDiscard(c: Cache, e: nat, now: int)
    requires c.Valid() && InFlightAt(c.y, c.State(), e)
    modifies c, c.sma
    ensures c.Valid() && Does(ConfigOf(c), old(c.State()), Discard(e), c.State(), now)
    ensures c.ncleanups == old(c.ncleanups)
  {
    hide Sma.Valid, Consistent, Recorded, Owned, Imprinted, Others;
    c.FreeUnlinked(e);
  }

  method PerformLook(c: Cache, k: string, t: int, now: int)
    requires c.Valid()
    modifies c, c.sma
    ensures c.Valid() && Does(ConfigOf(c), old(c.State()), Look(k, t), c.State(), now)
    ensures c.ncleanups == old(c.ncleanups)
  {
    hide Sma.Valid, Consistent, Recorded, Owned, Imprinted;
    var e := c.Find(k, t);
  }

  method PerformIncrease(c: Cache, k: string, step: int, t: int, now: int)
    requires c.Valid()
    modifies c, c.sma
    ensures c.Valid() && Does(ConfigOf(c), old(c.State()), Increase(k, step, t), c.State(), now)
    ensures c.ncleanups == old(c.ncleanups)
  {
    hide Sma.Valid, Consistent, Owned, Imprinted, Held, Wrap;
    ghost var s := c.State();
    if k in c.at {
      c.LastValue(k);
      assert Written(s, s.at[k], s.rec[s.at[k]]) == s;
    }
    var r := c.AtomicAdd(k, step, t, now);
  }

  method PerformDelete(c: Cache, k: string, now: int)
    requires c.Valid()
    modifies c, c.sma
    ensures c.Valid() && Does(ConfigOf(c), old(c.State()), Delete(k), c.State(), now) && c.ncleanups == old(c.ncleanups)
  {
    hide Sma.Valid, Consistent, Recorded, Owned, Imprinted, Upheld;
    var found := c.Delete(k, now);
  }

  method PerformCollect(c: Cache, now: int)
    requires c.Valid()
    modifies c, c.sma
    ensures c.Valid() && Does(ConfigOf(c), old(c.State()), Collect, c.State(), now) && c.ncleanups == old(c.ncleanups)
  {
    hide Sma.Valid, Consistent, Recorded, Owned, Imprinted, GcUpheld, GcOnly;
    c.Gc(now);
  }

  method PerformDefragment(c: Cache, now: int)
    requires c.Valid()
    modifies c, c.sma
    ensures c.Valid() && Does(ConfigOf(c), old(c.State()), Defragment, c.State(), now)
    ensures c.ncleanups == old(c.ncleanups)
  {
    hide Sma.Valid, Consistent, Recorded, Owned, Imprinted, Upheld, Relocated;
    c.Defragment(now);
  }

  method PerformClear(c: Cache, now: int)
    requires c.Valid()
    modifies c, c.sma
    ensures c.Valid() && Does(ConfigOf(c), old(c.State()), Clear, c.State(), now) && c.ncleanups == 0
  {
    hide Sma.Valid, Consistent, Recorded, Owned, Imprinted, Upheld, Wiped;
    c.Clear(now);
  }
}
