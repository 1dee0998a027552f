/**
 What happens when the gc gives up an entry that is still referenced: a run in which a process loses an
 entry that it holds, although that entry was never on the gc list while it held it.

 Process 2 finds an entry and keeps it for long. Meanwhile its key is deleted, the gc gives the entry up,
 and its memory is allocated for another key, which process 1 finds. Now process 2 releases what it has
 found, which takes away the only count that keeps the new entry from being freed; and when the new key
 is deleted, it is freed.
 */
module StaleRelease {
  import opened Basics
  import opened Cache
  import opened Chains
  import opened Effects
  import opened Entries
  import opened History
  import opened Imprint
  import opened References
  import opened Table

  // ---- tables with at most one entry

  /** There are no entries. */
  ghost predicate Bare(c: Config, s: Tab) {
    Consistent(c.y, c.hash, s) && s.home == map[] && s.rec == map[] && s.at == map[]
  }

  /** Entry e is the only one, with record x, and it is at home in i. */
  ghost predicate Single(c: Config, s: Tab, e: nat, x: Entry, i: nat) {
    && Consistent(c.y, c.hash, s) && s.home == map[e := i] && s.rec == map[e := x]
    && s.at == if i < c.y.n then map[x.key := e] else map[]
  }

  lemma OnlyList(c: Config, s: Tab, e: nat, x: Entry, i: nat)
    requires Single(c, s, e, x, i) && i <= c.y.n
    ensures |s.lists| == c.y.n + 1 && s.lists[i] == [e] && s.lists[i] == [] + [e] + []
  {
    assert Housed(c.y, s.home, s.lists) && e in s.home && s.home[e] == i;
    var l := s.lists[i];
    assert e in s.lists[s.home[e]];
    forall d | d in l ensures d == e {
      Member(c.y, s.home, s.lists, i, d);
    }
    assert Distinct(l);
    assert l[0] in l && l[0] !in l[1..];
    assert forall d :: d in l[1..] ==> d in l;
    FirstIn(l[1..]);
  }

  lemma FirstIn(l: seq<nat>)
    ensures l != [] ==> l[0] in l
  {
  }

  lemma NoList(c: Config, s: Tab, i: nat)
    requires Consistent(c.y, c.hash, s) && i <= c.y.n && forall e :: e in s.home ==> s.home[e] > c.y.n
    ensures |s.lists| == c.y.n + 1 && s.lists[i] == [] && s.lists[i] == [] + []
  {
    if s.lists[i] != [] {
      Member(c.y, s.home, s.lists, i, s.lists[i][0]);
    }
  }

  // ---- one step each

  lemma Allocated(c: Config, s: Tab, e: nat, x: Entry, now: int) returns (s': Tab)
    requires Bare(c, s) && Extent(c.y) <= e && x.refs == |x.holders| >= 1 && x.memSize > 0
    ensures Does(c, s, Allocate(x), s', now) && Single(c, s', e, x, InFlight(c.y))
  {
    s' := Launched(c.y, s, e, x);
    LaunchEntry(c.y, c.hash, s, e, x);
    hide Consistent;
  }

  lemma InsertedAlone(c: Config, s: Tab, e: nat, x: Entry, now: int) returns (s': Tab)
    requires Single(c, s, e, x, InFlight(c.y)) && c.gcTtl >= 0
    ensures Sane(c.y) && Does(c, s, Insert(e, false), s', now) && Single(c, s', e, x, Slot(c.y, c.hash, x.key))
  {
    hide Consistent, Slot, Upheld, GcUpheld, Purged, LinkNext, LinkPrev, Cleaning, Keyed, Referenced, Head, Last;
    ConsistentParts(c.y, c.hash, s);
    var i := Slot(c.y, c.hash, x.key);
    SlotIs(c, x.key);
    NoList(c, s, i);
    InsertEffect(c.y, c.hash, c.ttl, s, [], e, [], x, x.ctime, now);
    s' := Inserted(c.y, s, i, [], e, []);
    CleaningPurged(c.y, c.ttl, {x.key}, s, s', x.ctime, now);
    NothingOnGc(c, s, s', now);
  }

  lemma SlotIs(c: Config, k: string)
    requires Sane(c.y)
    ensures Slot(c.y, c.hash, k) < c.y.n
  {
  }

  /** If nothing is on the gc list, collecting gives nothing up. */
  lemma NothingOnGc(c: Config, s: Tab, s': Tab, now: int)
    requires Upheld(c.y, s, s', now) && c.gcTtl >= 0 && forall e :: e in s.home ==> s.home[e] != OnGc(c.y)
    ensures GcUpheld(c.y, c.gcTtl, s, s', now)
  {
    UpheldHeld(c.y, c.gcTtl, s, s', now);
    hide Held;
  }

  lemma Wrote1(c: Config, s: Tab, e: nat, x: Entry, x': Entry, i: nat) returns (s': Tab)
    requires Single(c, s, e, x, i) && x'.key == x.key && x'.memSize == x.memSize && x'.refs == |x'.holders| && i < c.y.n
    ensures s' == Written(s, e, x') && Single(c, s', e, x', i)
  {
    s' := Written(s, e, x');
    Touch(c.y, c.hash, s, e, x');
    hide Consistent;
  }

  lemma DeletedAlone(c: Config, s: Tab, e: nat, x: Entry, i: nat, now: int) returns (s': Tab)
    requires Single(c, s, e, x, i) && i < c.y.n && x.refs > 0
    ensures Does(c, s, Delete(x.key), s', now) && Single(c, s', e, x.(dtime := now), OnGc(c.y))
  {
    hide Consistent, Upheld, UnlinkNext, UnlinkPrev, LinkNext, LinkPrev, Others, OtherLists, Remains;
    OnlyList(c, s, e, x, i);
    RemoveEffect(c.y, c.hash, s, [], e, [], now);
    s' := Removed(c.y, s, [], e, [], now);
  }

  lemma CollectedAlone(c: Config, s: Tab, e: nat, x: Entry, now: int) returns (s': Tab)
    requires Single(c, s, e, x, OnGc(c.y)) && c.gcTtl > 0 && now - x.dtime > c.gcTtl
    ensures Does(c, s, Collect, s', now) && Bare(c, s')
  {
    OnlyList(c, s, e, x, OnGc(c.y));
    SweepEffect(c.y, c.hash, c.gcTtl, s, [], e, [], now);
    s' := Swept(c.y, s, [], e, []);
    hide Consistent, Held, UnlinkNext, UnlinkPrev;
  }

  /** What the code does when key k is deleted whose entry has a reference count of 0. */
  lemma FreedAlone(c: Config, s: Tab, e: nat, now: int)
    requires e in s.rec && s.rec[e].refs <= 0 && e in s.home && s.home[e] < c.y.n < |s.lists|
    ensures e !in Removed(c.y, s, [], e, [], now).rec
  {
  }

  // ---- the run

  /** What is known about a world with at most one entry. */
  ghost predicate At(c: Config, w: World, e: nat, x: Entry, i: nat, owed: set<(nat, nat)>) {
    !w.broken && Single(c, w.tab, e, x, i) && w.owed.Keys == owed
  }

  ghost predicate AtBare(c: Config, w: World, owed: set<(nat, nat)>) {
    !w.broken && Bare(c, w.tab) && w.owed.Keys == owed
  }

  lemma StepAllocate(c: Config, w: World, e: nat, x: Entry, h: nat, owed: set<(nat, nat)>, now: int) returns (w': World)
    requires AtBare(c, w, owed) && c.gcTtl >= 0 && Extent(c.y) <= e && x.refs == 1 && x.holders == {h} && x.memSize > 0
    requires Fitting(x) && forall r :: r in owed ==> r.1 != h
    ensures Step(c, w, Allocate(x), w', now) && At(c, w', e, x, InFlight(c.y), owed + {(e, h)})
  {
    hide Consistent, Does, Fitting, Owed;
    var s' := Allocated(c, w.tab, e, x, now);
    NewOwed(c, w, e, x, h, s', now);
    w' := World(s', Owed(w, Allocate(x), s', now), w.cleanups, false);
  }

  lemma NewOwed(c: Config, w: World, e: nat, x: Entry, h: nat, s': Tab, now: int)
    requires w.tab.home == map[] && s'.home == map[e := InFlight(c.y)] && x.holders == {h}
    ensures Owed(w, Allocate(x), s', now).Keys == w.owed.Keys + {(e, h)}
  {
    assert w.tab.home.Keys == {} && s'.home.Keys == {e};
    var more := map d, g | d in s'.home.Keys - w.tab.home.Keys && g in x.holders :: (d, g) := now;
    assert (e, h) in more.Keys;
    assert Owed(w, Allocate(x), s', now) == w.owed + more;
  }

  lemma StepInsert(c: Config, w: World, e: nat, x: Entry, owed: set<(nat, nat)>, now: int) returns (w': World)
    requires At(c, w, e, x, InFlight(c.y), owed) && c.gcTtl >= 0
    ensures Sane(c.y) && Step(c, w, Insert(e, false), w', now) && At(c, w', e, x, Slot(c.y, c.hash, x.key), owed)
  {
    hide Consistent, Does, Slot;
    var s' := InsertedAlone(c, w.tab, e, x, now);
    w' := w.(tab := s');
  }

  lemma StepRelease(c: Config, w: World, e: nat, x: Entry, i: nat, h: nat, owed: set<(nat, nat)>,
                    now: int) returns (w': World)
    requires At(c, w, e, x, i, owed) && c.gcTtl >= 0 && i < c.y.n && x.refs == 1 && x.holders == {h} && (e, h) in owed
    ensures Step(c, w, Release(e, h), w', now) && At(c, w', e, Released(x, h), i, owed - {(e, h)})
  {
    hide Consistent;
    assert x.holders - {h} == {};
    var s' := Wrote1(c, w.tab, e, x, Released(x, h), i);
    w' := w.(tab := s', owed := w.owed - {(e, h)});
  }

  lemma StepFind(c: Config, w: World, e: nat, x: Entry, i: nat, h: nat, owed: set<(nat, nat)>, t: int,
                 now: int) returns (w': World)
    requires At(c, w, e, x, i, owed) && c.gcTtl >= 0 && i < c.y.n && x.refs == 0 && x.holders == {} && x.ttl == 0
    requires forall r :: r in owed ==> r.1 != h
    ensures Step(c, w, FindIncref(x.key, t, h), w', now) && At(c, w', e, Accessed(x, t, h), i, owed + {(e, h)})
  {
    hide Consistent;
    var s' := Wrote1(c, w.tab, e, x, Accessed(x, t, h), i);
    w' := w.(tab := s', owed := w.owed[(e, h) := now]);
  }

  lemma StepDelete(c: Config, w: World, e: nat, x: Entry, i: nat, owed: set<(nat, nat)>, now: int) returns (w': World)
    requires At(c, w, e, x, i, owed) && c.gcTtl >= 0 && i < c.y.n && x.refs > 0
    ensures Step(c, w, Delete(x.key), w', now) && At(c, w', e, x.(dtime := now), OnGc(c.y), owed)
  {
    hide Consistent, Does;
    var s' := DeletedAlone(c, w.tab, e, x, i, now);
    w' := w.(tab := s');
  }

  lemma StepCollect(c: Config, w: World, e: nat, x: Entry, owed: set<(nat, nat)>, now: int) returns (w': World)
    requires At(c, w, e, x, OnGc(c.y), owed) && c.gcTtl > 0 && now - x.dtime > c.gcTtl
    ensures Step(c, w, Collect, w', now) && AtBare(c, w', owed)
  {
    hide Consistent, Does;
    var s' := CollectedAlone(c, w.tab, e, x, now);
    w' := w.(tab := s');
  }

  /** The release of a reference that was given up takes away the reference of somebody else. */
  lemma StepStale(c: Config, w: World, e: nat, x: Entry, i: nat, h: nat, owed: set<(nat, nat)>,
                  now: int) returns (w': World)
    requires At(c, w, e, x, i, owed) && c.gcTtl >= 0 && (e, h) in owed && h !in x.holders
    ensures Step(c, w, Release(e, h), w', now) && w'.broken && w'.owed.Keys == owed - {(e, h)}
    ensures w'.tab == Written(w.tab, e, Released(x, h)) && |w'.tab.lists| == c.y.n + 1
  {
    ConsistentParts(c.y, c.hash, w.tab);
    hide Consistent, Keyed, Referenced;
    w' := World(Written(w.tab, e, Released(x, h)), w.owed - {(e, h)}, w.cleanups, true);
  }

  /** A run, as it grows. */
  datatype Story = Story(run: seq<World>, ops: seq<Op>, times: seq<int>)

  ghost predicate Told(c: Config, s: Story, w: World) {
    Run(c, s.run, s.ops, s.times) && s.run[|s.ops|] == w
  }

  ghost predicate Extends(s: Story, s': Story) {
    && |s.run| <= |s'.run| && s'.run[..|s.run|] == s.run
    && |s.ops| <= |s'.ops| && s'.ops[..|s.ops|] == s.ops
    && |s.times| <= |s'.times| && s'.times[..|s.times|] == s.times
  }

  lemma Tell(c: Config, s: Story, w: World, op: Op, w': World, now: int) returns (s': Story)
    requires Told(c, s, w) && Step(c, w, op, w', now)
    ensures s' == Story(s.run + [w'], s.ops + [op], s.times + [now]) && Told(c, s', w')
  {
    hide Step;
    s' := Story(s.run + [w'], s.ops + [op], s.times + [now]);
    forall i | 0 <= i < |s'.ops| ensures StepAt(c, s'.run, s'.ops, s'.times, i) {
      if i < |s.ops| {
        assert StepAt(c, s.run, s.ops, s.times, i);
      }
    }
  }

  /** What is stored under key k by owner. */
  function Zero(k: string, owner: nat, now: int): Entry {
    Entry(k, Long(0), 0, 1, {owner}, 0, now, now, 0, now, 1)
  }

  /** Key k is stored in entry e, ... */
  lemma StoreRun(c: Config, s: Story, w: World, e: nat, k: string, owner: nat, owed: set<(nat, nat)>, now: int)
    returns (s': Story, w': World)
    requires Told(c, s, w) && AtBare(c, w, owed) && c.gcTtl >= 0 && Extent(c.y) <= e && Sane(c.y)
    requires forall r :: r in owed ==> r.1 != owner
    ensures Told(c, s', w') && |s'.ops| == |s.ops| + 3 && |s'.run| == |s.run| + 3 && |s'.times| == |s.times| + 3
    ensures At(c, w', e, Released(Zero(k, owner, now), owner), Slot(c.y, c.hash, k), owed) && Extends(s, s')
  {
    hide Step, Told, At, AtBare, Slot;
    SlotIs(c, k);
    var x, i := Zero(k, owner, now), Slot(c.y, c.hash, k);
    var w1 := StepAllocate(c, w, e, x, owner, owed, now);
    var s1 := Tell(c, s, w, Allocate(x), w1, now);
    var w2 := StepInsert(c, w1, e, x, owed + {(e, owner)}, now);
    var s2 := Tell(c, s1, w1, Insert(e, false), w2, now);
    w' := StepRelease(c, w2, e, x, i, owner, owed + {(e, owner)}, now);
    s' := Tell(c, s2, w2, Release(e, owner), w', now);
    assert owed + {(e, owner)} - {(e, owner)} == owed;
  }

  /** ... and h finds it. */
  lemma FindRun(c: Config, s: Story, w: World, e: nat, k: string, owner: nat, h: nat, owed: set<(nat, nat)>, now: int)
    returns (s': Story, w': World, x: Entry)
    requires Told(c, s, w) && AtBare(c, w, owed) && c.gcTtl >= 0 && Extent(c.y) <= e && Sane(c.y)
    requires forall r :: r in owed ==> r.1 != owner && r.1 != h
    ensures Told(c, s', w') && |s'.ops| == |s.ops| + 4 && |s'.run| == |s.run| + 4 && |s'.times| == |s.times| + 4
    ensures Extends(s, s') && s'.ops[|s.ops| + 3] == FindIncref(k, now, h) && s'.times[|s.times| + 3] == now
    ensures At(c, w', e, x, Slot(c.y, c.hash, k), owed + {(e, h)}) && x.key == k && x.refs == 1 && x.holders == {h}
    ensures x.ttl == 0
  {
    hide Step, Told, At, AtBare, Slot;
    SlotIs(c, k);
    var s1, w1 := StoreRun(c, s, w, e, k, owner, owed, now);
    var x1 := Released(Zero(k, owner, now), owner);
    assert {owner} - {owner} == {} && {} + {h} == {h};
    x := Accessed(x1, now, h);
    w' := StepFind(c, w1, e, x1, Slot(c.y, c.hash, k), h, owed, now, now);
    s' := Tell(c, s1, w1, FindIncref(k, now, h), w', now);
  }

  /** Process 2 finds x in entry e; x is deleted; ... */
  lemma DeletedRun(c: Config, e: nat) returns (s: Story, w: World, x: Entry)
    requires Sane(c.y) && c.gcTtl > 0 && Extent(c.y) <= e
    ensures Told(c, s, w) && |s.ops| == 5 && |s.run| == 6 && |s.times| == 5
    ensures At(c, w, e, x, OnGc(c.y), {(e, 2)}) && x.dtime == 0 && 2 in x.holders
    ensures s.run[0] == World(Empty(c.y), map[], 0, false) && s.ops[3] == FindIncref("x", 0, 2)
    ensures s.ops[4] == Delete("x")
  {
    hide Step, Told, At, AtBare, Slot, Empty, Consistent;
    var w0 := World(Empty(c.y), map[], 0, false);
    var s0 := Story([w0], [], []);
    ToldFirst(c, s0, w0);
    SlotIs(c, "x");
    var s4, w4, x4 := FindRun(c, s0, w0, e, "x", 10, 2, {}, 0);
    assert {} + {(e, 2)} == {(e, 2)};
    x := x4.(dtime := 0);
    w := StepDelete(c, w4, e, x4, Slot(c.y, c.hash, "x"), {(e, 2)}, 0);
    s := Tell(c, s4, w4, Delete("x"), w, 0);
    assert s4.run[..1][0] == s0.run[0];
  }

  /** ... after more than gc_ttl seconds the gc gives e up; ... */
  lemma GivenUpRun(c: Config, e: nat) returns (s: Story, w: World)
    requires Sane(c.y) && c.gcTtl > 0 && Extent(c.y) <= e
    ensures Told(c, s, w) && |s.ops| == 6 && |s.run| == 7 && |s.times| == 6 && AtBare(c, w, {(e, 2)})
    ensures s.run[0] == World(Empty(c.y), map[], 0, false) && s.ops[3] == FindIncref("x", 0, 2)
    ensures s.ops[4] == Delete("x") && s.ops[5] == Collect && GivesUp(c, s.run[5], Collect, s.times[5])
  {
    hide Step, Told, At, AtBare, Slot, Empty, GivesUp;
    var s5, w5, x := DeletedRun(c, e);
    ToldIs(c, s5, w5);
    GivesUpAlone(c, w5, e, x, 2, {(e, 2)}, c.gcTtl + 1);
    w := StepCollect(c, w5, e, x, {(e, 2)}, c.gcTtl + 1);
    s := Tell(c, s5, w5, Collect, w, c.gcTtl + 1);
  }

  lemma ToldFirst(c: Config, s: Story, w: World)
    requires Sane(c.y) && w == World(Empty(c.y), map[], 0, false) && s == Story([w], [], [])
    ensures AtBare(c, w, {}) && Told(c, s, w)
  {
    EmptyConsistent(c.y, c.hash);
  }

  lemma ToldIs(c: Config, s: Story, w: World)
    requires Told(c, s, w)
    ensures |s.run| == |s.ops| + 1 == |s.times| + 1 && s.run[|s.ops|] == w
  {
  }

  lemma GivesUpAlone(c: Config, w: World, e: nat, x: Entry, h: nat, owed: set<(nat, nat)>, now: int)
    requires At(c, w, e, x, OnGc(c.y), owed) && h in x.holders && c.gcTtl > 0 && now - x.dtime > c.gcTtl
    ensures GivesUp(c, w, Collect, now)
  {
    hide Consistent;
    assert Holds(w.tab, e, h) && Late(c.y, c.gcTtl, w.tab, e, now);
  }

  /** ... process 1 finds k, for which the same memory has been allocated; process 2 releases what it found;
      and when k is deleted, its entry is freed, although process 1 still holds it, and although it was not
      on the gc list. */
  ghost predicate LosesHeld(c: Config, s: Story, e: nat) {
    && Run(c, s.run, s.ops, s.times) && |s.ops| == 12
    && s.run[0] == World(Empty(c.y), map[], 0, false)
    && s.ops[3] == FindIncref("x", 0, 2) && s.ops[4] == Delete("x") && GivesUp(c, s.run[5], s.ops[5], s.times[5])
    && s.ops[9] == FindIncref("k", s.times[9], 1) && s.ops[10] == Release(e, 2) && s.ops[11] == Delete("k")
    && Holds(s.run[10].tab, e, 1) && s.run[10].tab.home[e] < c.y.n && (e, 1) in s.run[12].owed
    && Holds(s.run[11].tab, e, 1) && s.run[11].tab.home[e] < c.y.n < |s.run[11].tab.lists|
    && s.run[12].tab == Removed(c.y, s.run[11].tab, [], e, [], s.times[11]) && e !in s.run[12].tab.rec
  }

  lemma LosesHeldRun(c: Config, e: nat) returns (s: Story)
    requires Sane(c.y) && c.gcTtl > 0 && Extent(c.y) <= e
    ensures LosesHeld(c, s, e)
  {
    hide Step, Told, At, AtBare, Slot, Empty, GivesUp, Removed, Run;
    SlotIs(c, "k");
    var now := c.gcTtl + 1;
    var s6, w6 := GivenUpRun(c, e);
    var s10, w10, x := FindRun(c, s6, w6, e, "k", 11, 1, {(e, 2)}, now);
    var owed := {(e, 2)} + {(e, 1)};
    var i := Slot(c.y, c.hash, "k");
    var w11 := StepStale(c, w10, e, x, i, 2, owed, now);
    var s11 := Tell(c, s10, w10, Release(e, 2), w11, now);
    IsAt(c, w10, e, x, i, owed);
    FreedAlone(c, w11.tab, e, now);
    var w12 := w11.(tab := Removed(c.y, w11.tab, [], e, [], now));
    BrokenStep(c, w11, Delete("k"), w12, now);
    s := Tell(c, s11, w11, Delete("k"), w12, now);
    ToldIs(c, s, w12);
    ToldIs(c, s11, w11);
    ToldIs(c, s10, w10);
    ToldIs(c, s6, w6);
    ToldRun(c, s, w12);
    assert s10.run[..7][0] == s6.run[0] && s10.run[..7][5] == s6.run[5];
    assert s10.ops[..6][3] == s6.ops[3] && s10.ops[..6][4] == s6.ops[4] && s10.ops[..6][5] == s6.ops[5];
    assert s10.times[..6][5] == s6.times[5];
  }

  lemma IsAt(c: Config, w: World, e: nat, x: Entry, i: nat, owed: set<(nat, nat)>)
    requires At(c, w, e, x, i, owed)
    ensures w.tab.home == map[e := i] && w.tab.rec == map[e := x] && w.owed.Keys == owed
  {
  }

  lemma BrokenStep(c: Config, w: World, op: Op, w': World, now: int)
    requires w.broken && w'.broken
    ensures Step(c, w, op, w', now)
  {
  }

  lemma ToldRun(c: Config, s: Story, w: World)
    requires Told(c, s, w)
    ensures Run(c, s.run, s.ops, s.times)
  {
  }

  /** There is such a run whenever gc_ttl is positive. */
  lemma {:induction false} GivingUpCanLoseOthers(c: Config, e: nat)
    requires Sane(c.y) && c.gcTtl > 0 && Extent(c.y) <= e
    ensures exists s :: LosesHeld(c, s, e)
  {
    var s := LosesHeldRun(c, e);
  }
}
