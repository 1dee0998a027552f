/** The entries of the cache: their records, which key has which entry, and the counters in the
    cache header. Tab is the whole table at one moment; the class in Cache.dfy keeps its parts in
    fields. The lemmas say what the single steps of apc_cache.c do to a consistent table. */
module Entries {
  import opened Basics
  import opened Chains
  import opened Table

  /** A stored value: an integer, which may be updated in place, or a persisted image. */
  datatype Value = Long(n: int) | Image(bytes: seq<Byte>)

  /** apc_cache_entry_t without its links. The code keeps only the number of references; holders
      names them, for the proofs. */
  datatype Entry = Entry(key: string, val: Value, ttl: int, refs: int, holders: set<nat>, nhits: int,
                         ctime: int, mtime: int, dtime: int, atime: int, memSize: nat)

  type Records = map<nat, Entry>

  datatype Tab = Tab(next: Links, prev: Links, rec: Records, home: Homes, lists: seq<seq<nat>>,
                     at: map<string, nat>, nentries: int, memSize: int)

  // ---- expiry

  predicate HardExpired(x: Entry, t: int) {
    x.ttl != 0 && x.ctime + x.ttl < t
  }

  predicate SoftExpired(ttl: int, x: Entry, t: int) {
    x.ttl == 0 && ttl != 0 && x.atime + ttl < t
  }

  /** A ttl of its own counts from the creation of the entry, the default one from its last access. */
  predicate Expired(ttl: int, x: Entry, t: int): (r: bool)
    ensures x.ttl != 0 ==> (r <==> x.ctime + x.ttl < t)
    ensures x.ttl == 0 ==> (r <==> ttl != 0 && x.atime + ttl < t)
  {
    HardExpired(x, t) || SoftExpired(ttl, x, t)
  }

  // ---- invariants

  function Slot(y: Layout, hash: string -> nat, k: string): nat
    requires Sane(y)
    ensures Slot(y, hash, k) < y.n
  {
    hash(k) % y.n
  }

  /** Each key has at most one linked entry, and that entry is in the chain hash % nslots. */
  ghost predicate Keyed(y: Layout, hash: string -> nat, rec: Records, home: Homes, at: map<string, nat>) {
    && Sane(y) && rec.Keys == home.Keys
    && (forall k :: k in at ==> at[k] in rec && rec[at[k]].key == k && home[at[k]] == Slot(y, hash, k))
    && (forall e :: e in home && home[e] < y.n ==> rec[e].key in at && at[rec[e].key] == e)
  }

  /** References are counted, and an entry that is being stored is referenced. */
  ghost predicate Referenced(y: Layout, rec: Records, home: Homes) {
    && rec.Keys == home.Keys
    && (forall e :: e in rec ==> rec[e].refs == |rec[e].holders| && rec[e].memSize > 0)
    && (forall e :: e in home && home[e] == InFlight(y) ==> rec[e].refs >= 1)
    && (forall e :: e in home ==> home[e] <= InFlight(y))
  }

  /** How many entries the first n lists hold. */
  function Count(lists: seq<seq<nat>>, n: nat): nat
    requires n <= |lists|
  {
    if n == 0 then 0 else Count(lists, n - 1) + |lists[n - 1]|
  }

  function SizeOf(rec: Records, e: nat): nat {
    if e in rec then rec[e].memSize else 0
  }

  function SizeSum(rec: Records, l: seq<nat>): nat {
    if l == [] then 0 else SizeOf(rec, l[0]) + SizeSum(rec, l[1..])
  }

  /** How much memory the entries of the first n lists take. */
  function Sizes(rec: Records, lists: seq<seq<nat>>, n: nat): nat
    requires n <= |lists|
  {
    if n == 0 then 0 else Sizes(rec, lists, n - 1) + SizeSum(rec, lists[n - 1])
  }

  /** The counters in the header agree with the slots. */
  ghost predicate Tallied(y: Layout, rec: Records, lists: seq<seq<nat>>, nentries: int, memSize: int) {
    |lists| == y.n + 1 && nentries == Count(lists, y.n) && memSize == Sizes(rec, lists, y.n)
  }

  ghost predicate Consistent(y: Layout, hash: string -> nat, s: Tab) {
    && Linked(y, s.next, s.prev, s.home, s.lists)
    && Keyed(y, hash, s.rec, s.home, s.at)
    && Referenced(y, s.rec, s.home)
    && Tallied(y, s.rec, s.lists, s.nentries, s.memSize)
  }

  // ---- sums

  lemma {:induction false} CountUpdate(lists: seq<seq<nat>>, n: nat, i: nat, l: seq<nat>)
    requires n <= |lists| && i < |lists|
    ensures Count(lists[i := l], n) == Count(lists, n) + if i < n then |l| - |lists[i]| else 0
  {
    if n > 0 {
      CountUpdate(lists, n - 1, i, l);
    }
  }

  lemma {:induction false} SizesUpdate(rec: Records, lists: seq<seq<nat>>, n: nat, i: nat, l: seq<nat>)
    requires n <= |lists| && i < |lists|
    ensures Sizes(rec, lists[i := l], n) ==
      Sizes(rec, lists, n) + if i < n then SizeSum(rec, l) - SizeSum(rec, lists[i]) else 0
  {
    if n > 0 {
      SizesUpdate(rec, lists, n - 1, i, l);
    }
  }

  lemma {:induction false} SizeSumConcat(rec: Records, a: seq<nat>, b: seq<nat>)
    ensures SizeSum(rec, a + b) == SizeSum(rec, a) + SizeSum(rec, b)
  {
    if a == [] {
      assert a + b == b;
    } else {
      assert (a + b)[0] == a[0] && (a + b)[1..] == a[1..] + b;
      SizeSumConcat(rec, a[1..], b);
    }
  }

  lemma {:induction false} SizeSumFrame(rec: Records, rec': Records, l: seq<nat>)
    requires forall e :: e in l ==> SizeOf(rec', e) == SizeOf(rec, e)
    ensures SizeSum(rec', l) == SizeSum(rec, l)
  {
    if l != [] {
      assert forall e :: e in l[1..] ==> e in l;
      SizeSumFrame(rec, rec', l[1..]);
    }
  }

  lemma {:induction false} SizesFrame(rec: Records, rec': Records, lists: seq<seq<nat>>, n: nat)
    requires n <= |lists| && forall i, e :: 0 <= i < n && e in lists[i] ==> SizeOf(rec', e) == SizeOf(rec, e)
    ensures Sizes(rec', lists, n) == Sizes(rec, lists, n)
  {
    if n > 0 {
      SizeSumFrame(rec, rec', lists[n - 1]);
      SizesFrame(rec, rec', lists, n - 1);
    }
  }

  lemma SizeSumWithout(rec: Records, pre: seq<nat>, e: nat, post: seq<nat>)
    ensures SizeSum(rec, pre + [e] + post) == SizeSum(rec, pre + post) + SizeOf(rec, e)
  {
    SizeSumConcat(rec, pre + [e], post);
    SizeSumConcat(rec, pre, [e]);
    SizeSumConcat(rec, pre, post);
    assert SizeSum(rec, [e]) == SizeOf(rec, e);
  }

  /** An entry leaves slot i. */
  lemma TallyOut(y: Layout, rec: Records, lists: seq<seq<nat>>, nentries: int, memSize: int, i: nat, pre: seq<nat>,
                 e: nat, post: seq<nat>)
    requires Tallied(y, rec, lists, nentries, memSize) && i < y.n && lists[i] == pre + [e] + post
    ensures Tallied(y, rec, lists[i := pre + post], nentries - 1, memSize - SizeOf(rec, e))
    ensures nentries > 0 && memSize >= SizeOf(rec, e)
  {
    CountUpdate(lists, y.n, i, pre + post);
    SizesUpdate(rec, lists, y.n, i, pre + post);
    SizeSumWithout(rec, pre, e, post);
    CountUpdate(lists, y.n, i, []);
    SizesUpdate(rec, lists, y.n, i, []);
  }

  /** An entry enters slot i. */
  lemma TallyIn(y: Layout, rec: Records, lists: seq<seq<nat>>, nentries: int, memSize: int, i: nat, pre: seq<nat>,
                e: nat, post: seq<nat>)
    requires Tallied(y, rec, lists, nentries, memSize) && i < y.n && lists[i] == pre + post
    ensures Tallied(y, rec, lists[i := pre + [e] + post], nentries + 1, memSize + SizeOf(rec, e))
  {
    CountUpdate(lists, y.n, i, pre + [e] + post);
    SizesUpdate(rec, lists, y.n, i, pre + [e] + post);
    SizeSumWithout(rec, pre, e, post);
  }

  /** The gc list does not count, and neither do entries outside the slots. */
  lemma TallyFrame(y: Layout, rec: Records, rec': Records, home: Homes, lists: seq<seq<nat>>, l: seq<nat>,
                   nentries: int, memSize: int)
    requires Tallied(y, rec, lists, nentries, memSize) && Housed(y, home, lists)
    requires forall e :: e in home && home[e] < y.n ==> SizeOf(rec', e) == SizeOf(rec, e)
    ensures Tallied(y, rec', lists[y.n := l], nentries, memSize) && Tallied(y, rec', lists, nentries, memSize)
  {
    forall i, e | 0 <= i < y.n && e in lists[i] ensures SizeOf(rec', e) == SizeOf(rec, e) {
      Member(y, home, lists, i, e);
    }
    SizesFrame(rec, rec', lists, y.n);
    CountUpdate(lists, y.n, y.n, l);
    SizesUpdate(rec', lists, y.n, y.n, l);
  }

  // ---- what the steps do to the records

  lemma KeyedWithout(y: Layout, hash: string -> nat, rec: Records, home: Homes, at: map<string, nat>, e: nat)
    requires Keyed(y, hash, rec, home, at) && e in home && home[e] < y.n
    ensures rec[e].key in at && at[rec[e].key] == e
    ensures Keyed(y, hash, rec - {e}, home - {e}, at - {rec[e].key})
  {
  }

  lemma KeyedParked(y: Layout, hash: string -> nat, rec: Records, home: Homes, at: map<string, nat>, e: nat, x: Entry)
    requires Keyed(y, hash, rec, home, at) && e in home && home[e] < y.n && x.key == rec[e].key
    ensures Keyed(y, hash, rec[e := x], home[e := OnGc(y)], at - {x.key})
  {
    hide Slot;
    assert at[x.key] == e;
  }

  lemma KeyedUnlisted(y: Layout, hash: string -> nat, rec: Records, home: Homes, at: map<string, nat>, e: nat)
    requires Keyed(y, hash, rec, home, at) && e in home && home[e] >= y.n
    ensures Keyed(y, hash, rec - {e}, home - {e}, at)
  {
    hide Slot;
  }

  lemma KeyedLaunched(y: Layout, hash: string -> nat, rec: Records, home: Homes, at: map<string, nat>, e: nat, x: Entry)
    requires Keyed(y, hash, rec, home, at) && e !in home
    ensures Keyed(y, hash, rec[e := x], home[e := InFlight(y)], at)
  {
    hide Slot;
  }

  lemma KeyedInserted(y: Layout, hash: string -> nat, rec: Records, home: Homes, at: map<string, nat>, e: nat)
    requires Keyed(y, hash, rec, home, at) && e in home && home[e] >= y.n && rec[e].key !in at
    ensures Keyed(y, hash, rec, home[e := Slot(y, hash, rec[e].key)], at[rec[e].key := e])
  {
    hide Slot;
  }

  lemma KeyedTouched(y: Layout, hash: string -> nat, rec: Records, home: Homes, at: map<string, nat>, e: nat, x: Entry)
    requires Keyed(y, hash, rec, home, at) && e in home && x.key == rec[e].key
    ensures Keyed(y, hash, rec[e := x], home, at)
  {
    hide Slot;
  }

  lemma KeyedMoved(y: Layout, hash: string -> nat, rec: Records, home: Homes, at: map<string, nat>, o: nat, n: nat)
    requires Keyed(y, hash, rec, home, at) && o in home && n !in home
    ensures Keyed(y, hash, (rec - {o})[n := rec[o]], (home - {o})[n := home[o]],
                  if home[o] < y.n then at[rec[o].key := n] else at)
  {
    hide Slot;
    var k := rec[o].key;
    assert home[o] < y.n ==> k in at && at[k] == o;
    assert home[o] >= y.n ==> forall j :: j in at ==> at[j] != o;
  }

  lemma ReferencedWithout(y: Layout, rec: Records, home: Homes, e: nat)
    requires Referenced(y, rec, home)
    ensures Referenced(y, rec - {e}, home - {e})
  {
  }

  lemma TallyDropped(y: Layout, s: Tab, i: nat, pre: seq<nat>, e: nat, post: seq<nat>)
    requires Linked(y, s.next, s.prev, s.home, s.lists) && Tallied(y, s.rec, s.lists, s.nentries, s.memSize)
    requires Referenced(y, s.rec, s.home) && e in s.home && s.home[e] == i < y.n && s.lists[i] == pre + [e] + post
    ensures e in s.rec
    ensures Tallied(y, s.rec - {e}, s.lists[i := pre + post], s.nentries - 1, s.memSize - s.rec[e].memSize)
    ensures s.nentries > 0 && s.memSize > 0
  {
    TallyOut(y, s.rec, s.lists, s.nentries, s.memSize, i, pre, e, post);
    HousedWithout(y, s.home, s.lists, i, pre, e, post);
    assert s.rec[e].memSize > 0;
    hide Linked, Tallied, Housed, Referenced;
    TallyFrame(y, s.rec, s.rec - {e}, s.home - {e}, s.lists[i := pre + post], [], s.nentries - 1,
      s.memSize - s.rec[e].memSize);
  }

  // ---- the steps

  function Dropped(s: Tab, pre: seq<nat>, e: nat, post: seq<nat>): Tab
    requires e in s.rec && e in s.home && s.home[e] < |s.lists|
  {
    Tab(UnlinkNext(s.next, s.prev, e), UnlinkPrev(s.next, s.prev, e), s.rec - {e}, s.home - {e},
        s.lists[s.home[e] := pre + post], s.at - {s.rec[e].key}, s.nentries - 1, s.memSize - s.rec[e].memSize)
  }

  /** A linked entry that nobody references is removed and freed. */
  lemma Drop(y: Layout, hash: string -> nat, s: Tab, pre: seq<nat>, e: nat, post: seq<nat>)
    requires Consistent(y, hash, s) && e in s.home && s.home[e] < y.n && s.lists[s.home[e]] == pre + [e] + post
    ensures Consistent(y, hash, Dropped(s, pre, e, post))
    ensures s.nentries > 0 && s.memSize > 0
  {
    hide Linked, Keyed, Tallied, Referenced, UnlinkNext, UnlinkPrev, SizeOf, Housed;
    var i := s.home[e];
    Unlink(y, s.next, s.prev, s.home, s.lists, i, pre, e, post);
    KeyedWithout(y, hash, s.rec, s.home, s.at, e);
    TallyDropped(y, s, i, pre, e, post);
    ReferencedWithout(y, s.rec, s.home, e);
  }

  function Parked(y: Layout, s: Tab, pre: seq<nat>, e: nat, post: seq<nat>, now: int): Tab
    requires e in s.rec && e in s.home && s.home[e] < |s.lists| && y.n < |s.lists|
  {
    var next1, prev1 := UnlinkNext(s.next, s.prev, e), UnlinkPrev(s.next, s.prev, e);
    Tab(LinkNext(next1, y.gc, e), LinkPrev(next1, prev1, y.gc, e), s.rec[e := s.rec[e].(dtime := now)],
      s.home[e := OnGc(y)],
        s.lists[s.home[e] := pre + post][y.n := [e] + s.lists[y.n]], s.at - {s.rec[e].key}, s.nentries - 1,
        s.memSize - s.rec[e].memSize)
  }

  lemma ParkLinks(y: Layout, s: Tab, i: nat, pre: seq<nat>, e: nat, post: seq<nat>)
    requires Linked(y, s.next, s.prev, s.home, s.lists) && i < y.n && |s.lists| == y.n + 1
    requires s.lists[i] == pre + [e] + post
    ensures var next1, prev1 := UnlinkNext(s.next, s.prev, e), UnlinkPrev(s.next, s.prev, e);
            Linked(y, LinkNext(next1, y.gc, e), LinkPrev(next1, prev1, y.gc, e), s.home[e := OnGc(y)],
                   s.lists[i := pre + post][y.n := [e] + s.lists[y.n]])
  {
    hide *;
    var next1, prev1, lists1 := UnlinkNext(s.next, s.prev, e), UnlinkPrev(s.next, s.prev, e), s.lists[i := pre + post];
    Unlink(y, s.next, s.prev, s.home, s.lists, i, pre, e, post);
    LinkGc(y, next1, prev1, s.home - {e}, lists1, e) by { Outside(y, s.home, s.lists, s.next, s.prev, e); }
    assert lists1[y.n] == s.lists[y.n];
    assert (s.home - {e})[e := y.n] == s.home[e := y.n];
    assert OnGc(y) == y.n by { GcIndex(y); }
  }

  lemma GcIndex(y: Layout)
    ensures OnGc(y) == y.n
  {
  }

  lemma Outside(y: Layout, home: Homes, lists: seq<seq<nat>>, next: Links, prev: Links, e: nat)
    requires Linked(y, next, prev, home, lists) && e in home
    ensures Extent(y) <= e
  {
  }

  /** Linking at the head of the gc list. */
  lemma LinkGc(y: Layout, next: Links, prev: Links, home: Homes, lists: seq<seq<nat>>, e: nat)
    requires Linked(y, next, prev, home, lists) && |lists| == y.n + 1 && e !in home && Extent(y) <= e
    ensures Linked(y, LinkNext(next, y.gc, e), LinkPrev(next, prev, y.gc, e), home[e := y.n],
                   lists[y.n := [e] + lists[y.n]])
  {
    hide Linked, LinkNext, LinkPrev;
    assert lists[y.n] == [] + lists[y.n];
    Link(y, next, prev, home, lists, y.n, [], e, lists[y.n]);
    assert [] + [e] + lists[y.n] == [e] + lists[y.n];
  }

  lemma TallyParked(y: Layout, s: Tab, i: nat, pre: seq<nat>, e: nat, post: seq<nat>, x: Entry)
    requires Linked(y, s.next, s.prev, s.home, s.lists) && Tallied(y, s.rec, s.lists, s.nentries, s.memSize)
    requires Referenced(y, s.rec, s.home) && e in s.home && s.home[e] == i < y.n && |s.lists| == y.n + 1
    requires s.lists[i] == pre + [e] + post
    ensures e in s.rec
    ensures Tallied(y, s.rec[e := x], s.lists[i := pre + post][y.n := [e] + s.lists[y.n]], s.nentries - 1,
                    s.memSize - s.rec[e].memSize)
    ensures s.nentries > 0 && s.memSize > 0
  {
    TallyOut(y, s.rec, s.lists, s.nentries, s.memSize, i, pre, e, post);
    HousedWithout(y, s.home, s.lists, i, pre, e, post);
    assert s.rec[e].memSize > 0;
    hide Linked, Tallied, Housed, Referenced;
    TallyFrame(y, s.rec, s.rec[e := x], s.home - {e}, s.lists[i := pre + post], [e] + s.lists[y.n], s.nentries - 1,
      s.memSize - s.rec[e].memSize);
  }

  lemma ReferencedParked(y: Layout, rec: Records, home: Homes, e: nat, x: Entry)
    requires Referenced(y, rec, home) && e in rec && x.refs == rec[e].refs && x.holders == rec[e].holders
    requires x.memSize == rec[e].memSize
    ensures Referenced(y, rec[e := x], home[e := OnGc(y)])
  {
  }

  lemma TalliedLists(y: Layout, s: Tab)
    requires Tallied(y, s.rec, s.lists, s.nentries, s.memSize)
    ensures |s.lists| == y.n + 1
  {
  }

  lemma KeyedKeys(y: Layout, hash: string -> nat, s: Tab)
    requires Keyed(y, hash, s.rec, s.home, s.at)
    ensures s.rec.Keys == s.home.Keys
  {
  }

  /** A linked entry that is referenced is removed and put on the gc list. */
  lemma Park(y: Layout, hash: string -> nat, s: Tab, pre: seq<nat>, e: nat, post: seq<nat>, now: int)
    requires Consistent(y, hash, s) && e in s.home && s.home[e] < y.n && s.lists[s.home[e]] == pre + [e] + post
    ensures Consistent(y, hash, Parked(y, s, pre, e, post, now))
    ensures s.nentries > 0 && s.memSize > 0
  {
    hide Linked, Keyed, Tallied, Referenced, UnlinkNext, UnlinkPrev, LinkNext, LinkPrev, SizeOf, Housed;
    assert |s.lists| == y.n + 1 && s.rec.Keys == s.home.Keys by { TalliedLists(y, s); KeyedKeys(y, hash, s); }
    ReferencedParked(y, s.rec, s.home, e, s.rec[e].(dtime := now));
    ParkLinks(y, s, s.home[e], pre, e, post);
    KeyedParked(y, hash, s.rec, s.home, s.at, e, s.rec[e].(dtime := now));
    TallyParked(y, s, s.home[e], pre, e, post, s.rec[e].(dtime := now));
  }

  function Swept(y: Layout, s: Tab, pre: seq<nat>, e: nat, post: seq<nat>): Tab
    requires y.n < |s.lists|
  {
    Tab(UnlinkNext(s.next, s.prev, e), UnlinkPrev(s.next, s.prev, e), s.rec - {e}, s.home - {e},
        s.lists[y.n := pre + post], s.at, s.nentries, s.memSize)
  }

  /** An entry is taken off the gc list and freed. */
  lemma Sweep(y: Layout, hash: string -> nat, s: Tab, pre: seq<nat>, e: nat, post: seq<nat>)
    requires Consistent(y, hash, s) && s.lists[y.n] == pre + [e] + post
    ensures Consistent(y, hash, Swept(y, s, pre, e, post)) && e in s.home && s.home[e] == OnGc(y)
  {
    assert |s.lists| == y.n + 1;
    hide Linked, Keyed, Tallied, Referenced, UnlinkNext, UnlinkPrev, SizeOf, Housed;
    Unlink(y, s.next, s.prev, s.home, s.lists, y.n, pre, e, post);
    KeyedUnlisted(y, hash, s.rec, s.home, s.at, e);
    ReferencedWithout(y, s.rec, s.home, e);
    TallyUnlisted(y, s, s.rec - {e}, pre + post);
  }

  lemma TallyUnlisted(y: Layout, s: Tab, rec': Records, l: seq<nat>)
    requires Linked(y, s.next, s.prev, s.home, s.lists) && Tallied(y, s.rec, s.lists, s.nentries, s.memSize)
    requires forall e :: e in s.home && s.home[e] < y.n ==> SizeOf(rec', e) == SizeOf(s.rec, e)
    ensures Tallied(y, rec', s.lists[y.n := l], s.nentries, s.memSize)
    ensures Tallied(y, rec', s.lists, s.nentries, s.memSize)
  {
    TallyFrame(y, s.rec, rec', s.home, s.lists, l, s.nentries, s.memSize);
  }

  lemma ReferencedLaunched(y: Layout, rec: Records, home: Homes, e: nat, x: Entry)
    requires Referenced(y, rec, home) && x.refs == |x.holders| >= 1 && x.memSize > 0
    ensures Referenced(y, rec[e := x], home[e := InFlight(y)])
  {
  }

  function Launched(y: Layout, s: Tab, e: nat, x: Entry): Tab {
    s.(rec := s.rec[e := x], home := s.home[e := InFlight(y)])
  }

  /** A new entry has been allocated. */
  lemma LaunchEntry(y: Layout, hash: string -> nat, s: Tab, e: nat, x: Entry)
    requires Consistent(y, hash, s) && e !in s.home && Extent(y) <= e && x.refs == |x.holders| >= 1 && x.memSize > 0
    ensures Consistent(y, hash, Launched(y, s, e, x))
  {
    assert |s.lists| == y.n + 1 && s.rec.Keys == s.home.Keys;
    hide Linked, Keyed, Tallied, Referenced, SizeOf, Housed;
    Launch(y, s.next, s.prev, s.home, s.lists, e);
    ReferencedLaunched(y, s.rec, s.home, e, x);
    KeyedLaunched(y, hash, s.rec, s.home, s.at, e, x);
    TallyUnlisted(y, s, s.rec[e := x], []);
  }

  function Ditched(s: Tab, e: nat): Tab {
    s.(rec := s.rec - {e}, home := s.home - {e})
  }

  /** An entry that could not be inserted is freed. */
  lemma DitchEntry(y: Layout, hash: string -> nat, s: Tab, e: nat)
    requires Consistent(y, hash, s) && e in s.home && s.home[e] == InFlight(y)
    ensures Consistent(y, hash, Ditched(s, e))
  {
    assert |s.lists| == y.n + 1;
    hide Linked, Keyed, Tallied, Referenced, SizeOf, Housed;
    KeyedUnlisted(y, hash, s.rec, s.home, s.at, e);
    ReferencedWithout(y, s.rec, s.home, e);
    TallyUnlisted(y, s, s.rec - {e}, []);
  }

  function Written(s: Tab, e: nat, x: Entry): Tab {
    s.(rec := s.rec[e := x])
  }

  /** Fields of a record are written that the table does not depend on. */
  lemma Touch(y: Layout, hash: string -> nat, s: Tab, e: nat, x: Entry)
    requires Consistent(y, hash, s) && e in s.home && x.key == s.rec[e].key && x.memSize == s.rec[e].memSize
    requires x.refs == |x.holders| && (s.home[e] == InFlight(y) ==> x.refs >= 1)
    ensures Consistent(y, hash, Written(s, e, x))
  {
    assert Referenced(y, s.rec[e := x], s.home);
    assert |s.lists| == y.n + 1;
    assert forall o :: SizeOf(s.rec[e := x], o) == SizeOf(s.rec, o);
    hide Linked, Keyed, Tallied, Referenced, SizeOf, Housed;
    KeyedTouched(y, hash, s.rec, s.home, s.at, e, x);
    TallyUnlisted(y, s, s.rec[e := x], []);
  }

  function Inserted(y: Layout, s: Tab, i: nat, pre: seq<nat>, e: nat, post: seq<nat>): Tab
    requires i < y.n < |s.lists| && e in s.rec
  {
    var cell := Last(Head(y, i), pre);
    Tab(LinkNext(s.next, cell, e), LinkPrev(s.next, s.prev, cell, e), s.rec, s.home[e := i],
      s.lists[i := pre + [e] + post],
        s.at[s.rec[e].key := e], s.nentries + 1, s.memSize + s.rec[e].memSize)
  }

  lemma IsInserted(y: Layout, s: Tab, s': Tab, i: nat, pre: seq<nat>, e: nat, post: seq<nat>)
    requires i < y.n < |s.lists| && e in s.rec
    requires var cell := Last(Head(y, i), pre);
             s'.next == LinkNext(s.next, cell, e) && s'.prev == LinkPrev(s.next, s.prev, cell, e)
    requires s'.rec == s.rec && s'.home == s.home[e := i] && s'.lists == s.lists[i := pre + [e] + post]
    requires s'.at == s.at[s.rec[e].key := e] && s'.nentries == s.nentries + 1
    requires s'.memSize == s.memSize + s.rec[e].memSize
    ensures s' == Inserted(y, s, i, pre, e, post)
  {
  }

  /** A stored entry enters the chain of its key. */
  lemma Insert(y: Layout, hash: string -> nat, s: Tab, i: nat, pre: seq<nat>, e: nat, post: seq<nat>)
    requires Consistent(y, hash, s) && e in s.home && s.home[e] == InFlight(y) && s.rec[e].key !in s.at
    requires i == Slot(y, hash, s.rec[e].key) && s.lists[i] == pre + post
    ensures Consistent(y, hash, Inserted(y, s, i, pre, e, post))
  {
    assert |s.lists| == y.n + 1;
    assert Extent(y) <= e && SizeOf(s.rec, e) == s.rec[e].memSize;
    assert Referenced(y, s.rec, s.home[e := i]);
    hide Linked, Keyed, Tallied, Referenced, LinkNext, LinkPrev, SizeOf, Housed, Slot, Chained;
    Link(y, s.next, s.prev, s.home, s.lists, i, pre, e, post);
    KeyedInserted(y, hash, s.rec, s.home, s.at, e);
    TallyIn(y, s.rec, s.lists, s.nentries, s.memSize, i, pre, e, post);
  }

  function Shifted(y: Layout, s: Tab, pre: seq<nat>, o: nat, n: nat, post: seq<nat>): Tab
    requires o in s.home && o in s.rec && s.home[o] < |s.lists|
  {
    Tab(MoveNext(s.next, s.prev, o, n), MovePrev(s.next, s.prev, o, n), (s.rec - {o})[n := s.rec[o]],
      (s.home - {o})[n := s.home[o]],
        s.lists[s.home[o] := pre + [n] + post], if s.home[o] < y.n then s.at[s.rec[o].key := n] else s.at,
        s.nentries, s.memSize)
  }

  lemma TallyMoved(y: Layout, s: Tab, pre: seq<nat>, o: nat, n: nat, post: seq<nat>)
    requires Linked(y, s.next, s.prev, s.home, s.lists) && Tallied(y, s.rec, s.lists, s.nentries, s.memSize)
    requires o in s.home && s.home[o] < |s.lists| && o in s.rec && s.lists[s.home[o]] == pre + [o] + post
    requires n !in s.home
    ensures Tallied(y, (s.rec - {o})[n := s.rec[o]], s.lists[s.home[o] := pre + [n] + post], s.nentries, s.memSize)
  {
    var i, rec' := s.home[o], (s.rec - {o})[n := s.rec[o]];
    var lists1 := s.lists[i := pre + post];
    if i < y.n {
      TallyOut(y, s.rec, s.lists, s.nentries, s.memSize, i, pre, o, post);
      HousedWithout(y, s.home, s.lists, i, pre, o, post);
      hide Linked, Housed, Tallied, SizeOf;
      TallyFrame(y, s.rec, rec', s.home - {o}, lists1, [], s.nentries - 1, s.memSize - s.rec[o].memSize);
      TallyIn(y, rec', lists1, s.nentries - 1, s.memSize - s.rec[o].memSize, i, pre, n, post);
      assert lists1[i := pre + [n] + post] == s.lists[i := pre + [n] + post];
    } else {
      TallyUnlisted(y, s, rec', pre + [n] + post);
    }
  }

  /** Defragmentation moves an entry that nobody references from o to n. */
  lemma Shift(y: Layout, hash: string -> nat, s: Tab, pre: seq<nat>, o: nat, n: nat, post: seq<nat>)
    requires Consistent(y, hash, s) && o in s.home && s.home[o] <= y.n && s.lists[s.home[o]] == pre + [o] + post
    requires n !in s.home && Extent(y) <= n
    ensures Consistent(y, hash, Shifted(y, s, pre, o, n, post))
    ensures o in s.next && o in s.prev && s.prev[o] in s.next && (s.next[o] != 0 ==> s.next[o] in s.prev)
  {
    assert |s.lists| == y.n + 1;
    ReferencedMoved(y, s.rec, s.home, o, n);
    hide Linked, Keyed, Tallied, Referenced, MoveNext, MovePrev, SizeOf, Housed;
    Move(y, s.next, s.prev, s.home, s.lists, s.home[o], pre, o, n, post);
    KeyedMoved(y, hash, s.rec, s.home, s.at, o, n);
    TallyMoved(y, s, pre, o, n, post);
  }

  lemma ReferencedMoved(y: Layout, rec: Records, home: Homes, o: nat, n: nat)
    requires Referenced(y, rec, home) && o in home && n !in home
    ensures Referenced(y, (rec - {o})[n := rec[o]], (home - {o})[n := home[o]])
  {
  }

  function Removed(y: Layout, s: Tab, pre: seq<nat>, e: nat, post: seq<nat>, now: int): Tab
    requires e in s.rec && e in s.home && s.home[e] < |s.lists| && y.n < |s.lists|
  {
    if s.rec[e].refs <= 0 then Dropped(s, pre, e, post) else Parked(y, s, pre, e, post, now)
  }

  lemma IsRemoved(y: Layout, s: Tab, s': Tab, pre: seq<nat>, e: nat, post: seq<nat>, now: int)
    requires e in s.rec && e in s.home && s.home[e] < |s.lists| && y.n < |s.lists|
    requires s'.at == s.at - {s.rec[e].key} && s'.nentries == s.nentries - 1
    requires s'.memSize == s.memSize - s.rec[e].memSize
    requires s.rec[e].refs <= 0 ==>
      && s'.next == UnlinkNext(s.next, s.prev, e) && s'.prev == UnlinkPrev(s.next, s.prev, e)
      && s'.rec == s.rec - {e} && s'.home == s.home - {e} && s'.lists == s.lists[s.home[e] := pre + post]
    requires s.rec[e].refs > 0 ==>
      && s'.next == LinkNext(UnlinkNext(s.next, s.prev, e), y.gc, e)
      && s'.prev == LinkPrev(UnlinkNext(s.next, s.prev, e), UnlinkPrev(s.next, s.prev, e), y.gc, e)
      && s'.rec == s.rec[e := s.rec[e].(dtime := now)] && s'.home == s.home[e := OnGc(y)]
      && s'.lists == s.lists[s.home[e] := pre + post][y.n := [e] + s.lists[s.home[e] := pre + post][y.n]]
    requires s.home[e] < y.n
    ensures s' == Removed(y, s, pre, e, post, now)
  {
  }

  lemma IsShifted(y: Layout, s: Tab, s': Tab, pre: seq<nat>, o: nat, n: nat, post: seq<nat>)
    requires o in s.home && o in s.rec && s.home[o] < |s.lists|
    requires s'.next == MoveNext(s.next, s.prev, o, n) && s'.prev == MovePrev(s.next, s.prev, o, n)
    requires s'.rec == (s.rec - {o})[n := s.rec[o]] && s'.home == (s.home - {o})[n := s.home[o]]
    requires s'.lists == s.lists[s.home[o] := pre + [n] + post]
    requires s'.at == if s.home[o] < y.n then s.at[s.rec[o].key := n] else s.at
    requires s'.nentries == s.nentries && s'.memSize == s.memSize
    ensures s' == Shifted(y, s, pre, o, n, post)
  {
  }

  // ---- the empty table

  lemma {:induction false} NothingCounted(rec: Records, lists: seq<seq<nat>>, n: nat)
    requires n <= |lists| && forall i :: 0 <= i < n ==> lists[i] == []
    ensures Count(lists, n) == 0 && Sizes(rec, lists, n) == 0
  {
    if n > 0 {
      NothingCounted(rec, lists, n - 1);
    }
  }

  /** The words of a new cache header, up to slot n: all zero. */
  function Zeroed(y: Layout, n: nat): Links {
    if n == 0 then map[y.gc := 0] else Zeroed(y, n - 1)[y.slots + 8 * (n - 1) := 0]
  }

  lemma {:induction false} ZeroedAt(y: Layout, n: nat, i: nat)
    requires n <= y.n && (i < n || i == y.n)
    ensures Head(y, i) in Zeroed(y, n) && Zeroed(y, n)[Head(y, i)] == 0
  {
    if n == 0 {
    } else if i < n - 1 || i == y.n {
      ZeroedAt(y, n - 1, i);
    }
  }

  function Empty(y: Layout): Tab {
    Tab(Zeroed(y, y.n), map[], map[], map[], seq(y.n + 1, i => []), map[], 0, 0)
  }

  lemma EmptyConsistent(y: Layout, hash: string -> nat)
    requires Sane(y)
    ensures Consistent(y, hash, Empty(y))
  {
    var s := Empty(y);
    forall i | 0 <= i <= y.n ensures Chain(s.next, s.prev, Head(y, i), s.lists[i]) {
      ZeroedAt(y, y.n, i);
      assert s.lists[i] == [];
    }
    NothingCounted(s.rec, s.lists, y.n);
  }
}
