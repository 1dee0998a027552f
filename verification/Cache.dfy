/** The cache of apc_cache.c over one shared segment. */
module Cache {
  import opened Basics
  import opened Blocks
  import opened Chains
  import opened Compaction
  import opened Effects
  import opened Entries
  import opened Imprint
  import opened Owner
  import opened Payload
  import opened SharedMemory
  import opened Table

  /** Every linked entry has the value that was last stored under its key. */
  ghost predicate Recorded(rec: Records, at: map<string, nat>, last: map<string, Value>) {
    forall k :: k in at ==> k in last && at[k] in rec && rec[at[k]].val == last[k]
  }

  lemma RecordedOthers(y: Layout, hash: string -> nat, s: Tab, s': Tab, e: nat, last: map<string, Value>)
    requires Recorded(s.rec, s.at, last) && Others(s, s', e) && Keyed(y, hash, s.rec, s.home, s.at)
    requires if e in s.home && s.home[e] < y.n then s'.at == s.at - {s.rec[e].key} else s'.at == s.at
    ensures Recorded(s'.rec, s'.at, last)
  {
    hide Slot;
    forall k | k in s'.at ensures s'.at[k] != e {
    }
  }

  /** The blocks of the entries that refuse to be moved: those that are referenced. */
  function Refusals(rec: Records, base: nat): set<nat> {
    set e | e in rec && rec[e].refs > 0 :: BlockOf(base, e)
  }

  ghost predicate Refusing(rec: Records, base: nat, stays: set<nat>) {
    forall e :: e in rec && rec[e].refs > 0 ==> BlockOf(base, e) in stays
  }

  lemma RefusalsRefuse(rec: Records, base: nat)
    ensures Refusing(rec, base, Refusals(rec, base))
  {
  }

  lemma RecordedUnlisted(y: Layout, hash: string -> nat, s: Tab, e: nat, last: map<string, Value>)
    requires Recorded(s.rec, s.at, last) && Keyed(y, hash, s.rec, s.home, s.at) && e in s.home && s.home[e] >= y.n
    ensures Recorded(s.rec - {e}, s.at, last)
  {
    hide Slot;
    assert forall k :: k in s.at ==> s.at[k] != e;
  }

  lemma RecordedLess(rec: Records, at: map<string, nat>, last: map<string, Value>, k: string)
    requires Recorded(rec, at, last) && k !in at
    ensures Recorded(rec, at, last - {k})
  {
  }

  lemma NothingRecorded(rec: Records)
    ensures Recorded(rec, map[], map[])
  {
  }

  lemma RecordedLaunched(y: Layout, hash: string -> nat, s: Tab, e: nat, x: Entry, last: map<string, Value>)
    requires Recorded(s.rec, s.at, last) && Keyed(y, hash, s.rec, s.home, s.at) && e !in s.home
    ensures Recorded(s.rec[e := x], s.at, last)
  {
  }

  /** What the allocation of a new entry does. */
  lemma LaunchEffect(y: Layout, hash: string -> nat, gcTtl: int, s: Tab, e: nat, x: Entry, last: map<string, Value>,
                     now: int)
    requires Consistent(y, hash, s) && e !in s.home && Extent(y) <= e && x.refs == |x.holders| >= 1 && x.memSize > 0
    requires Recorded(s.rec, s.at, last)
    ensures var s' := Launched(y, s, e, x);
            && Consistent(y, hash, s') && Held(y, gcTtl, s, s', now) && Unharmed(s, s')
            && Recorded(s.rec[e := x], s.at, last)
            && e in s'.home && s'.home[e] == InFlight(y) && e in s'.rec && s'.rec[e] == x && s'.at == s.at
            && s'.rec == s.rec[e := x] && s'.home == s.home[e := InFlight(y)]
            && s'.lists == s.lists && s'.next == s.next && s'.prev == s.prev && s'.nentries == s.nentries
            && s'.memSize == s.memSize
  {
    hide *;
    ConsistentParts(y, hash, s);
    LaunchEntry(y, hash, s, e, x);
    LaunchHeld(y, gcTtl, s, Launched(y, s, e, x), e, x, now);
    RecordedLaunched(y, hash, s, e, x, last);
    LaunchUnharmed(y, hash, s, e, x);
    LaunchedHas(y, s, e, x);
  }

  lemma RecordedInserted(rec: Records, at: map<string, nat>, last: map<string, Value>, x: Entry, e: nat)
    requires Recorded(rec, at, last) && e in rec && rec[e] == x
    ensures Recorded(rec, at[x.key := e], last[x.key := x.val])
  {
  }

  /** Writing to the record of an entry, where only an update changes the value. */
  lemma RecordedTouched(y: Layout, hash: string -> nat, rec: Records, home: Homes, at: map<string, nat>,
                        last: map<string, Value>, e: nat, x: Entry)
    requires Recorded(rec, at, last) && Keyed(y, hash, rec, home, at) && e in rec && x.key == rec[e].key
    ensures x.val == rec[e].val ==> Recorded(rec[e := x], at, last)
    ensures e in home && home[e] < y.n ==>
      x.key in at && at[x.key] == e && Recorded(rec[e := x], at, last[x.key := x.val])
  {
    hide Slot;
    assert forall k :: k in at && at[k] == e ==> k == x.key;
  }

  lemma RecordedRelocated(s: Tab, s': Tab, last: map<string, Value>)
    requires Recorded(s.rec, s.at, last) && Relocated(s, s')
    ensures Recorded(s'.rec, s'.at, last)
  {
    assert forall k :: k in s'.at ==> k in s.at;
  }

  /** The blocks that a clean-up at time t gives back. */
  ghost function JunkBlocks(y: Layout, ttl: int, gcTtl: int, s: Tab, base: nat, t: int, now: int): set<nat> {
    set e | e in s.home && Junk(y, ttl, gcTtl, s, e, t, now) :: BlockOf(base, e)
  }

  /** The blocks that then refuse to be moved. */
  ghost function PinnedBlocks(y: Layout, ttl: int, gcTtl: int, s: Tab, base: nat, t: int, now: int): set<nat> {
    set e | e in s.rec && s.rec[e].refs > 0 && !Junk(y, ttl, gcTtl, s, e, t, now) :: BlockOf(base, e)
  }

  /** When the blocks at junk are given back, there are r bytes free, and once the others that are not pinned
      have been moved together, one free block has r bytes. */
  ghost predicate Servable(bs: seq<Blk>, junk: set<nat>, pinned: set<nat>, r: nat) {
    var left := Vacated(bs, junk);
    && FreeWith(bs, junk) >= r && AllSound(left) && Separated(left)
    && exists b :: b in Compact(left, pinned) && b.free && b.size >= r
  }

  /** A defragmentation would have helped here, but it is not tried: without it, too little is free. */
  lemma SlackComesTooLate()
    ensures var bs := [Blk(0, 64, false, 64), Free(64, 64), Blk(128, 96, false, 64)];
            && AllSound(bs) && Separated(bs) && !Servable(bs, {}, {}, 96)
            && exists b :: b in Compact(bs, {}) && b.free && b.size >= 96
  {
    var bs := [Blk(0, 64, false, 64), Free(64, 64), Blk(128, 96, false, 64)];
    SlackJoins();
    VacatedFreeSum(bs, {});
    VacatedNone(bs);
    hide Compact, FreeSum, Vacated, FreeWith;
    assert Free(128, 96) in Compact(bs, {});
  }

  lemma ServableIs(y: Layout, hash: string -> nat, ttl: int, gcTtl: int, s: Tab, s': Tab, bs: seq<Blk>, bs': seq<Blk>,
                   base: nat, r: nat, t: int, now: int)
    requires Tidied(y, ttl, gcTtl, s, s', t, now) && Returned(bs, bs', base, s.home.Keys, s'.home.Keys)
    requires s.rec.Keys == s.home.Keys && AllSound(bs') && Separated(bs')
    ensures JunkBlocks(y, ttl, gcTtl, s, base, t, now) == OwnBlocks(base, s.home.Keys - s'.home.Keys)
    ensures PinnedBlocks(y, ttl, gcTtl, s, base, t, now) == Refusals(s'.rec, base)
    ensures FreeSum(bs') == FreeWith(bs, JunkBlocks(y, ttl, gcTtl, s, base, t, now))
    ensures Servable(bs, JunkBlocks(y, ttl, gcTtl, s, base, t, now), PinnedBlocks(y, ttl, gcTtl, s, base, t, now), r)
      <==> FreeSum(bs') >= r && exists b :: b in Compact(bs', Refusals(s'.rec, base)) && b.free && b.size >= r
  {
    hide Junk, Compact, Vacated, FreeWith, FreeSum, AllSound, Separated;
    assert JunkBlocks(y, ttl, gcTtl, s, base, t, now) == OwnBlocks(base, s.home.Keys - s'.home.Keys);
    assert PinnedBlocks(y, ttl, gcTtl, s, base, t, now) == Refusals(s'.rec, base);
    VacatedFreeSum(bs, JunkBlocks(y, ttl, gcTtl, s, base, t, now));
  }

  lemma NoRefusals(y: Layout, ttl: int, gcTtl: int, s: Tab, base: nat, bs: seq<Blk>, t: int, now: int)
    requires NoRefs(s)
    ensures PinnedBlocks(y, ttl, gcTtl, s, base, t, now) == {}
    ensures Movable(bs, PinnedBlocks(y, ttl, gcTtl, s, base, t, now))
  {
    hide Junk;
  }

  lemma Unreferenced(rec: Records, base: nat, stays: set<nat>, e: nat)
    requires Refusing(rec, base, stays) && e in rec && BlockOf(base, e) !in stays
    ensures rec[e].refs <= 0
  {
  }

  lemma StillRefusing(rec: Records, base: nat, stays: set<nat>, o: nat, n: nat)
    requires Refusing(rec, base, stays) && o in rec && rec[o].refs <= 0
    ensures Refusing((rec - {o})[n := rec[o]], base, stays)
  {
  }

  /** The record of an entry that was found at time t by h. */
  function Accessed(x: Entry, t: int, h: nat): Entry {
    x.(nhits := x.nhits + 1, atime := t, refs := x.refs + 1, holders := x.holders + {h})
  }

  lemma AccessHeld(y: Layout, gcTtl: int, s: Tab, s': Tab, e: nat, t: int, h: nat, now: int)
    requires e in s.rec && e in s.home && s'.rec == s.rec[e := Accessed(s.rec[e], t, h)] && s' == s.(rec := s'.rec)
    ensures Held(y, gcTtl, s, s', now)
  {
    hide Held;
    TouchHeld(y, gcTtl, s, e, Accessed(s.rec[e], t, h), now);
  }

  /** The record of an entry that h has released. */
  function Released(x: Entry, h: nat): Entry {
    x.(refs := x.refs - 1, holders := x.holders - {h})
  }

  /** The linked words, the entry records and the counters of the cache header, updated as the C
      functions update them; each locked section is one method. The ghost fields are the lists that
      the words stand for, the entry of each key, and the value each key was last given. */
  class Cache {
    const sma: Sma
    const y: Layout
    const hash: string -> nat
    const base: nat               // where the cache header is in the segment
    const gcTtl: int
    const ttl: int
    const smart: int
    var next: Links
    var prev: Links
    var rec: Records
    var nentries: int
    var memSize: int
    var ninserts: int
    var nhits: int
    var nmisses: int
    var ncleanups: int
    var ndefragmentations: int
    var nexpunges: int
    ghost var home: Homes
    ghost var lists: seq<seq<nat>>
    ghost var at: map<string, nat>
    ghost var last: map<string, Value>

    ghost function State(): Tab
      reads this
    {
      Tab(next, prev, rec, home, lists, at, nentries, memSize)
    }

    ghost predicate Valid()
      reads this, sma
    {
      && sma.Valid() && gcTtl >= 0
      && Consistent(y, hash, State())
      && Owned(sma.bs, base, Extent(y), home.Keys)
      && Recorded(rec, at, last)
      && Imprinted(sma.bs, sma.mem, rec, base)
    }

    /** apc_cache_create, in a segment that nothing has been allocated from. */
    constructor (s: Sma, y: Layout, hash: string -> nat, gcTtl: int, ttl: int, smart: int)
      requires s.Valid() && s.first + BLOCK <= s.hi && s.bs == [Free(s.first + BLOCK, s.hi - (s.first + BLOCK))]
      requires Sane(y) && gcTtl >= 0 && RealSize(Extent(y)) <= s.hi - (s.first + BLOCK)
      modifies s`hdr, s`avail, s`bs, s`fl
      ensures Valid() && sma == s && this.y == y && this.hash == hash
      ensures home == map[] && at == map[] && last == map[] && nentries == 0 && memSize == 0
      ensures forall size: nat :: Room(size) <==>
        RealSize(Extent(y)) + RealSize(size) <= s.hi - (s.first + BLOCK) &&
        RealSize(Extent(y)) + s.minBlock <= s.hi - (s.first + BLOCK)
    {
      sma, this.y, this.hash, this.gcTtl, this.ttl, this.smart := s, y, hash, gcTtl, ttl, smart;
      base := s.first + BLOCK + BLOCK;
      next, prev, rec := Zeroed(y, y.n), map[], map[];
      nentries, memSize, ninserts, nhits, nmisses, ncleanups, ndefragmentations, nexpunges := 0, 0, 0, 0, 0, 0, 0, 0;
      home, lists, at, last := map[], seq(y.n + 1, i => []), map[], map[];
      new;
      EmptyConsistent(y, hash);
      ghost var b := s.bs[0];
      hide Consistent, Owned, Imprinted;
      var off;
      ghost var taken;
      off, taken := s.Allocate(Extent(y));
      assert State() == Empty(y);
      assert home.Keys == {};
      forall size: nat ensures Room(size) <==>
        RealSize(Extent(y)) + RealSize(size) <= s.hi - (s.first + BLOCK) &&
        RealSize(Extent(y)) + s.minBlock <= s.hi - (s.first + BLOCK) {
        RoomWhenEmpty(size);
      }
    }

    /** free_entry, which gives the block of entry e back. */
    method FreeEntry(e: nat, ghost es: set<nat>)
      requires sma.Valid() && Owned(sma.bs, base, Extent(y), es) && e in es && Imprinted(sma.bs, sma.mem, rec, base)
      modifies sma`hdr, sma`avail, sma`bs, sma`fl
      ensures sma.Valid() && Owned(sma.bs, base, Extent(y), es - {e}) && Imprinted(sma.bs, sma.mem, rec, base)
      ensures Returned(old(sma.bs), sma.bs, base, es, es - {e})
    {
      ghost var b := BlockOfEntry(sma.bs, base, Extent(y), es, e);
      ghost var bs := sma.bs;
      sma.Tiling();
      ReturnedOne(bs, base, es, e);
      hide Owned, Imprinted, Returned, Vacated;
      var size := sma.Deallocate(base + e, b);
      FreeOwned(bs, b, sma.first + BLOCK, sma.hi, base, Extent(y), es, e);
      ImprintedDropped(bs, sma.bs, sma.mem, rec, base);
    }

    lemma NothingReturned()
      requires sma.Valid()
      ensures Returned(sma.bs, sma.bs, base, home.Keys, home.Keys)
    {
      sma.Tiling();
      ReturnedNone(sma.bs, base, home.Keys);
    }

    /** apc_cache_wlocked_unlink_entry: e leaves list i, and all other lists stay as they are. */
    method UnlinkEntry(e: nat, ghost i: nat, ghost pre: seq<nat>, ghost post: seq<nat>)
      requires Linked(y, next, prev, home, lists) && i <= y.n && i < |lists| && lists[i] == pre + [e] + post
      requires e in next && e in prev && prev[e] != e
      modifies this`next, this`prev
      ensures Linked(y, next, prev, home - {e}, lists[i := pre + post])
      ensures next == UnlinkNext(old(next), old(prev), e) && prev == UnlinkPrev(old(next), old(prev), e)
    {
      hide Linked;
      Unlink(y, next, prev, home, lists, i, pre, e, post);
      next := next[prev[e] := next[e]];
      if next[e] != 0 {
        prev := prev[next[e] := prev[e]];
      }
    }

    /** apc_cache_wlocked_link_entry, at a head word or behind an entry: e enters list i behind the entries
        pre, and all other lists stay as they are. listed tells where the listed entries are. */
    method LinkEntry(cell: nat, e: nat, ghost listed: Homes, ghost i: nat, ghost pre: seq<nat>, ghost post: seq<nat>)
      requires Linked(y, next, prev, listed, lists) && i <= y.n && i < |lists| && lists[i] == pre + post
      requires cell == Last(Head(y, i), pre)
      requires Extent(y) <= e && (e in listed ==> listed[e] == InFlight(y)) && cell in next && cell != e
      modifies this`next, this`prev
      ensures Linked(y, next, prev, listed[e := i], lists[i := pre + [e] + post])
      ensures next == LinkNext(old(next), cell, e) && prev == LinkPrev(old(next), old(prev), cell, e)
    {
      hide Linked, Head, Last;
      Link(y, next, prev, listed, lists, i, pre, e, post);
      next := next[e := next[cell]];
      prev := prev[e := cell];
      next := next[cell := e];
      if next[e] != 0 {
        prev := prev[next[e] := next[cell]];
      }
    }

    /** The first half of apc_cache_wlocked_remove_entry. */
    method Detach(e: nat, ghost i: nat, ghost pre: seq<nat>, ghost post: seq<nat>)
      requires Linked(y, next, prev, home, lists) && i <= y.n && i < |lists| && lists[i] == pre + [e] + post
      requires e in next && e in prev && prev[e] != e && e in rec && nentries > 0 && memSize > 0
      modifies this`next, this`prev, this`nentries, this`memSize
      ensures Linked(y, next, prev, home - {e}, lists[i := pre + post])
      ensures next == UnlinkNext(old(next), old(prev), e) && prev == UnlinkPrev(old(next), old(prev), e)
      ensures nentries == old(nentries) - 1 && memSize == old(memSize) - rec[e].memSize
    {
      hide Linked, UnlinkNext, UnlinkPrev;
      UnlinkEntry(e, i, pre, post);
      if memSize != 0 {
        memSize := memSize - rec[e].memSize;
      }
      if nentries != 0 {
        nentries := nentries - 1;
      }
    }

    /** The second half: the entry is freed, or parked on the gc list. */
    method FreeOrPark(e: nat, now: int)
      requires sma.Valid() && Owned(sma.bs, base, Extent(y), home.Keys) && e in rec && e in home && y.gc in next
      requires y.gc != e
      requires |lists| == y.n + 1 && Imprinted(sma.bs, sma.mem, rec, base)
      requires Linked(y, next, prev, home - {e}, lists) && Extent(y) <= e
      modifies this`next, this`prev, this`rec, this`home, this`lists, sma`hdr, sma`avail, sma`bs, sma`fl
      ensures sma.Valid() && Owned(sma.bs, base, Extent(y), home.Keys) && Imprinted(sma.bs, sma.mem, rec, base)
      ensures Returned(old(sma.bs), sma.bs, base, old(home.Keys), home.Keys)
      ensures old(rec[e].refs) <= 0 ==>
        next == old(next) && prev == old(prev) && rec == old(rec) - {e} && home == old(home) - {e} && lists ==
          old(lists)
      ensures old(rec[e].refs) > 0 ==>
        && next == LinkNext(old(next), y.gc, e) && prev == LinkPrev(old(next), old(prev), y.gc, e)
        && rec == old(rec)[e := old(rec)[e].(dtime := now)] && home == old(home)[e := OnGc(y)]
        && lists == old(lists)[y.n := [e] + old(lists)[y.n]]
    {
      hide *;
      if rec[e].refs <= 0 {
        FreeEntry(e, home.Keys);
        ImprintedWithout(sma.bs, sma.mem, rec, base, e);
        rec, home := rec - {e}, home - {e};
        assert home.Keys == old(home).Keys - {e};
      } else {
        NothingReturned();
        ImprintedRewritten(sma.bs, sma.mem, rec, base, e, rec[e].(dtime := now));
        rec := rec[e := rec[e].(dtime := now)];
        assert lists[y.n] == [] + lists[y.n] && [] + [e] + lists[y.n] == [e] + lists[y.n] && y.gc ==
          Last(Head(y, y.n), []) by { GcHead(y); }
        LinkEntry(y.gc, e, home - {e}, y.n, [], lists[y.n]);
        home, lists := home[e := OnGc(y)], lists[y.n := [e] + lists[y.n]];
        assert home.Keys == old(home).Keys;
      }
    }

    /** apc_cache_wlocked_remove_entry */
    method RemoveEntry(e: nat, now: int, ghost pre: seq<nat>, ghost post: seq<nat>)
      requires Valid() && e in home && home[e] < |lists| && home[e] < y.n && lists[home[e]] == pre + [e] + post
      modifies this`next, this`prev, this`rec, this`nentries, this`memSize, this`home, this`lists, this`at
      modifies sma`hdr, sma`avail, sma`bs, sma`fl
      ensures Valid() && e in old(rec) && |lists| == y.n + 1
      ensures Others(old(State()), State(), e) && at == old(at) - {old(rec)[e].key}
      ensures Upheld(y, old(State()), State(), now) && Remains(old(State()), State())
      ensures lists[old(home)[e]] == pre + post && OtherLists(y, old(State()), State(), old(home)[e])
      ensures |old(lists)| == y.n + 1 && Gone(y, old(State()), State(), e, now)
      ensures Returned(old(sma.bs), sma.bs, base, old(home.Keys), home.Keys)
    {
      hide Linked, Sma.Valid, Consistent, Others, OtherLists, Remains, Gone, Upheld, Recorded, Keyed, Referenced,
        Owned, Imprinted, UnlinkNext, UnlinkPrev, LinkNext, LinkPrev, Removed, OnGc, Returned;
      ghost var s := State();
      RemoveReady(e, now, pre, post);
      Detach(e, home[e], pre, post);
      lists, at := lists[home[e] := pre + post], at - {rec[e].key};
      FreeOrPark(e, now);
      IsRemoved(y, s, State(), pre, e, post, now);
    }

    lemma RemoveReady(e: nat, now: int, pre: seq<nat>, post: seq<nat>)
      requires Valid() && e in home && home[e] < |lists| && home[e] < y.n && lists[home[e]] == pre + [e] + post
      ensures e in next && e in prev && prev[e] != e && e in rec && e != y.gc && nentries > 0 && memSize > 0
      ensures |lists| == y.n + 1 && y.gc in UnlinkNext(next, prev, e) && sma.Valid() && gcTtl >= 0
      ensures Owned(sma.bs, base, Extent(y), home.Keys) && Linked(y, next, prev, home, lists) && Extent(y) <= e
      ensures var s := State(); var s' := Removed(y, s, pre, e, post, now);
              && Consistent(y, hash, s') && Others(s, s', e) && s'.at == at - {rec[e].key} && Upheld(y, s, s', now)
              && s'.lists[home[e]] == pre + post && Recorded(s'.rec, s'.at, last) && |s'.lists| == y.n + 1
              && Remains(s, s') && OtherLists(y, s, s', home[e]) && Gone(y, s, s', e, now)
    {
      var s := State();
      assert Consistent(y, hash, s) && Recorded(rec, at, last);
      hide Consistent, Valid, Owned, Imprinted, Recorded, Removed, Others, OtherLists, Remains, Gone, Upheld,
        UnlinkNext, Keyed, Referenced;
      ConsistentParts(y, hash, s);
      LinkedPart(y, hash, s, e);
      UnlinkReady(y, hash, s, home[e], pre, e, post);
      RemoveEffect(y, hash, s, pre, e, post, now);
      RemovedGone(y, s, pre, e, post, now);
      RecordedOthers(y, hash, s, Removed(y, s, pre, e, post, now), e, last);
      ConsistentParts(y, hash, Removed(y, s, pre, e, post, now));
    }

    /** One round of the gc: the entry is taken off the list and freed. */
    method SweepEntry(e: nat, now: int, ghost pre: seq<nat>, ghost post: seq<nat>)
      requires Valid() && |lists| == y.n + 1 && lists[y.n] == pre + [e] + post && e in rec && !Stays(gcTtl, rec[e], now)
      modifies this`next, this`prev, this`rec, this`home, this`lists, sma`hdr, sma`avail, sma`bs, sma`fl
      ensures Valid() && rec.Keys == home.Keys && Others(old(State()), State(), e) && e !in rec
      ensures Held(y, gcTtl, old(State()), State(), now)
      ensures lists == old(lists)[y.n := pre + post]
      ensures Returned(old(sma.bs), sma.bs, base, old(home.Keys), home.Keys)
    {
      hide Linked, Sma.Valid, Consistent, Others, OtherLists, Remains, Gone, Held, Recorded, Keyed, Referenced, Owned,
        Imprinted, UnlinkNext, UnlinkPrev, Stays, Returned;
      ghost var s := State();
      SweepReady(e, now, pre, post);
      UnlinkEntry(e, y.n, pre, post);
      FreeEntry(e, home.Keys);
      ImprintedWithout(sma.bs, sma.mem, rec, base, e);
      rec, home, lists := rec - {e}, home - {e}, lists[y.n := pre + post];
      assert home.Keys == s.home.Keys - {e};
    }

    lemma SweepReady(e: nat, now: int, pre: seq<nat>, post: seq<nat>)
      requires Valid() && |lists| == y.n + 1 && lists[y.n] == pre + [e] + post && e in rec && !Stays(gcTtl, rec[e], now)
      ensures e in next && e in prev && prev[e] != e && e in home && sma.Valid() && gcTtl >= 0
      ensures Owned(sma.bs, base, Extent(y), home.Keys) && Linked(y, next, prev, home, lists)
      ensures var s := State(); var s' := Swept(y, s, pre, e, post);
              && Consistent(y, hash, s') && Others(s, s', e) && Held(y, gcTtl, s, s', now)
              && s'.rec.Keys == s'.home.Keys
              && Recorded(s'.rec, s'.at, last)
    {
      var s := State();
      assert Consistent(y, hash, s) && Recorded(rec, at, last);
      hide Consistent, Valid, Owned, Imprinted, Recorded, Others, Held, Keyed, Referenced, Stays;
      ConsistentParts(y, hash, s);
      UnlinkReady(y, hash, s, y.n, pre, e, post);
      LinkedPart(y, hash, s, e);
      SweepEffect(y, hash, gcTtl, s, pre, e, post, now);
      var s' := Swept(y, s, pre, e, post);
      RecordedOthers(y, hash, s, s', e, last);
      ConsistentParts(y, hash, s');
    }

    /** What a loop sees that has passed pre in list i and has rest before it. */
    lemma AtCursor(i: nat, pre: seq<nat>, rest: seq<nat>)
      requires Valid() && i <= y.n && i < |lists| && lists[i] == pre + rest
      ensures var cell := Last(Head(y, i), pre);
              && cell in next && (next[cell] == 0 <==> rest == [])
              && (rest != [] ==> next[cell] == rest[0] && rest[0] in home && rest[0] in rec && home[rest[0]] == i
                                 && lists[i] == pre + [rest[0]] + rest[1..] && Last(Head(y, i), pre + [rest[0]]) ==
                                   rest[0])
    {
      AtCell(y, next, prev, home, lists, i, pre, rest);
      ConsistentParts(y, hash, State());
      hide Consistent, Owned, Imprinted, Recorded;
    }

    lemma Basics()
      requires Valid()
      ensures |lists| == y.n + 1 && Sane(y) && rec.Keys == home.Keys && sma.Valid() && gcTtl >= 0
      ensures Keyed(y, hash, rec, home, at) && Referenced(y, rec, home)
    {
      ConsistentParts(y, hash, State());
    }

    /** apc_cache_wlocked_gc: exactly the entries stay on the gc list that are still referenced and
        have not been there for more than gc_ttl seconds. */
    method Gc(now: int)
      requires Valid()
      modifies this`next, this`prev, this`rec, this`home, this`lists, sma`hdr, sma`avail, sma`bs, sma`fl
      ensures Valid() && |old(lists)| == y.n + 1
      ensures lists == old(lists)[y.n := Staying(gcTtl, old(rec), old(lists)[y.n], now)]
      ensures forall e :: e in lists[y.n] <==> e in old(lists)[y.n] && e in old(rec) && old(rec)[e].refs > 0
                                               && (gcTtl == 0 || now - old(rec)[e].dtime <= gcTtl)
      ensures GcOnly(y, old(State()), State()) && GcUpheld(y, gcTtl, old(State()), State(), now)
      ensures Returned(old(sma.bs), sma.bs, base, old(home.Keys), home.Keys)
    {
      hide Sma.Valid, Consistent, Held, Recorded, Keyed, Referenced, Owned, Imprinted, Stays, GcOnly, GcUpheld,
        Collecting, Others, Staying, Returned;
      ghost var s0, bs0 := State(), sma.bs;
      Basics();
      NothingReturned();
      CollectStart(y, gcTtl, s0, now);
      ghost var done, pre, rest := [], [], lists[y.n];
      var cell := y.gc;
      AtCursor(y.n, pre, rest) by { assert lists[y.n] == pre + rest; }
      while next[cell] != 0
        invariant Valid() && Collecting(y, gcTtl, s0, State(), done, pre, rest, now)
        invariant |lists| == y.n + 1 && lists[y.n] == pre + rest && cell == Last(Head(y, y.n), pre)
        invariant Returned(bs0, sma.bs, base, s0.home.Keys, home.Keys)
        invariant cell in next && (next[cell] == 0 <==> rest == [])
        invariant rest != [] ==> next[cell] == rest[0] && rest[0] in home && rest[0] in rec && home[rest[0]] == y.n
        decreases |rest|
      {
        var entry := next[cell];
        var gcSec := if gcTtl != 0 then now - rec[entry].dtime else 0;
        AtCursor(y.n, pre, rest);
        ghost var s, bs := State(), sma.bs;
        if rec[entry].refs > 0 && gcSec <= gcTtl {
          StaysIs(rec[entry], gcSec, now);
          CollectKeep(y, gcTtl, s0, s, done, pre, rest, now);
          cell := entry;
          done, pre, rest := done + [rest[0]], pre + [rest[0]], rest[1..];
        } else {
          StaysIs(rec[entry], gcSec, now);
          Basics();
          SweepEntry(entry, now, pre, rest[1..]);
          CollectSweep(y, gcTtl, s0, s, State(), done, pre, rest, now);
          ReturnedTrans(bs0, bs, sma.bs, base, s0.home.Keys, s.home.Keys, home.Keys);
          done, rest := done + [rest[0]], rest[1..];
        }
        AtCursor(y.n, pre, rest);
      }
      CollectDone(y, gcTtl, s0, State(), done, pre, now);
      GcReferences(y, hash, gcTtl, s0, State(), now);
      forall e { StayingIff(gcTtl, s0.rec, s0.lists[y.n], e, now); }
    }

    lemma StaysIs(x: Entry, gcSec: int, now: int)
      requires gcSec == if gcTtl != 0 then now - x.dtime else 0
      ensures Stays(gcTtl, x, now) <==> x.refs > 0 && gcSec <= gcTtl
    {
    }

    /** The inner loop of apc_cache_wlocked_real_expunge: slot i is emptied. */
    method EmptySlot(i: nat, now: int)
      requires Valid() && i < y.n
      modifies this`next, this`prev, this`rec, this`nentries, this`memSize, this`home, this`lists, this`at
      modifies sma`hdr, sma`avail, sma`bs, sma`fl
      ensures Valid() && OtherLists(y, old(State()), State(), i) && lists[i] == []
      ensures Upheld(y, old(State()), State(), now) && Remains(old(State()), State())
    {
      hide Sma.Valid, Consistent, Others, OtherLists, Remains, Gone, Upheld, Recorded, Keyed, Referenced, Owned,
        Imprinted;
      ghost var s0 := State();
      Basics();
      UpheldRefl(y, s0, now);
      RemainsRefl(s0);
      assert OtherLists(y, s0, s0, i) by { OtherListsRefl(y, s0, i); }
      assert [] + lists[i] == lists[i];
      AtCursor(i, [], lists[i]);
      var cell := Head(y, i);
      while next[cell] != 0
        invariant Valid() && |lists| == y.n + 1 && OtherLists(y, s0, State(), i)
        invariant Upheld(y, s0, State(), now) && Remains(s0, State())
        invariant cell in next && (next[cell] == 0 <==> lists[i] == [])
        invariant lists[i] != [] ==> next[cell] == lists[i][0] && lists[i][0] in home && home[lists[i][0]] == i
        decreases |lists[i]|
      {
        ghost var s, rest := State(), lists[i][1..];
        Basics();
        assert lists[i] == [] + [lists[i][0]] + rest;
        RemoveEntry(next[cell], now, [], rest);
        assert [] + rest == rest && [] + lists[i] == lists[i];
        UpheldTrans(y, s0, s, State(), now);
        RemainsTrans(s0, s, State());
        OtherListsTrans(y, s0, s, State(), i);
        AtCursor(i, [], lists[i]);
      }
    }

    /** Its outer loop: every slot is emptied. */
    method EmptySlots(now: int)
      requires Valid()
      modifies this`next, this`prev, this`rec, this`nentries, this`memSize, this`home, this`lists, this`at
      modifies sma`hdr, sma`avail, sma`bs, sma`fl
      ensures Valid() && |lists| == y.n + 1 && forall i :: 0 <= i < y.n ==> lists[i] == []
      ensures Upheld(y, old(State()), State(), now) && Remains(old(State()), State())
    {
      hide Sma.Valid, Consistent, Others, OtherLists, Remains, Gone, Upheld, Recorded, Keyed, Referenced, Owned,
        Imprinted;
      ghost var s0 := State();
      Basics();
      UpheldRefl(y, s0, now);
      RemainsRefl(s0);
      for i := 0 to y.n
        invariant Valid() && |lists| == y.n + 1 && forall j :: 0 <= j < i ==> lists[j] == []
        invariant Upheld(y, s0, State(), now) && Remains(s0, State())
      {
        ghost var s := State();
        Basics();
        EmptySlot(i, now);
        UpheldTrans(y, s0, s, State(), now);
        RemainsTrans(s0, s, State());
        OtherListsSame(y, s, State(), i);
      }
    }

    /** apc_cache_wlocked_real_expunge: every slot is empty, and what is left is referenced or was
        on the gc list before. */
    method RealExpunge(now: int)
      requires Valid()
      modifies this`next, this`prev, this`rec, this`nentries, this`memSize, this`home, this`lists, this`at
      modifies this`nexpunges, this`ninserts, this`nhits, this`nmisses, sma`hdr, sma`avail, sma`bs, sma`fl
      ensures Valid() && |lists| == y.n + 1 && forall i :: 0 <= i < y.n ==> lists[i] == []
      ensures at == map[] && nentries == 0 && memSize == 0 && nexpunges == old(nexpunges) + 1
      ensures ninserts == 0 && nhits == 0 && nmisses == 0
      ensures Upheld(y, old(State()), State(), now) && Remains(old(State()), State())
    {
      hide Sma.Valid, Consistent, Others, OtherLists, Remains, Gone, Upheld, Recorded, Keyed, Referenced, Owned,
        Imprinted;
      ghost var s0 := State();
      nexpunges := nexpunges + 1;
      assert State() == s0;
      EmptySlots(now);
      ghost var s := State();
      AllEmpty(y, hash, s);
      ninserts, nentries, nhits, nmisses := 0, 0, 0, 0;
      assert State() == s;
    }

    /** The clean-up of one slot in apc_cache_default_expunge: what is left is not expired. */
    method PurgeSlot(i: nat, t: int, now: int)
      requires Valid() && i < y.n
      modifies this`next, this`prev, this`rec, this`nentries, this`memSize, this`home, this`lists, this`at
      modifies sma`hdr, sma`avail, sma`bs, sma`fl
      ensures Valid() && i < |lists| && Alive(ttl, State(), lists[i], t)
      ensures Cleaning(y, ttl, {}, old(State()), State(), t, now) && Remains(old(State()), State())
      ensures Returned(old(sma.bs), sma.bs, base, old(home.Keys), home.Keys)
    {
      hide Sma.Valid, Consistent, Others, OtherLists, Remains, Gone, Upheld, Recorded, Keyed, Referenced, Owned,
        Imprinted, Cleaning, Alive, Expired, Returned;
      ghost var s0, bs0 := State(), sma.bs;
      Basics();
      NothingReturned();
      RemainsRefl(s0);
      CleaningStart(y, hash, ttl, {}, s0, t, now);
      ghost var pre, rest := [], lists[i];
      assert pre + rest == lists[i];
      AtCursor(i, pre, rest);
      assert Alive(ttl, s0, pre, t) by { NothingAlive(ttl, s0, t); }
      var cell := Head(y, i);
      while next[cell] != 0
        invariant Valid() && i < |lists| && lists[i] == pre + rest && cell == Last(Head(y, i), pre)
        invariant Cleaning(y, ttl, {}, s0, State(), t, now) && Alive(ttl, State(), pre, t)
        invariant Remains(s0, State()) && Returned(bs0, sma.bs, base, s0.home.Keys, home.Keys)
        invariant cell in next && (next[cell] == 0 <==> rest == [])
        invariant rest != [] ==> next[cell] == rest[0] && rest[0] in home && rest[0] in rec && home[rest[0]] == i
        decreases |rest|
      {
        var entry := next[cell];
        AtCursor(i, pre, rest);
        ghost var s, bs := State(), sma.bs;
        if Expired(ttl, rec[entry], t) {
          Basics();
          NotBefore(y, hash, s, i, pre, entry, rest[1..]);
          RemoveEntry(entry, now, pre, rest[1..]);
          CleaningStep(y, hash, ttl, {}, s0, s, State(), entry, t, now);
          AliveOthers(ttl, s, State(), pre, entry, t);
          Basics();
          RemainsTrans(s0, s, State());
          ReturnedTrans(bs0, bs, sma.bs, base, s0.home.Keys, s.home.Keys, home.Keys);
        } else {
          cell := entry;
          AliveSnoc(ttl, s, pre, entry, t);
          pre := pre + [entry];
        }
        rest := rest[1..];
        AtCursor(i, pre, rest);
      }
      assert lists[i] == pre;
    }

    // ---- defragmentation

    /** apc_cache_wlocked_move_entry for an entry that may be moved, and the memmove that follows. */
    method MoveEntry(o: nat, n: nat, now: int)
      requires Consistent(y, hash, State()) && gcTtl >= 0
      requires o in home && o in rec && rec[o].refs <= 0 && n !in home && Extent(y) <= n
      modifies this`next, this`prev, this`rec, this`home, this`lists, this`at
      ensures Consistent(y, hash, State()) && Relocated(old(State()), State()) && Upheld(y, old(State()), State(), now)
      ensures rec == (old(rec) - {o})[n := old(rec)[o]] && home == (old(home) - {o})[n := old(home)[o]]
    {
      hide Consistent, Keyed, Referenced, Upheld, Relocated, MoveNext, MovePrev, Shifted;
      ghost var s := State();
      ghost var pre, post := MoveReady(o);
      ShiftEffect(y, hash, s, pre, o, n, post, now);
      Entries.Shift(y, hash, s, pre, o, n, post);
      UnlinkReady(y, hash, s, home[o], pre, o, post);
      Repoint(o, n);
      rec := (rec - {o})[n := rec[o]];
      lists, at := lists[home[o] := pre + [n] + post], if home[o] < y.n then at[s.rec[o].key := n] else at;
      home := (home - {o})[n := home[o]];
      IsShifted(y, s, State(), pre, o, n, post);
    }

    method Repoint(o: nat, n: nat)
      requires o in next && o in prev && prev[o] in next && (next[o] != 0 ==> next[o] in prev) && prev[o] != o
      modifies this`next, this`prev
      ensures next == MoveNext(old(next), old(prev), o, n) && prev == MovePrev(old(next), old(prev), o, n)
    {
      next := next[prev[o] := n];
      if next[o] != 0 {
        prev := prev[next[o] := n];
      }
      next := next[n := next[o]];
      prev := prev[n := prev[o]];
    }

    lemma MoveReady(o: nat) returns (pre: seq<nat>, post: seq<nat>)
      requires Consistent(y, hash, State()) && o in home && o in rec && rec[o].refs <= 0
      ensures home[o] <= y.n && home[o] < |lists| && |lists| == y.n + 1 && lists[home[o]] == pre + [o] + post
    {
      assert home[o] <= y.n;
      pre, post := Place(y, home, lists, o);
    }

    /** The calls of the callback that apc_sma_defrag makes, one after the other. The words they
        write and the block headers are different memory, so they can be replayed afterwards. */
    method Replay(moves: seq<(nat, nat)>, now: int, ghost bs0: seq<Blk>, ghost stays: set<nat>, ghost lo: nat,
                  ghost hi: nat)
      requires Consistent(y, hash, State()) && gcTtl >= 0 && Refusing(rec, base, stays)
      requires AllSound(bs0) && Separated(bs0) && Tiles(bs0, lo, hi) && moves == Moves(bs0, stays)
      requires Owned(bs0, base, Extent(y), home.Keys)
      modifies this`next, this`prev, this`rec, this`home, this`lists, this`at
      ensures Consistent(y, hash, State()) && Relocated(old(State()), State()) && Upheld(y, old(State()), State(), now)
      ensures Owned(Compact(bs0, stays), base, Extent(y), home.Keys)
      ensures Idle(y, old(State())) ==> Idle(y, State())
      ensures Holdings(Compact(bs0, stays), rec, home, base) == Holdings(bs0, old(rec), old(home), base)
    {
      hide LiveMoved, Holdings, UsedOffs, Consistent, Keyed, Referenced, Upheld, Relocated, Owned, Imprinted,
        Replaying, Tiles, AllSound, Separated, Compact, Moves, Refusing, Extent, Idle;
      ghost var s0, target := State(), Compact(bs0, stays);
      OwnedFirst(bs0, base, Extent(y), home.Keys);
      ReplayStart(bs0, stays, lo, hi);
      ghost var pre, tail := bs0[..1], bs0[1..];
      ghost var mid: nat := lo + bs0[0].size;
      RelocatedRefl(y, hash, s0);
      UpheldRefl(y, s0, now);
      for i := 0 to |moves|
        invariant Consistent(y, hash, State()) && Refusing(rec, base, stays) && pre != []
        invariant Relocated(s0, State()) && Upheld(y, s0, State(), now)
        invariant Replaying(target, stays, pre, tail, moves[i..], lo, mid, hi)
        invariant Owned(pre + tail, base, Extent(y), home.Keys)
        invariant Idle(y, s0) ==> Idle(y, State())
        invariant Holdings(pre + tail, rec, home, base) == Holdings(bs0, s0.rec, s0.home, base)
      {
        ghost var s, bs := State(), pre + tail;
        ConsistentParts(y, hash, s);
        pre, tail, mid := ReplayOwned(target, stays, pre, tail, moves[i..], lo, mid, hi, base, Extent(y), home.Keys);
        assert moves[i..][0] == moves[i] && moves[i..][1..] == moves[i + 1..];
        var (from, to) := moves[i];
        Unreferenced(rec, base, stays, from + BLOCK - base);
        StillRefusing(rec, base, stays, from + BLOCK - base, to + BLOCK - base);
        MoveEntry(from + BLOCK - base, to + BLOCK - base, now);
        HoldingsMoved(bs, pre + tail, s.rec, s.home, base, from, to);
        assert home.Keys == s.home.Keys - {from + BLOCK - base} + {to + BLOCK - base};
        RelocatedTrans(s0, s, State());
        UpheldTrans(y, s0, s, State(), now);
        if Idle(y, s) { ShiftIdle(y, s, State(), from + BLOCK - base, to + BLOCK - base); }
      }
      ReplayEnd(target, stays, pre, tail, lo, mid, hi);
    }

    /** Defragmentation with the cache's callback: every list and every key keeps its records, and what
        is held stays where it is. The entries in the blocks, in order, are the same, and so are the
        bytes of the blocks: entries and bytes move together. */
    method Defragment(now: int)
      requires Valid()
      modifies this`next, this`prev, this`rec, this`home, this`lists, this`at
      modifies sma`hdr, sma`avail, sma`mem, sma`bs, sma`fl
      ensures Valid() && Relocated(old(State()), State()) && Upheld(y, old(State()), State(), now)
      ensures AllSound(old(sma.bs)) && Separated(old(sma.bs))
      ensures sma.bs == Compact(old(sma.bs), Refusals(old(rec), base))
      ensures Payloads(sma.mem, sma.bs) == old(Payloads(sma.mem, sma.bs))
      ensures Holdings(sma.bs, rec, home, base) == old(Holdings(sma.bs, rec, home, base))
      ensures Idle(y, old(State())) ==> Idle(y, State())
    {
      hide Sma.Valid, Consistent, Upheld, Relocated, Idle, Recorded, Owned, Imprinted, Tiles, AllSound, Separated,
        Compact, Moves, Extent, Payloads, Holdings,
        Keyed, Referenced;
      ghost var s0, bs0, mem0 := State(), sma.bs, sma.mem;
      sma.Tiling();
      Basics();
      var stays := Refusals(rec, base);
      var moves := sma.Defrag(stays);
      RefusalsRefuse(rec, base);
      Replay(moves, now, bs0, stays, sma.first + BLOCK, sma.hi);
      RecordedRelocated(s0, State(), last);
      ConsistentParts(y, hash, State());
      StillImprinted(bs0, mem0, s0.rec, s0.home, sma.bs, sma.mem, rec, home, base);
    }

    /** The loop over all slots in apc_cache_default_expunge. */
    method PurgeSlots(t: int, now: int)
      requires Valid()
      modifies this`next, this`prev, this`rec, this`nentries, this`memSize, this`home, this`lists, this`at
      modifies sma`hdr, sma`avail, sma`bs, sma`fl
      ensures Valid() && Upheld(y, old(State()), State(), now) && Survived(ttl, old(State()), State(), t)
      ensures Purged(ttl, {}, old(State()), State(), t) && Remains(old(State()), State())
      ensures Returned(old(sma.bs), sma.bs, base, old(home.Keys), home.Keys)
    {
      hide Sma.Valid, Consistent, Upheld, Recorded, Keyed, Referenced, Owned, Imprinted, Cleaning, Alive, Expired,
        Cleaned, Survived, Remains, Returned;
      ghost var s0, bs0 := State(), sma.bs;
      Basics();
      NothingReturned();
      RemainsRefl(s0);
      CleaningStart(y, hash, ttl, {}, s0, t, now);
      CleanedNone(y, hash, ttl, s0, t);
      for i := 0 to y.n
        invariant Valid() && Sane(y) && Cleaned(y, hash, ttl, State(), i, t)
        invariant Cleaning(y, ttl, {}, s0, State(), t, now)
        invariant Remains(s0, State()) && Returned(bs0, sma.bs, base, s0.home.Keys, home.Keys)
      {
        ghost var s, bs := State(), sma.bs;
        Basics();
        PurgeSlot(i, t, now);
        RemainsTrans(s0, s, State());
        ReturnedTrans(bs0, bs, sma.bs, base, s0.home.Keys, s.home.Keys, home.Keys);
        CleaningPurged(y, ttl, {}, s, State(), t, now);
        CleanedNext(y, hash, ttl, s, State(), i, t);
        CleaningTrans(y, ttl, {}, s0, s, State(), t, now);
      }
      CleaningPurged(y, ttl, {}, s0, State(), t, now);
      SurvivedClean(y, hash, ttl, s0, State(), t);
    }

    /** The size that apc_cache_default_expunge makes room for. */
    function Wanted(size: nat): (want: nat)
      ensures smart > 0 ==> want == smart * size >= size
      ensures smart <= 0 ==> want == size
    {
      if smart > 0 then
        assert smart * size >= size;
        smart * size
      else size
    }

    lemma RoomFor(size: nat)
      ensures Room(Wanted(size)) ==> Room(size)
    {
      assert Wanted(size) >= size;
      hide Wanted, RealSize;
    }

    /** There is one free block large enough for size bytes. */
    ghost predicate Room(size: nat)
      reads sma
    {
      exists b :: b in sma.bs && b.free && b.size >= RealSize(size)
    }

    /** The free bytes together with those that a clean-up at time t would give back. */
    ghost function Budget(t: int, now: int): nat
      reads this, sma
    {
      FreeWith(sma.bs, JunkBlocks(y, ttl, gcTtl, State(), base, t, now))
    }

    /** If nothing is referenced, the free blocks and those of the expired entries are part of it. */
    lemma ExpiredIsJunk(t: int, now: int)
      requires Valid() && NoRefs(State())
      ensures FreeWith(sma.bs, set e | e in rec && Expired(ttl, rec[e], t) :: BlockOf(base, e)) <= Budget(t, now)
    {
      Basics();
      hide Sma.Valid, Consistent, Owned, Imprinted, Recorded, Keyed, Referenced, FreeWith, BlockOf, Expired;
      var expired := set e | e in rec && Expired(ttl, rec[e], t) :: BlockOf(base, e);
      forall e | e in rec && Expired(ttl, rec[e], t)
        ensures BlockOf(base, e) in JunkBlocks(y, ttl, gcTtl, State(), base, t, now)
      {
        assert Junk(y, ttl, gcTtl, State(), e, t, now);
      }
      FreeWithMore(sma.bs, expired, JunkBlocks(y, ttl, gcTtl, State(), base, t, now));
    }

    /** A clean-up at time t and moving blocks together would make room for want bytes. */
    ghost predicate CanServe(want: nat, t: int, now: int)
      reads this, sma
    {
      Servable(sma.bs, JunkBlocks(y, ttl, gcTtl, State(), base, t, now),
               PinnedBlocks(y, ttl, gcTtl, State(), base, t, now), RealSize(want))
    }

    /** The first half of apc_cache_default_expunge: the junk is freed. */
    method TidyUp(t: int, now: int)
      requires Valid()
      modifies this`next, this`prev, this`rec, this`nentries, this`memSize, this`home, this`lists, this`at
      modifies sma`hdr, sma`avail, sma`bs, sma`fl
      ensures Valid() && GcUpheld(y, gcTtl, old(State()), State(), now)
      ensures Survived(ttl, old(State()), State(), t) && Tidied(y, ttl, gcTtl, old(State()), State(), t, now)
      ensures Returned(old(sma.bs), sma.bs, base, old(home.Keys), home.Keys)
      ensures NoRefs(old(State())) ==> Idle(y, State())
    {
      hide NoRefs, Idle, Sma.Valid, Consistent, Upheld, GcUpheld, Recorded, Keyed, Owned, Imprinted, Survived, GcOnly,
        Staying, Returned, Tidied, Remains, Purged, Referenced;
      ghost var s0, bs0 := State(), sma.bs;
      PurgeSlots(t, now);
      ghost var s1, bs1 := State(), sma.bs;
      Basics();
      if NoRefs(s0) { NoRefsRemains(s0, s1); }
      Gc(now);
      ghost var s2 := State();
      Basics();
      SurvivedGc(y, hash, ttl, s0, s1, s2, t);
      if NoRefs(s1) { GcIdle(y, hash, gcTtl, s1, s2, now); }
      UpheldThenGc(y, gcTtl, s0, s1, s2, now);
      CleanUp(y, hash, ttl, gcTtl, s0, s1, s2, t, now);
      ReturnedTrans(bs0, bs1, sma.bs, base, s0.home.Keys, s1.home.Keys, home.Keys);
    }

    /** After the clean-up, what can be served is a matter of what is free. */
    lemma Served(s0: Tab, bs0: seq<Blk>, want: nat, t: int, now: int)
      requires Valid() && Tidied(y, ttl, gcTtl, s0, State(), t, now) && s0.rec.Keys == s0.home.Keys
      requires Returned(bs0, sma.bs, base, s0.home.Keys, home.Keys)
      ensures AllSound(sma.bs) && Separated(sma.bs)
      ensures var junk := JunkBlocks(y, ttl, gcTtl, s0, base, t, now);
              var pinned := PinnedBlocks(y, ttl, gcTtl, s0, base, t, now);
              && FreeSum(sma.bs) == FreeWith(bs0, junk) <= FreeSum(Compact(sma.bs, Refusals(rec, base)))
              && (NoRefs(s0) ==>
                    (Servable(bs0, junk, pinned, RealSize(want)) <==> FreeWith(bs0, junk) >= RealSize(want)))
              && (Servable(bs0, junk, pinned, RealSize(want)) <==>
                    && FreeSum(sma.bs) >= RealSize(want)
                    && exists b :: b in Compact(sma.bs, Refusals(rec, base)) && b.free && b.size >= RealSize(want))
    {
      hide Consistent, Owned, Imprinted, Recorded, Sma.Valid, Tidied, Returned, Compact, Servable, JunkBlocks,
        PinnedBlocks, FreeWith, FreeSum, AllSound, Separated, NoRefs, Movable, Refusals, Tiles;
      sma.Tiling();
      ServableIs(y, hash, ttl, gcTtl, s0, State(), bs0, sma.bs, base, RealSize(want), t, now);
      CompactFreeSum(sma.bs, Refusals(rec, base));
      if NoRefs(s0) && FreeSum(sma.bs) >= RealSize(want) {
        NoRefusals(y, ttl, gcTtl, s0, base, sma.bs, t, now);
        CompactionServes(sma.bs, Refusals(rec, base), sma.first + BLOCK, sma.hi, RealSize(want));
      }
    }

    /** The attempt of apc_cache_default_expunge to get along without wiping the cache. It gives up exactly if
        the free blocks and the junk together are too small for want bytes, or blocks that are referenced
        are in the way. */
    method MakeRoom(want: nat, t: int, now: int) returns (room: bool)
      requires Valid()
      modifies this`next, this`prev, this`rec, this`nentries, this`memSize, this`home, this`lists, this`at
      modifies this`ndefragmentations, sma`hdr, sma`avail, sma`mem, sma`bs, sma`fl
      ensures Valid() && GcUpheld(y, gcTtl, old(State()), State(), now)
      ensures Survived(ttl, old(State()), State(), t)
      ensures room ==> Room(want) && FreeSum(sma.bs) >= old(Budget(t, now))
      ensures room <==> old(CanServe(want, t, now))
      ensures ndefragmentations ==
        old(ndefragmentations) + if RealSize(want) <= old(Budget(t, now)) then 1 else 0
      ensures NoRefs(old(State())) ==> Idle(y, State()) && (room <==> RealSize(want) <= old(Budget(t, now)))
    {
      hide NoRefs, Idle, Sma.Valid, Consistent, Upheld, GcUpheld, Recorded, Keyed, Owned, Imprinted, Survived,
        Relocated, Tiles, AllSound, Separated, Compact, Payloads, Returned, Tidied, Servable, JunkBlocks,
        PinnedBlocks, FreeWith, FreeSum, Refusals, Holdings, RealSize;
      ghost var s0, bs0 := State(), sma.bs;
      Basics();
      TidyUp(t, now);
      ghost var s2 := State();
      Basics();
      Served(s0, bs0, want, t, now);
      room := sma.CheckAvail(want);
      if !room {
        return;
      }
      ndefragmentations := ndefragmentations + 1;
      Defragment(now);
      SurvivedRelocated(ttl, s0, s2, State(), t);
      GcUpheldThen(y, gcTtl, s0, s2, State(), now);
      room := sma.CheckAvailContiguous(want);
    }

    /** Its last resort. */
    method Wipe(now: int)
      requires Valid()
      modifies this`next, this`prev, this`rec, this`nentries, this`memSize, this`home, this`lists, this`at
      modifies this`nexpunges, this`ninserts, this`nhits, this`nmisses, sma`hdr, sma`avail, sma`bs, sma`fl
      ensures Valid() && Wiped(y, State()) && nexpunges == old(nexpunges) + 1
      ensures Upheld(y, old(State()), State(), now)
      ensures Idle(y, old(State())) ==> NoRefs(State()) && home.Keys == {}
    {
      hide Remains, NoRefs, Idle, Sma.Valid, Consistent, Upheld, Recorded, Owned, Imprinted, Wiped;
      ghost var s := State();
      RealExpunge(now);
      IsWiped(y, State());
      Basics();
      if Idle(y, s) {
        IdleNoRefs(y, s);
        IdleWiped(y, hash, s, State());
        NoRefsRemains(s, State());
      }
    }

    /** apc_cache_default_expunge; seen is the number of cleanups that was read before the lock was
        taken. Unless another cleanup came in between, it is all or nothing: either exactly the
        entries that are not expired survive and there is room, or every slot is empty. It comes to the
        latter exactly if a clean-up and moving blocks together would not make room; if nothing is
        referenced, exactly if the free bytes and those of the junk are too few. */
    method DefaultExpunge(size: nat, t: int, now: int, seen: int) returns (done: bool)
      requires Valid()
      modifies this`next, this`prev, this`rec, this`nentries, this`memSize, this`home, this`lists, this`at
      modifies this`ncleanups, this`ndefragmentations, this`nexpunges, this`ninserts, this`nhits, this`nmisses
      modifies sma`hdr, sma`avail, sma`mem, sma`bs, sma`fl
      ensures Valid() && Held(y, gcTtl, old(State()), State(), now)
      ensures done ==> GcUpheld(y, gcTtl, old(State()), State(), now)
      ensures done <==> !(seen < old(ncleanups))
      ensures !done ==> State() == old(State()) && sma.bs == old(sma.bs) && ncleanups == old(ncleanups)
      ensures done ==> ncleanups == old(ncleanups) + 1
      ensures done ==>
        || (Wiped(y, State()) && nexpunges == old(nexpunges) + 1)
        || (Survived(ttl, old(State()), State(), t) && Room(Wanted(size)) && nexpunges == old(nexpunges))
      ensures done ==> (nexpunges == old(nexpunges) <==> old(CanServe(Wanted(size), t, now)))
      ensures done && NoRefs(old(State())) ==>
        (nexpunges == old(nexpunges) <==> RealSize(Wanted(size)) <= old(Budget(t, now)))
      ensures nexpunges == old(nexpunges) ==> Budget(t, now) >= old(Budget(t, now))
      ensures done ==>
        ndefragmentations == old(ndefragmentations) + if RealSize(Wanted(size)) <= old(Budget(t, now)) then 1 else 0
      ensures !done ==> nexpunges == old(nexpunges)
      ensures NoRefs(old(State())) ==> NoRefs(State()) && (done && !Room(Wanted(size)) ==> home.Keys == {})
    {
      hide Remains, NoRefs, Idle, Sma.Valid, Consistent, Held, Upheld, GcUpheld, Recorded, Owned, Imprinted, Survived,
        Wiped, Wanted, Room, JunkBlocks, PinnedBlocks, Servable, FreeWith, FreeSum, RealSize;
      ghost var s0 := State();
      if seen < ncleanups {
        HeldRefl(y, gcTtl, s0, now);
        return false;
      }
      done := true;
      var room := MakeRoom(Wanted(size), t, now);
      ghost var s := State();
      if Idle(y, s) { IdleNoRefs(y, s); }
      if !room {
        Wipe(now);
        GcUpheldThen(y, gcTtl, s0, s, State(), now);
      }
      ncleanups := ncleanups + 1;
      GcUpheldIs(y, gcTtl, s0, State(), now);
      FreeWithFree(sma.bs, JunkBlocks(y, ttl, gcTtl, State(), base, t, now));
    }

    // ---- allocating an entry

    /** sma_allocate for an entry with record x, which will be at offset n from the cache header. */
    method AllocateEntry(x: Entry) returns (n: Option<nat>)
      requires Valid() && x.memSize > 0 && Fitting(x)
      modifies sma`hdr, sma`avail, sma`bs, sma`fl
      ensures sma.Valid() && (n.None? <==> !old(Room(x.memSize)))
      ensures n.None? ==> Valid() && sma.bs == old(sma.bs) && !Room(x.memSize)
      ensures n.Some? ==>
        n.value !in home && Extent(y) <= n.value && Owned(sma.bs, base, Extent(y), home.Keys + {n.value})
      ensures n.Some? ==>
        base + n.value + x.memSize <= |sma.mem| &&
        Imprinted(sma.bs, Stamped(sma.mem, base + n.value, x), rec[n.value := x], base)
    {
      hide Sma.Valid, Consistent, Recorded, Keyed, Owned, Imprinted, Tiles, Separated, AllSound, Allocated, RealSize,
        Stamped, Fitting;
      ghost var bs0 := sma.bs;
      sma.Tiling();
      var off;
      ghost var b;
      off, b := sma.Allocate(x.memSize);
      if off.None? {
        return None;
      }
      AllocateOwned(bs0, b, RealSize(x.memSize), sma.minBlock, sma.first + BLOCK, sma.hi, base, Extent(y), home.Keys);
      sma.Spans();
      ImprintedNew(bs0, b, sma.minBlock, sma.first + BLOCK, sma.hi, sma.mem, rec, base, x);
      n := Some(off.value - base);
    }

    /** sma_allocate for an entry, which is born with one reference, and then the image of its value is
        written behind it. */
    method TryNew(x: Entry, now: int) returns (e: Option<nat>)
      requires Valid() && x.refs == |x.holders| >= 1 && x.memSize > 0 && Fitting(x)
      modifies this`rec, this`home, sma`hdr, sma`avail, sma`mem, sma`bs, sma`fl
      ensures Valid() && Held(y, gcTtl, old(State()), State(), now)
      ensures e.None? <==> !old(Room(x.memSize))
      ensures e.None? ==> State() == old(State()) && sma.bs == old(sma.bs) && !Room(x.memSize)
      ensures e.Some? ==> e.value !in old(home) && State() == Launched(y, old(State()), e.value, x)
      ensures e.Some? ==> e.value in home && home[e.value] == InFlight(y) && e.value in rec && rec[e.value] == x
      ensures at == old(at) && Unharmed(old(State()), State())
    {
      hide Unharmed, Sma.Valid, Consistent, Held, Recorded, Keyed, Owned, Imprinted, Launched, RealSize, EntryBytes,
        WriteBytes, Room;
      ghost var s := State();
      Basics();
      HeldRefl(y, gcTtl, s, now);
      UnharmedRefl(y, hash, s);
      e := AllocateEntry(x);
      if e.None? {
        return;
      }
      var n := e.value;
      LaunchEffect(y, hash, gcTtl, s, n, x, last, now);
      if x.val.Image? {
        sma.WriteAt(base + n + EntryBytes(|x.key|), x.val.bytes);
      }
      rec, home := rec[n := x], home[n := InFlight(y)];
      assert State() == Launched(y, s, n, x);
      assert home.Keys == s.home.Keys + {n};
    }

    /** Nothing is referenced, at least b bytes are free or junk, and the cache has been wiped n times so far. */
    ghost predicate Spared(b: nat, n: int, t: int, now: int)
      reads this, sma
    {
      NoRefs(State()) && nexpunges == n && b <= Budget(t, now)
    }

    /** What is wanted for size bytes, and for those of the rival, is not more than b bytes. */
    predicate Within(size: nat, rival: Option<nat>, b: nat) {
      RealSize(Wanted(size)) <= b && (rival.Some? ==> RealSize(Wanted(rival.value)) <= b)
    }

    /** The call of the expunge callback in apc_sma_malloc. If another process, the rival, makes a default
        expunge of its own after the number of cleanups was read, this one is skipped. If the lock is not
        granted, nothing is done, but that counts as an expunge all the same. */
    method Expunge(size: nat, t: int, now: int, rival: Option<nat>, granted: bool) returns (nuked: bool)
      requires Valid()
      modifies this`next, this`prev, this`rec, this`nentries, this`memSize, this`home, this`lists, this`at
      modifies this`ncleanups, this`ndefragmentations, this`nexpunges, this`ninserts, this`nhits, this`nmisses
      modifies sma`hdr, sma`avail, sma`mem, sma`bs, sma`fl
      ensures Valid() && Held(y, gcTtl, old(State()), State(), now) && (nuked <==> rival.None? || !granted)
      ensures
        || Cleared(ttl, old(State()), State(), t, nexpunges - old(nexpunges))
        || (!granted && State() == old(State()) && nexpunges == old(nexpunges))
      ensures nuked && granted ==> (Wiped(y, State()) && nexpunges == old(nexpunges) + 1) || Room(size)
      ensures NoRefs(old(State())) ==> NoRefs(State()) && (nuked && granted && !Room(size) ==> home.Keys == {})
      ensures forall b: nat :: old(Spared(b, nexpunges, t, now)) && Within(size, rival, b) ==>
        Spared(b, old(nexpunges), t, now)
    {
      hide Sma.Valid, Consistent, Held, Recorded, Owned, Imprinted, Survived, Wiped, NoRefs, Room, Cleared, Wanted,
        RealSize, JunkBlocks, FreeWith, Servable, PinnedBlocks;
      ghost var s0 := State();
      HeldRefl(y, gcTtl, s0, now);
      var seen := ncleanups;
      if rival.Some? {
        var done := DefaultExpunge(rival.value, t, now, ncleanups);
        ClearedBy(y, ttl, s0, State(), t, nexpunges - old(nexpunges));
      }
      if !granted {
        return true;
      }
      ghost var s1 := State();
      nuked := DefaultExpunge(size, t, now, seen);
      HeldTrans(y, gcTtl, s0, s1, State(), now);
      if rival.None? {
        ClearedBy(y, ttl, s0, State(), t, nexpunges - old(nexpunges));
        RoomFor(size);
      }
    }

    /** Nothing is referenced, and the bytes that are free or junk are enough for size bytes, and for what rivals
        want. */
    ghost predicate Ample(size: nat, rivals: seq<nat>, t: int, now: int)
      reads this, sma
    {
      && NoRefs(State()) && RealSize(Wanted(size)) <= Budget(t, now)
      && forall i :: 0 <= i < |rivals| ==> RealSize(Wanted(rivals[i])) <= Budget(t, now)
    }

    /** apc_sma_malloc once there is no room: it tries again after an expunge, until that was not skipped. */
    method Retry(x: Entry, t: int, now: int, rivals: seq<nat>, granted: bool) returns (e: Option<nat>)
      requires Valid() && x.refs == |x.holders| >= 1 && x.memSize > 0 && Fitting(x)
      modifies this`next, this`prev, this`rec, this`nentries, this`memSize, this`home, this`lists, this`at
      modifies this`ncleanups, this`ndefragmentations, this`nexpunges, this`ninserts, this`nhits, this`nmisses
      modifies sma`hdr, sma`avail, sma`mem, sma`bs, sma`fl
      ensures Valid() && Held(y, gcTtl, old(State()), State(), now)
      ensures
        || Cleared(ttl, old(State()), State(), t, nexpunges - old(nexpunges))
        || (!granted && Unharmed(old(State()), State()) && nexpunges == old(nexpunges))
      ensures e.None? && granted ==>
        Wiped(y, State()) && !Room(x.memSize) && (NoRefs(old(State())) ==> home.Keys == {})
      ensures e.Some? ==> e.value in home && home[e.value] == InFlight(y) && e.value in rec && rec[e.value] == x
      ensures e.Some? ==> forall g :: !Safe(y, gcTtl, old(State()), e.value, g, now)
      ensures old(Ample(x.memSize, rivals, t, now)) ==> nexpunges == old(nexpunges) && (granted ==> e.Some?)
    {
      hide Sma.Valid, Consistent, Held, Recorded, Owned, Imprinted, Survived, Wiped, NoRefs, Room, Launched, Keyed,
        Referenced, Unharmed, Safe, Cleared, Wanted, Budget, RealSize;
      ghost var s0, n0, b0 := State(), nexpunges, Budget(t, now);
      ghost var ample := Ample(x.memSize, rivals, t, now);
      HeldRefl(y, gcTtl, s0, now);
      var i, nuked := 0, false;
      e := None;
      while e.None? && !nuked
        invariant Valid() && Held(y, gcTtl, s0, State(), now) && i <= |rivals|
        invariant
          || (State() == s0 && nexpunges == n0 && e.None? && !nuked)
          || Cleared(ttl, s0, State(), t, nexpunges - n0)
          || (!granted && nuked && Unharmed(s0, State()) && nexpunges == n0)
        invariant e.None? && NoRefs(s0) ==> NoRefs(State())
        invariant e.None? && nuked && granted ==>
          Wiped(y, State()) && !Room(x.memSize) && (NoRefs(s0) ==> home.Keys == {})
        invariant e.Some? ==> e.value in home && home[e.value] == InFlight(y) && e.value in rec && rec[e.value] == x
        invariant e.Some? ==> forall g :: !Safe(y, gcTtl, s0, e.value, g, now)
        invariant ample ==>
          nexpunges == n0 && (e.None? ==> Spared(b0, n0, t, now)) && (nuked && granted ==> e.Some?)
        decreases |rivals| - i, if nuked then 0 else 1
      {
        var rival := None;
        if i < |rivals| {
          rival := Some(rivals[i]);
          i := i + 1;
        }
        e, nuked := Round(x, t, now, rival, granted, s0, n0, b0);
      }
    }

    /** One round of it. */
    method Round(x: Entry, t: int, now: int, rival: Option<nat>, granted: bool, ghost s0: Tab, ghost n0: int,
                 ghost b0: nat)
      returns (e: Option<nat>, nuked: bool)
      requires Valid() && x.refs == |x.holders| >= 1 && x.memSize > 0 && Fitting(x)
      requires Held(y, gcTtl, s0, State(), now)
      requires (State() == s0 && nexpunges == n0) || Cleared(ttl, s0, State(), t, nexpunges - n0)
      requires NoRefs(s0) ==> NoRefs(State())
      modifies this`next, this`prev, this`rec, this`nentries, this`memSize, this`home, this`lists, this`at
      modifies this`ncleanups, this`ndefragmentations, this`nexpunges, this`ninserts, this`nhits, this`nmisses
      modifies sma`hdr, sma`avail, sma`mem, sma`bs, sma`fl
      ensures Valid() && Held(y, gcTtl, s0, State(), now) && (nuked <==> rival.None? || !granted)
      ensures
        || Cleared(ttl, s0, State(), t, nexpunges - n0)
        || (!granted && Unharmed(s0, State()) && nexpunges == n0)
      ensures e.None? && NoRefs(s0) ==> NoRefs(State())
      ensures e.None? && nuked && granted ==> Wiped(y, State()) && !Room(x.memSize) && (NoRefs(s0) ==> home.Keys == {})
      ensures e.Some? ==> e.value in home && home[e.value] == InFlight(y) && e.value in rec && rec[e.value] == x
      ensures e.Some? ==> forall g :: !Safe(y, gcTtl, s0, e.value, g, now)
      ensures old(Spared(b0, n0, t, now)) && Within(x.memSize, rival, b0) ==>
        nexpunges == n0 && (e.None? ==> Spared(b0, n0, t, now)) && (nuked && granted ==> e.Some?)
    {
      hide Sma.Valid, Consistent, Held, Recorded, Owned, Imprinted, Survived, Wiped, NoRefs, Room, Launched, Keyed,
        Referenced, Unharmed, Safe, Cleared, Wanted, RealSize, JunkBlocks, FreeWith;
      ghost var s1, n1 := State(), nexpunges;
      nuked := Expunge(x.memSize, t, now, rival, granted);
      ghost var s2 := State();
      HeldTrans(y, gcTtl, s0, s1, s2, now);
      if (s1 != s0 || n1 != n0) && Cleared(ttl, s1, s2, t, nexpunges - n1) {
        ClearedTrans(ttl, s0, s1, s2, t, n1 - n0, nexpunges - n1);
      }
      e := TryNew(x, now);
      HeldTrans(y, gcTtl, s0, s2, State(), now);
      if Cleared(ttl, s0, s2, t, nexpunges - n0) { ClearedUnharmed(ttl, s0, s2, State(), t, nexpunges - n0); }
      if e.Some? { UnheldBefore(y, gcTtl, s0, s2, e.value, now); }
    }

    /** apc_sma_malloc for an entry: if there is no room, it lets the cache expunge and tries again; rivals are
        the sizes for which other processes expunge in between, and granted tells whether the lock for the own
        expunge is granted. It fails only if the request is too large at all, or if the lock was not granted,
        or if the cache was wiped and still has no block that is large enough. */
    method NewEntry(x: Entry, t: int, now: int, rivals: seq<nat>, granted: bool) returns (e: Option<nat>)
      requires Valid() && x.refs == |x.holders| >= 1 && x.memSize > 0 && Fitting(x)
      modifies this`next, this`prev, this`rec, this`nentries, this`memSize, this`home, this`lists, this`at
      modifies this`ncleanups, this`ndefragmentations, this`nexpunges, this`ninserts, this`nhits, this`nmisses
      modifies sma`hdr, sma`avail, sma`mem, sma`bs, sma`fl
      ensures Valid() && Held(y, gcTtl, old(State()), State(), now)
      ensures e.None? ==> x.memSize > sma.maxAlloc || !granted || (Wiped(y, State()) && !Room(x.memSize))
      ensures e.None? && x.memSize <= sma.maxAlloc && granted && NoRefs(old(State())) ==> home.Keys == {}
      ensures e.Some? ==> e.value in home && home[e.value] == InFlight(y) && e.value in rec && rec[e.value] == x
      ensures old(Room(x.memSize)) && x.memSize <= sma.maxAlloc ==>
        e.Some? && e.value !in old(home) && State() == Launched(y, old(State()), e.value, x)
      ensures
        || (!old(Room(x.memSize)) && Cleared(ttl, old(State()), State(), t, nexpunges - old(nexpunges)))
        || (Unharmed(old(State()), State()) && nexpunges == old(nexpunges))
      ensures e.Some? ==> forall g :: !Safe(y, gcTtl, old(State()), e.value, g, now)
      ensures x.memSize > sma.maxAlloc ==> e.None? && State() == old(State()) && nexpunges == old(nexpunges)
      ensures old(Ample(x.memSize, rivals, t, now)) ==>
        nexpunges == old(nexpunges) && (granted && x.memSize <= sma.maxAlloc ==> e.Some?)
    {
      hide Sma.Valid, Consistent, Held, Recorded, Owned, Imprinted, Cleared, Wiped, NoRefs, Room, Launched, Keyed,
        Referenced, Unharmed, Safe, Wanted, JunkBlocks, FreeWith, RealSize;
      ghost var s0 := State();
      HeldRefl(y, gcTtl, s0, now);
      if x.memSize > sma.maxAlloc {
        Basics();
        UnharmedRefl(y, hash, s0);
        return None;
      }
      e := TryNew(x, now);
      if e.Some? {
        UnheldBefore(y, gcTtl, s0, s0, e.value, now);
      } else {
        e := Retry(x, t, now, rivals, granted);
      }
    }

    // ---- inserting

    /** The loop of apc_cache_wlocked_insert, for entry e with key k. It removes expired entries on
        its way, and stops at the entry of k: an exclusive insert fails if that is not hard expired,
        otherwise it is removed. The cell where e belongs is behind pre. */
    method MakeWay(e: nat, k: string, t: int, exclusive: bool, now: int, ghost x: Entry)
      returns (cell: nat, stop: bool, ghost pre: seq<nat>, ghost post: seq<nat>)
      requires Valid() && Sane(y) && Flying(y, State(), e, x)
      modifies this`next, this`prev, this`rec, this`nentries, this`memSize, this`home, this`lists, this`at
      modifies sma`hdr, sma`avail, sma`bs, sma`fl
      ensures Valid() && Flying(y, State(), e, x) && Cleaning(y, ttl, {k}, old(State()), State(), t, now)
      ensures k in old(at) ==> old(at)[k] in old(rec)
      ensures stop <==> exclusive && k in old(at) && !HardExpired(old(rec)[old(at)[k]], t)
      ensures stop ==> SameKey(old(State()), State(), k)
      ensures if stop then k in at && post != [] && post[0] == at[k] else k !in at && (k !in old(at) ==> post == [])
      ensures var i := Slot(y, hash, k);
              i < |lists| && lists[i] == pre + post && cell == Last(Head(y, i), pre) && Alive(ttl, State(), pre, t)
    {
      hide Sma.Valid, Consistent, Others, OtherLists, Remains, Gone, Upheld, Recorded, Keyed, Referenced, Owned,
        Imprinted, Cleaning, Expired, HardExpired,
        Without, SameKey, Flying, Slot, NoRefs, Alive;
      ghost var s0 := State();
      Basics();
      var i := Slot(y, hash, k);
      CleaningStart(y, hash, ttl, {k}, s0, t, now);
      SameKeyRefl(y, hash, s0, k);
      WithoutNone(s0, k);
      NothingAlive(ttl, s0, t);
      ghost var rest := lists[i];
      pre, post, stop := [], [], false;
      cell := Head(y, i);
      assert pre + rest == lists[i];
      AtCursor(i, pre, rest);
      while next[cell] != 0
        invariant Valid() && i < |lists| && lists[i] == pre + rest && cell == Last(Head(y, i), pre)
        invariant Cleaning(y, ttl, {k}, s0, State(), t, now) && Without(State(), pre, k)
        invariant SameKey(s0, State(), k) && Flying(y, State(), e, x) && Alive(ttl, State(), pre, t)
        invariant cell in next && (next[cell] == 0 <==> rest == [])
        invariant rest != [] ==> next[cell] == rest[0] && rest[0] in home && rest[0] in rec && home[rest[0]] == i
        decreases |rest|
      {
        var entry := next[cell];
        AtCursor(i, pre, rest);
        ghost var s := State();
        Basics();
        if rec[entry].key == k {
          EntryOfKey(y, hash, s, entry);
          SameKeyAt(s0, s, k);
          if exclusive && !HardExpired(rec[entry], t) {
            stop, post := true, rest;
            return;
          }
          NotBefore(y, hash, s, i, pre, entry, rest[1..]);
          RemoveEntry(entry, now, pre, rest[1..]);
          CleaningStep(y, hash, ttl, {k}, s0, s, State(), entry, t, now);
          AliveOthers(ttl, s, State(), pre, entry, t);
          FlyingOthers(y, s, State(), entry, e, x);
          post := rest[1..];
          return;
        }
        if Expired(ttl, rec[entry], t) {
          NotBefore(y, hash, s, i, pre, entry, rest[1..]);
          RemoveEntry(entry, now, pre, rest[1..]);
          CleaningStep(y, hash, ttl, {k}, s0, s, State(), entry, t, now);
          WithoutOthers(s, State(), pre, entry, k);
          AliveOthers(ttl, s, State(), pre, entry, t);
          SameKeyOthers(y, hash, s0, s, State(), entry, k, e, x);
        } else {
          cell := entry;
          WithoutSnoc(s, pre, entry, k);
          AliveSnoc(ttl, s, pre, entry, t);
          pre := pre + [entry];
        }
        rest := rest[1..];
        AtCursor(i, pre, rest);
      }
      post := rest;
      assert lists[i] == pre;
      WithoutKey(y, hash, State(), k);
      SameKeyAt(s0, State(), k);
    }

    /** Linking the new entry where MakeWay made way for it. */
    method LinkNew(e: nat, cell: nat, t: int, now: int, ghost x: Entry, ghost pre: seq<nat>, ghost post: seq<nat>)
      requires Valid() && Sane(y) && Flying(y, State(), e, x) && x.key !in at
      requires var i := Slot(y, hash, x.key);
               i < |lists| && lists[i] == pre + post && cell == Last(Head(y, i), pre)
      modifies this`next, this`prev, this`nentries, this`memSize, this`ninserts, this`home, this`lists, this`at,
        this`last
      ensures Valid() && Cleaning(y, ttl, {x.key}, old(State()), State(), t, now)
      ensures at == old(at)[x.key := e] && last == old(last)[x.key := x.val] && rec == old(rec) && e in rec
      ensures rec[e] == x
      ensures Slot(y, hash, x.key) < |old(lists)|
      ensures home == old(home)[e := Slot(y, hash, x.key)] && nentries == old(nentries) + 1
      ensures ninserts == old(ninserts) + 1 && lists == old(lists)[Slot(y, hash, x.key) := pre + [e] + post]
    {
      hide Linked, Sma.Valid, Consistent, Recorded, Owned, Imprinted, Cleaning, Flying, Slot, LinkNext, LinkPrev, Head,
        Last, Inserted;
      ghost var s, i := State(), Slot(y, hash, x.key);
      LinkReady(e, t, now, x, pre, post);
      LinkEntry(cell, e, home, i, pre, post);
      memSize := memSize + rec[e].memSize;
      nentries := nentries + 1;
      ninserts := ninserts + 1;
      home, lists, at, last := home[e := i], lists[i := pre + [e] + post], at[x.key := e], last[x.key := x.val];
      IsInserted(y, s, State(), i, pre, e, post);
    }

    lemma LinkReady(e: nat, t: int, now: int, x: Entry, pre: seq<nat>, post: seq<nat>)
      requires Valid() && Sane(y) && Flying(y, State(), e, x) && x.key !in at
      requires var i := Slot(y, hash, x.key); i < |lists| && lists[i] == pre + post
      ensures e in home && e in rec && rec[e] == x && Slot(y, hash, x.key) < y.n && y.n < |lists|
      ensures Linked(y, next, prev, home, lists) && Extent(y) <= e && home[e] == InFlight(y)
      ensures var i := Slot(y, hash, x.key);
              && Consistent(y, hash, Inserted(y, State(), i, pre, e, post))
              && Cleaning(y, ttl, {x.key}, State(), Inserted(y, State(), i, pre, e, post), t, now)
              && Last(Head(y, i), pre) in next && Last(Head(y, i), pre) != e
              && home[e := i].Keys == home.Keys
      ensures Recorded(rec, at[x.key := e], last[x.key := x.val])
    {
      hide Sma.Valid, Consistent, Recorded, Owned, Imprinted, Cleaning, Flying, Slot, Inserted, Head, Last;
      FlyingIs(y, State(), e, x);
      LinkedPart(y, hash, State(), e);
      InsertEffect(y, hash, ttl, State(), pre, e, post, x, t, now);
      RecordedInserted(rec, at, last, x, e);
    }

    /** apc_cache_wlocked_insert. An exclusive insert fails exactly if the key has an entry that is
        not hard expired. Other keys lose their entries only if these are expired. */
    method Insert(e: nat, exclusive: bool, now: int) returns (ok: bool)
      requires Valid() && e in home && home[e] == InFlight(y) && e in rec
      modifies this`next, this`prev, this`rec, this`nentries, this`memSize, this`ninserts, this`home, this`lists,
        this`at, this`last
      modifies sma`hdr, sma`avail, sma`bs, sma`fl
      ensures Valid() && (old(rec)[e].key in old(at) ==> old(at)[old(rec)[e].key] in old(rec))
      ensures var x := old(rec)[e];
              && (ok <==> !(exclusive && x.key in old(at) && !HardExpired(old(rec)[old(at)[x.key]], x.ctime)))
              && GcCleaning(y, gcTtl, ttl, {x.key}, old(State()), State(), x.ctime, now)
              && (ok ==> at.Keys >= {x.key} && at[x.key] == e && e in rec && rec[e] == x)
              && (ok ==> e in home && home[e] == hash(x.key) % y.n)
              && hash(x.key) % y.n < |lists| && x.key in at
              && CleanBefore(ttl, State(), lists[hash(x.key) % y.n], at[x.key], x.ctime)
              && (x.key !in old(at) ==>
                    var l := lists[hash(x.key) % y.n]; l != [] && l[|l| - 1] == e)
              && (ok ==> last == old(last)[x.key := x.val])
              && (!ok ==> SameKey(old(State()), State(), x.key) && Flying(y, State(), e, x) && last == old(last))
    {
      hide Sma.Valid, Consistent, Recorded, Owned, Imprinted, Cleaning, GcCleaning, GcUpheld, Flying, SameKey,
        HardExpired, GcOnly, Held, Keyed, Referenced, Staying, Alive, CleanBefore;
      ghost var s0, x := State(), rec[e];
      Basics();
      var k, t := rec[e].key, rec[e].ctime;
      Gc(now);
      ghost var s1 := State();
      Basics();
      AfterGc(y, hash, gcTtl, ttl, s0, s1, e, k, t, now);
      SameKeyAt(s0, s1, k);
      var cell, stop;
      ghost var pre, post;
      cell, stop, pre, post := MakeWay(e, k, t, exclusive, now, x);
      GcCleaningThen(y, gcTtl, ttl, {k}, s0, s1, State(), t, now);
      if stop {
        SameKeyTrans(s0, s1, State(), k);
        IsCleanBefore(ttl, State(), pre, post[0], post[1..], t);
        assert pre + [post[0]] + post[1..] == pre + post;
        return false;
      }
      ghost var s2 := State();
      LinkNew(e, cell, t, now, x, pre, post);
      GcCleaningThen(y, gcTtl, ttl, {k}, s0, s2, State(), t, now);
      AliveSame(ttl, s2, State(), pre, t);
      IsCleanBefore(ttl, State(), pre, e, post, t);
      return true;
    }

    // ---- entries in hand

    /** free_entry for an entry that could not be inserted. */
    method FreeUnlinked(e: nat)
      requires Valid() && e in home && home[e] == InFlight(y)
      modifies this`rec, this`home, sma`hdr, sma`avail, sma`bs, sma`fl
      ensures Valid() && Others(old(State()), State(), e) && e !in rec && rec.Keys == home.Keys
    {
      hide Sma.Valid, Consistent, Recorded, Owned, Imprinted, Keyed, Referenced;
      ghost var s := State();
      Basics();
      DitchEntry(y, hash, s, e);
      RecordedUnlisted(y, hash, s, e, last);
      FreeEntry(e, home.Keys);
      ImprintedWithout(sma.bs, sma.mem, rec, base, e);
      rec, home := rec - {e}, home - {e};
      assert home.Keys == s.home.Keys - {e};
    }

    /** The record of entry e is overwritten; its value stays. */
    method Write(e: nat, x: Entry)
      requires Valid() && e in home && e in rec && x.key == rec[e].key && x.memSize == rec[e].memSize
      requires x.val == rec[e].val
      requires x.refs == |x.holders| && (home[e] == InFlight(y) ==> x.refs >= 1)
      modifies this`rec
      ensures Valid() && rec == old(rec)[e := x]
    {
      hide Sma.Valid, Consistent, Recorded, Owned, Imprinted, Keyed, Referenced;
      ghost var s := State();
      Basics();
      Touch(y, hash, s, e, x);
      RecordedTouched(y, hash, rec, home, at, last, e, x);
      ImprintedRewritten(sma.bs, sma.mem, rec, base, e, x);
      rec := rec[e := x];
      assert State() == Written(s, e, x);
    }

    /** apc_cache_entry_release, by the holder h, whose reference is still there. */
    method ReleaseHeld(e: nat, h: nat)
      requires Valid() && Holds(State(), e, h) && home[e] != InFlight(y)
      modifies this`rec
      ensures Valid() && rec == old(rec)[e := Released(old(rec)[e], h)]
    {
      hide Sma.Valid, Consistent, Recorded, Owned, Imprinted, Keyed;
      Basics();
      Write(e, Released(rec[e], h));
    }

    /** apc_cache_entry_release as such: the decrement is made without looking. If the reference of h is
        still there, exactly it is gone. If the gc has given it up, the count of whatever entry is there
        now is one less than it has references, or a word of memory has changed that belongs to something
        else. */
    method Release(e: nat, h: nat)
      requires Valid() && (Holds(State(), e, h) ==> home[e] != InFlight(y))
      modifies this`rec, this`next, this`prev, sma`hdr, sma`mem
      ensures Holds(old(State()), e, h) ==> Valid()
      ensures e in old(rec) ==>
        && rec == old(rec)[e := Released(old(rec)[e], h)] && next == old(next) && prev == old(prev)
        && sma.hdr == old(sma.hdr) && sma.mem == old(sma.mem)
    {
      hide Sma.Valid, Consistent, Recorded, Owned, Imprinted, Keyed, Referenced;
      Basics();
      if e !in rec {
        next, prev, rec := *, *, *;
        sma.hdr, sma.mem := *, *;
      } else if h in rec[e].holders {
        ReleaseHeld(e, h);
      } else {
        rec := rec[e := Released(rec[e], h)];
      }
    }

    // ---- looking up

    /** apc_cache_rlocked_find_nostat: it finds the entry of the key unless that is hard expired. */
    method FindNostat(k: string, t: int) returns (e: Option<nat>)
      requires Valid()
      ensures e.Some? <==> k in at && at[k] in rec && (var x := rec[at[k]]; x.ttl == 0 || t <= x.ctime + x.ttl)
      ensures e.Some? ==> e.value == at[k] && e.value in rec && rec[e.value].key == k
      ensures e.Some? ==> e.value in home && home[e.value] < y.n
    {
      hide Sma.Valid, Consistent, Recorded, Owned, Imprinted, Keyed, Referenced, Without, Slot;
      Basics();
      var i := Slot(y, hash, k);
      ghost var pre, rest := [], lists[i];
      WithoutNone(State(), k);
      assert pre + rest == lists[i];
      AtCursor(i, pre, rest);
      var offset := next[Head(y, i)];
      while offset != 0
        invariant lists[i] == pre + rest && Without(State(), pre, k)
        invariant offset == 0 <==> rest == []
        invariant rest != [] ==> offset == rest[0] && rest[0] in home && rest[0] in rec && home[rest[0]] == i
        decreases |rest|
      {
        var entry := offset;
        if rec[entry].key == k {
          EntryOfKey(y, hash, State(), entry);
          if HardExpired(rec[entry], t) {
            return None;
          }
          return Some(entry);
        }
        AtCursor(i, pre, rest);
        WithoutSnoc(State(), pre, entry, k);
        pre, rest := pre + [entry], rest[1..];
        AtCursor(i, pre, rest);
        offset := next[entry];
      }
      assert lists[i] == pre;
      WithoutKey(y, hash, State(), k);
      return None;
    }

    /** apc_cache_rlocked_find: as FindNostat, and it counts the hit or miss and notes the access.
        The source repeats the loop; here the two share it. */
    method Find(k: string, t: int) returns (e: Option<nat>)
      requires Valid()
      modifies this`rec, this`nhits, this`nmisses
      ensures Valid()
      ensures e.Some? <==>
        k in at && at[k] in old(rec) && (var x := old(rec)[at[k]]; x.ttl == 0 || t <= x.ctime + x.ttl)
      ensures e.Some? ==> e.value == at[k] && e.value in old(rec) && e.value in home && home[e.value] < y.n
      ensures e.Some? ==> nhits == old(nhits) + 1 && nmisses == old(nmisses)
      ensures e.Some? ==>
        rec == old(rec)[e.value := old(rec)[e.value].(nhits := old(rec)[e.value].nhits + 1, atime := t)]
      ensures e.None? ==> nmisses == old(nmisses) + 1 && nhits == old(nhits) && rec == old(rec)
    {
      hide Sma.Valid, Consistent, Recorded, Owned, Imprinted, Keyed, HardExpired;
      Basics();
      e := FindNostat(k, t);
      if e.None? {
        nmisses := nmisses + 1;
        return;
      }
      nhits := nhits + 1;
      Write(e.value, rec[e.value].(nhits := rec[e.value].nhits + 1, atime := t));
    }

    method Incref(e: nat, h: nat)
      requires Valid() && e in home && e in rec && h !in rec[e].holders
      modifies this`rec
      ensures Valid()
      ensures rec == old(rec)[e := old(rec)[e].(refs := old(rec)[e].refs + 1, holders := old(rec)[e].holders + {h})]
    {
      hide Sma.Valid, Consistent, Recorded, Owned, Imprinted, Keyed;
      Basics();
      Write(e, rec[e].(refs := rec[e].refs + 1, holders := rec[e].holders + {h}));
    }

    /** apc_cache_rlocked_find_incref: the entry that is found is referenced by h from now on. */
    method FindIncref(k: string, t: int, h: nat, now: int) returns (e: Option<nat>)
      requires Valid() && forall o :: o in rec ==> h !in rec[o].holders
      modifies this`rec, this`nhits, this`nmisses
      ensures Valid()
      ensures e.Some? <==>
        k in at && at[k] in old(rec) && (var x := old(rec)[at[k]]; x.ttl == 0 || t <= x.ctime + x.ttl)
      ensures e.Some? ==> e.value == at[k] && e.value in old(rec) && e.value in home && home[e.value] < y.n
      ensures e.Some? ==> e.value in rec && h in rec[e.value].holders && k in last && rec[e.value].val == last[k]
      ensures e.Some? ==> rec == old(rec)[e.value := Accessed(old(rec)[e.value], t, h)]
      ensures e.None? ==> rec == old(rec)
      ensures nhits == old(nhits) + (if e.Some? then 1 else 0) && nmisses == old(nmisses) + if e.Some? then 0 else 1
      ensures Held(y, gcTtl, old(State()), State(), now)
    {
      hide Sma.Valid, Consistent, Recorded, Owned, Imprinted, Keyed, Referenced, HardExpired, Held;
      ghost var s := State();
      e := Find(k, t);
      if e.Some? {
        Incref(e.value, h);
        AccessHeld(y, gcTtl, s, State(), e.value, t, h, now);
        LastValue(k);
      } else {
        HeldRefl(y, gcTtl, s, now);
      }
    }

    lemma LastValue(k: string)
      requires Valid() && k in at
      ensures k in last && at[k] in rec && rec[at[k]].val == last[k] && at[k] in home && home[at[k]] < y.n
    {
      KeyHoused(y, hash, State(), k);
    }

    lemma EntryPrinted(e: nat)
      requires Valid() && e in home && e in rec && rec[e].val.Image?
      ensures EntryBytes(|rec[e].key|) <= rec[e].memSize && base + e + rec[e].memSize <= |sma.mem|
      ensures sma.mem[base + e + EntryBytes(|rec[e].key|)..base + e + rec[e].memSize] == rec[e].val.bytes
    {
      hide Sma.Valid, Consistent, Recorded, Owned, Keyed, EntryBytes, Imprinted;
      Basics();
      var b := BlockOfEntry(sma.bs, base, Extent(y), home.Keys, e);
      PrintedIn(sma.bs, sma.mem, rec, base, e, b);
    }

    /** apc_cache_entry_fetch_zval: a value that is no integer is read from the bytes of its block. */
    method ReadValue(e: nat) returns (v: Value)
      requires Valid() && e in home && e in rec
      ensures v == rec[e].val
    {
      hide Sma.Valid, Consistent, Recorded, Owned, Imprinted, EntryBytes;
      if rec[e].val.Long? {
        return rec[e].val;
      }
      EntryPrinted(e);
      var o := base + e;
      v := Image(sma.mem[o + EntryBytes(|rec[e].key|)..o + rec[e].memSize]);
    }

    /** apc_cache_fetch: the value that was last stored or updated under the key, or a miss. */
    method Fetch(k: string, t: int, h: nat) returns (v: Option<Value>)
      requires Valid() && forall o :: o in rec ==> h !in rec[o].holders
      modifies this`rec, this`nhits, this`nmisses
      ensures Valid()
      ensures v.Some? <==>
        k in at && at[k] in old(rec) && (var x := old(rec)[at[k]]; x.ttl == 0 || t <= x.ctime + x.ttl)
      ensures v.Some? ==> k in last && v.value == last[k]
      ensures nhits == old(nhits) + (if v.Some? then 1 else 0) && nmisses == old(nmisses) + if v.Some? then 0 else 1
      ensures forall o :: o in rec <==> o in old(rec)
      ensures forall o :: o in rec ==> rec[o].(nhits := 0, atime := 0) == old(rec)[o].(nhits := 0, atime := 0)
    {
      hide Sma.Valid, Consistent, Recorded, Owned, Imprinted, Keyed, HardExpired, Held, Referenced;
      var e := FindIncref(k, t, h, 0);
      if e.None? {
        return None;
      }
      var value := ReadValue(e.value);
      v := Some(value);
      ghost var x := old(rec)[e.value];
      assert x.holders + {h} - {h} == x.holders;
      ReleaseHeld(e.value, h);
      assert rec[e.value] == x.(nhits := x.nhits + 1, atime := t);
    }

    // ---- updating and deleting

    /** One pass of apc_cache_atomic_update_long with php_inc_updater: an integer that is not hard
        expired is increased in place. */
    method AtomicAdd(k: string, step: int, t: int, now: int) returns (r: Option<int>)
      requires Valid()
      modifies this`rec, this`last
      ensures Valid() && Held(y, gcTtl, old(State()), State(), now)
      ensures k in at ==> at[k] in old(rec) && k in old(last)
      ensures r.Some? <==>
        k in at && old(last)[k].Long? && (var x := old(rec)[at[k]]; x.ttl == 0 || t <= x.ctime + x.ttl)
      ensures r.Some? ==> r.value == Wrap(old(last)[k].n + step) && last == old(last)[k := Long(r.value)]
      ensures r.Some? ==> rec == old(rec)[at[k] := old(rec)[at[k]].(val := Long(r.value), mtime := t)]
      ensures r.None? ==> last == old(last) && rec == old(rec)
    {
      hide Sma.Valid, Consistent, Recorded, Owned, Imprinted, Keyed, HardExpired, Held, Referenced, Wrap;
      Basics();
      ghost var s := State();
      HeldRefl(y, gcTtl, s, now);
      var e := FindNostat(k, t);
      if k in at { LastValue(k); }
      if e.None? || !rec[e.value].val.Long? {
        return None;
      }
      var x := rec[e.value];
      r := Some(Wrap(x.val.n + step));
      x := x.(val := Long(r.value), mtime := t);
      Touch(y, hash, s, e.value, x) by { RecordCounts(e.value); }
      RecordedTouched(y, hash, rec, home, at, last, e.value, x);
      ImprintedRewritten(sma.bs, sma.mem, rec, base, e.value, x);
      TouchHeld(y, gcTtl, s, e.value, x, now);
      rec, last := rec[e.value := x], last[k := x.val];
      assert State() == Written(s, e.value, x);
    }

    lemma RecordCounts(e: nat)
      requires Valid() && e in rec
      ensures rec[e].refs == |rec[e].holders|
    {
      Basics();
    }

    /** apc_cache_delete: the key loses its entry, expired or not, and no other key does. */
    method Delete(k: string, now: int) returns (found: bool)
      requires Valid()
      modifies this`next, this`prev, this`rec, this`nentries, this`memSize, this`home, this`lists, this`at, this`last
      modifies sma`hdr, sma`avail, sma`bs, sma`fl
      ensures Valid() && Upheld(y, old(State()), State(), now)
      ensures found <==> k in old(at)
      ensures at == old(at) - {k} && last == old(last) - {k}
      ensures forall j :: j in at ==> at[j] in rec && at[j] in old(rec) && rec[at[j]] == old(rec)[at[j]]
    {
      hide Sma.Valid, Consistent, Recorded, Owned, Imprinted, Keyed, HardExpired, Upheld, Referenced, Without, Slot,
        Others, Remains, OtherLists;
      Basics();
      var i := Slot(y, hash, k);
      ghost var s, pre, rest := State(), [], lists[i];
      UpheldRefl(y, s, now);
      WithoutNone(s, k);
      assert pre + rest == lists[i];
      AtCursor(i, pre, rest);
      var cell := Head(y, i);
      while next[cell] != 0
        invariant Valid() && State() == s && last == old(last) && i < |lists| && lists[i] == pre + rest
        invariant Without(s, pre, k)
        invariant cell == Last(Head(y, i), pre) && cell in next && (next[cell] == 0 <==> rest == [])
        invariant rest != [] ==> next[cell] == rest[0] && rest[0] in home && rest[0] in rec && home[rest[0]] == i
        decreases |rest|
      {
        var entry := next[cell];
        AtCursor(i, pre, rest);
        if rec[entry].key == k {
          EntryOfKey(y, hash, s, entry);
          RemoveEntry(entry, now, pre, rest[1..]);
          OtherKeys(y, hash, s, State(), entry, k);
          RecordedLess(rec, at, last, k);
          last := last - {k};
          return true;
        }
        WithoutSnoc(s, pre, entry, k);
        cell := entry;
        pre, rest := pre + [entry], rest[1..];
        AtCursor(i, pre, rest);
      }
      assert lists[i] == pre;
      WithoutKey(y, hash, s, k);
      RecordedLess(rec, at, last, k);
      last := last - {k};
      return false;
    }

    /** apc_cache_clear */
    method Clear(now: int)
      requires Valid()
      modifies this`next, this`prev, this`rec, this`nentries, this`memSize, this`home, this`lists, this`at, this`last
      modifies this`ncleanups, this`ndefragmentations, this`nexpunges, this`ninserts, this`nhits, this`nmisses
      modifies sma`hdr, sma`avail, sma`bs, sma`fl
      ensures Valid() && Upheld(y, old(State()), State(), now) && Wiped(y, State()) && last == map[] && ncleanups == 0
      ensures ndefragmentations == 0 && nexpunges == 0 && ninserts == 0 && nhits == 0 && nmisses == 0
    {
      hide Sma.Valid, Consistent, Recorded, Owned, Imprinted, Upheld, Wiped;
      RealExpunge(now);
      IsWiped(y, State());
      ncleanups, ndefragmentations, nexpunges := 0, 0, 0;
      last := map[];
      NothingRecorded(rec);
    }

    // ---- storing

    /** apc_cache_store: h is the storing process, size what the persisted value takes. Of what other
        processes do in between, only their expunges are here (rivals). granted tells whether the lock for an
        expunge can be had, locked whether that for the insert can be had. */
    method Store(k: string, val: Value, entryTtl: int, size: nat, exclusive: bool, t: int, now: int, h: nat,
                 rivals: seq<nat>, granted: bool, locked: bool)
      returns (ok: bool)
      requires Valid() && size > 0 && (val.Image? ==> EntryBytes(|k|) + |val.bytes| == size)
      modifies this`next, this`prev, this`rec, this`nentries, this`memSize, this`home, this`lists, this`at, this`last
      modifies this`ncleanups, this`ndefragmentations, this`nexpunges, this`ninserts, this`nhits, this`nmisses
      modifies sma`hdr, sma`avail, sma`mem, sma`bs, sma`fl
      ensures Valid() && Held(y, gcTtl, old(State()), State(), now)
      ensures ok ==> k in at && at[k] in rec && last == old(last)[k := val]
      ensures ok ==> rec[at[k]] == Entry(k, val, entryTtl, 0, {}, 0, t, t, 0, t, size)
      ensures !ok ==> last == old(last)
      ensures OthersKept(ttl, old(State()), State(), k, t, nexpunges != old(nexpunges))
      ensures nexpunges != old(nexpunges) ==> !old(Room(size))
      ensures k in old(at) ==> old(at)[k] in old(rec)
      ensures old(Room(size)) && size <= sma.maxAlloc ==>
        (ok <==> locked && !(exclusive && k in old(at) &&
                             (var x := old(rec)[old(at)[k]]; x.ttl == 0 || t <= x.ctime + x.ttl)))
      ensures size > sma.maxAlloc ==> !ok && State() == old(State()) && nexpunges == old(nexpunges)
      ensures old(Ample(size, rivals, t, now)) ==>
        && nexpunges == old(nexpunges)
        && (locked && granted && size <= sma.maxAlloc && (exclusive ==> k !in old(at)) ==> ok)
    {
      hide Sma.Valid, Consistent, Recorded, Owned, Imprinted, Held, Wiped, Survived, Unharmed, Launched, SameKey,
        Flying, Cleaning, Ample, Cleared, Room, NoRefs, Keyed, Referenced, Safe, OthersKept, Others;
      ghost var s0 := State();
      Basics();
      var x := Entry(k, val, entryTtl, 1, {h}, 0, t, t, 0, t, size);
      var e := NewEntry(x, t, now, rivals, granted);
      ghost var s1, wiped := State(), nexpunges != old(nexpunges);
      OthersKeptFrom(y, ttl, s0, s1, k, t, wiped, nexpunges - old(nexpunges));
      NoNewKeys(ttl, s0, s1, t, nexpunges - old(nexpunges));
      if e.None? {
        return false;
      }
      if e.value !in s0.home {
        LaunchedSameKey(y, hash, s0, e.value, x, k);
        SameKeyAt(s0, Launched(y, s0, e.value, x), k);
      }
      ok := Publish(e.value, exclusive, locked, h, x, s0, now, t, wiped);
    }

    /** The second half of apc_cache_store: the new entry is inserted, and then it is released, or freed if
        that was refused or there was no lock for it. */
    method Publish(e: nat, exclusive: bool, locked: bool, h: nat, x: Entry, ghost s0: Tab, now: int, ghost t: int,
                   ghost wiped: bool)
      returns (ok: bool)
      requires Valid() && e in home && home[e] == InFlight(y) && e in rec && rec[e] == x && x.refs == 1
      requires x.holders == {h} && x.ctime == t
      requires Held(y, gcTtl, s0, State(), now) && (forall g :: !Safe(y, gcTtl, s0, e, g, now))
      requires OthersKept(ttl, s0, State(), x.key, t, wiped)
      modifies this`next, this`prev, this`rec, this`nentries, this`memSize, this`ninserts, this`home, this`lists,
        this`at, this`last
      modifies sma`hdr, sma`avail, sma`bs, sma`fl
      ensures Valid() && Held(y, gcTtl, s0, State(), now) && OthersKept(ttl, s0, State(), x.key, t, wiped)
      ensures x.key in old(at) ==> old(at)[x.key] in old(rec)
      ensures ok <==> locked && !(exclusive && x.key in old(at) && !HardExpired(old(rec)[old(at)[x.key]], t))
      ensures ok ==> x.key in at && at[x.key] in rec && rec[at[x.key]] == x.(refs := 0, holders := {})
      ensures last == if ok then old(last)[x.key := x.val] else old(last)
    {
      hide Sma.Valid, Consistent, Recorded, Owned, Imprinted, Held, SameKey, Flying, GcCleaning, GcUpheld, HardExpired,
        Keyed, Referenced, Safe, OthersKept, Others;
      ghost var s1 := State();
      if !locked {
        KeyRecorded(x.key);
        NowFlying(y, s1, e, x);
        GiveUp(e, false, h, x, s0, now, t, wiped);
        return false;
      }
      ok := Insert(e, exclusive, now);
      ghost var s2 := State();
      GcCleaningIs(y, gcTtl, ttl, {x.key}, s1, s2, t, now);
      HeldTrans(y, gcTtl, s0, s1, s2, now);
      OthersKeptCleaning(y, gcTtl, ttl, s0, s1, s2, x.key, t, now, wiped);
      GiveUp(e, ok, h, x, s0, now, t, wiped);
    }

    lemma KeyRecorded(k: string)
      requires Valid()
      ensures k in at ==> at[k] in rec
    {
      Basics();
    }

    /** The end of apc_cache_store: the entry is released, or freed if it could not be inserted. */
    method GiveUp(e: nat, ok: bool, h: nat, x: Entry, ghost s0: Tab, now: int, ghost t: int, ghost wiped: bool)
      requires Valid() && x.refs == 1 && x.holders == {h}
      requires ok ==> x.key in at && at[x.key] == e && e in rec && rec[e] == x
      requires !ok ==> Flying(y, State(), e, x)
      requires Held(y, gcTtl, s0, State(), now) && (forall g :: !Safe(y, gcTtl, s0, e, g, now))
      requires OthersKept(ttl, s0, State(), x.key, t, wiped)
      modifies this`rec, this`home, sma`hdr, sma`avail, sma`bs, sma`fl
      ensures Valid() && Held(y, gcTtl, s0, State(), now) && OthersKept(ttl, s0, State(), x.key, t, wiped)
      ensures ok ==> e in rec && rec[e] == x.(refs := 0, holders := {}) && home == old(home)
    {
      hide Sma.Valid, Consistent, Recorded, Owned, Imprinted, Held, Flying, Keyed, Referenced, Safe, OthersKept, Others;
      ghost var s := State();
      Basics();
      if ok {
        LastValue(x.key);
        assert x.holders - {h} == {};
        ReleaseHeld(e, h);
        WrittenIs(s, e, rec[e]);
        assert State() == Written(s, e, rec[e]);
      } else {
        FlyingIs(y, s, e, x);
        FreeUnlinked(e);
      }
      HeldButOwn(y, gcTtl, s0, s, State(), e, now);
      OthersKeptOwn(y, hash, ttl, s0, s, State(), e, x.key, t, wiped);
    }

    /** When there are no entries at all, an allocation fails only if it does not fit into what the
        header leaves of the segment. */
    lemma RoomWhenEmpty(size: nat)
      requires Valid() && home.Keys == {}
      ensures sma.bs != [] && (Room(size) <==> RealSize(size) <= sma.hi - (sma.first + BLOCK + sma.bs[0].size))
    {
      sma.Tiling();
      EmptyHeap(sma.bs, base, Extent(y), sma.first + BLOCK, sma.hi);
    }

    /** Every allocated block is the header's or one entry's, and that entry is in exactly one slot
        chain, or on the gc list, or being stored and referenced. */
    lemma BlockHasOneOwner(b: Blk) returns (e: nat)
      requires Valid() && b in sma.bs && !b.free && b.off != sma.bs[0].off
      ensures b.off + BLOCK == base + e && e in home && e in rec && Extent(y) <= e && |lists| == y.n + 1
      ensures home[e] <= y.n ==> forall i :: 0 <= i <= y.n ==> (e in lists[i] <==> i == home[e])
      ensures home[e] > y.n ==> home[e] == InFlight(y) && rec[e].refs >= 1 && forall i :: 0 <= i <= y.n ==>
        e !in lists[i]
      ensures forall d :: d in home && b.off + BLOCK == base + d ==> d == e
    {
      e := OwnerOf(sma.bs, base, Extent(y), home.Keys, b);
      assert Housed(y, home, lists) && Referenced(y, rec, home);
      hide Consistent, Owned, Imprinted, Recorded, Sma.Valid;
      forall i | 0 <= i <= y.n && e in lists[i] ensures home[e] == i {
        Member(y, home, lists, i, e);
      }
    }
  }
}
