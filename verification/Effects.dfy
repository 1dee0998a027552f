/**
 What an operation may do to the entries of the cache, seen from outside.

 Which keys may vanish and why: Purged (only expired ones), Survived (exactly the expired ones),
 Wiped (all). What happens to an entry that somebody references: Held. What a single removal
 leaves alone: Others, OtherLists. What a defragmentation may change: Relocated. Each of them
 can be chained, so that loops can be followed round by round.
 */
module Effects {
  import opened Basics
  import opened Chains
  import opened Table
  import opened Entries

  /** Entries vanish only because they are expired at t; the others stay as they are, where they
      are. Nothing is said about the key in but. */
  ghost predicate Purged(ttl: int, but: set<string>, s: Tab, s': Tab, t: int) {
    && (forall k :: k in s'.at && k !in but ==> k in s.at && s'.at[k] == s.at[k])
    && (forall k :: k in s'.at && k !in but ==>
          s'.at[k] in s.rec && s'.at[k] in s'.rec && s'.rec[s'.at[k]] == s.rec[s'.at[k]])
    && (forall k :: k in s.at && k !in s'.at && k !in but ==> s.at[k] in s.rec && Expired(ttl, s.rec[s.at[k]], t))
  }

  lemma PurgedTrans(ttl: int, but: set<string>, s: Tab, s': Tab, s'': Tab, t: int)
    requires Purged(ttl, but, s, s', t) && Purged(ttl, but, s', s'', t)
    ensures Purged(ttl, but, s, s'', t)
  {
    forall k | k in s.at && k !in s''.at && k !in but ensures s.at[k] in s.rec && Expired(ttl, s.rec[s.at[k]], t) {
      if k in s'.at {
        assert s'.at[k] == s.at[k];
      }
    }
  }

  /** An entry on the gc list is given up although it is referenced, because it has been there
      for more than gc_ttl seconds. */
  predicate GivenUp(gcTtl: int, x: Entry, now: int) {
    gcTtl != 0 && now - x.dtime > gcTtl
  }

  /** At time now, h holds a reference to entry e that is safe. */
  predicate Safe(y: Layout, gcTtl: int, s: Tab, e: nat, h: nat, now: int) {
    e in s.rec && e in s.home && h in s.rec[e].holders && !(s.home[e] == OnGc(y) && GivenUp(gcTtl, s.rec[e], now))
  }

  /** The same entry, though its integer value may have been updated. */
  predicate SameHeld(x: Entry, x': Entry) {
    x'.key == x.key && x'.memSize == x.memSize && (x'.val == x.val || (x.val.Long? && x'.val.Long?))
  }

  /** Where an entry may go while it is held: nowhere, or from a slot to the gc list. One that is
      being stored may be linked. */
  predicate MayGo(y: Layout, i: nat, j: nat) {
    j == i || (i < OnGc(y) && j == OnGc(y)) || (i >= InFlight(y) && j <= OnGc(y))
  }

  /** The time at which an entry came to the gc list is noted. */
  predicate Noted(y: Layout, i: nat, x: Entry, j: nat, x': Entry, now: int) {
    && (j == i ==> x'.dtime == x.dtime)
    && (i != OnGc(y) && j == OnGc(y) ==> x'.dtime == now)
  }

  predicate HeldAt(y: Layout, gcTtl: int, s: Tab, s': Tab, e: nat, h: nat, now: int) {
    Safe(y, gcTtl, s, e, h, now) ==>
      && Safe(y, gcTtl, s', e, h, now) && SameHeld(s.rec[e], s'.rec[e]) && MayGo(y, s.home[e], s'.home[e])
      && Noted(y, s.home[e], s.rec[e], s'.home[e], s'.rec[e], now)
  }

  /** What is held safely is neither freed nor moved. */
  ghost predicate Held(y: Layout, gcTtl: int, s: Tab, s': Tab, now: int) {
    forall e, h :: HeldAt(y, gcTtl, s, s', e, h, now)
  }

  lemma HeldRefl(y: Layout, gcTtl: int, s: Tab, now: int)
    ensures Held(y, gcTtl, s, s, now)
  {
  }

  lemma HeldTrans(y: Layout, gcTtl: int, s: Tab, s': Tab, s'': Tab, now: int)
    requires Held(y, gcTtl, s, s', now) && Held(y, gcTtl, s', s'', now)
    ensures Held(y, gcTtl, s, s'', now)
  {
    forall e, h ensures HeldAt(y, gcTtl, s, s'', e, h, now) {
      assert HeldAt(y, gcTtl, s, s', e, h, now) && HeldAt(y, gcTtl, s', s'', e, h, now);
    }
  }

  predicate Holds(s: Tab, e: nat, h: nat) {
    e in s.rec && e in s.home && h in s.rec[e].holders
  }

  /** At time now, the gc would give up entry e although it is referenced. */
  predicate Late(y: Layout, gcTtl: int, s: Tab, e: nat, now: int) {
    e in s.rec && e in s.home && s.home[e] == OnGc(y) && GivenUp(gcTtl, s.rec[e], now)
  }

  /** No reference comes into being, and what is referenced on the gc list stays there. */
  ghost predicate NoneNew(y: Layout, s: Tab, s': Tab) {
    forall e, h :: Holds(s', e, h) ==>
      && Holds(s, e, h)
      && (s.home[e] == OnGc(y) ==> s'.home[e] == OnGc(y) && s'.rec[e].dtime == s.rec[e].dtime)
  }

  /** What an operation does to references that does not collect: nothing, however long they last. */
  ghost predicate Upheld(y: Layout, s: Tab, s': Tab, now: int) {
    Held(y, 0, s, s', now) && NoneNew(y, s, s')
  }

  lemma UpheldRefl(y: Layout, s: Tab, now: int)
    ensures Upheld(y, s, s, now)
  {
  }

  lemma UpheldTrans(y: Layout, s: Tab, s': Tab, s'': Tab, now: int)
    requires Upheld(y, s, s', now) && Upheld(y, s', s'', now)
    ensures Upheld(y, s, s'', now)
  {
    HeldTrans(y, 0, s, s', s'', now);
    hide Held;
  }

  lemma UpheldHeld(y: Layout, gcTtl: int, s: Tab, s': Tab, now: int)
    requires Upheld(y, s, s', now) && gcTtl >= 0
    ensures Held(y, gcTtl, s, s', now)
  {
    forall e, h ensures HeldAt(y, gcTtl, s, s', e, h, now) {
      assert HeldAt(y, 0, s, s', e, h, now);
    }
  }

  /** What is referenced, but given up, is gone. */
  ghost predicate Collected(y: Layout, gcTtl: int, s: Tab, s': Tab, now: int) {
    forall e, h :: Holds(s, e, h) && Late(y, gcTtl, s, e, now) ==> !Holds(s', e, h)
  }

  /** What an operation does to references that collects: those and only those are lost that are given
      up. */
  ghost predicate GcUpheld(y: Layout, gcTtl: int, s: Tab, s': Tab, now: int) {
    Held(y, gcTtl, s, s', now) && NoneNew(y, s, s') && Collected(y, gcTtl, s, s', now)
  }

  lemma GcUpheldIs(y: Layout, gcTtl: int, s: Tab, s': Tab, now: int)
    requires GcUpheld(y, gcTtl, s, s', now)
    ensures Held(y, gcTtl, s, s', now)
  {
  }

  lemma GcUpheldThen(y: Layout, gcTtl: int, s: Tab, s': Tab, s'': Tab, now: int)
    requires GcUpheld(y, gcTtl, s, s', now) && Upheld(y, s', s'', now) && gcTtl >= 0
    ensures GcUpheld(y, gcTtl, s, s'', now)
  {
    UpheldHeld(y, gcTtl, s', s'', now);
    HeldTrans(y, gcTtl, s, s', s'', now);
    hide Held, Late;
  }

  lemma UpheldThenGc(y: Layout, gcTtl: int, s: Tab, s': Tab, s'': Tab, now: int)
    requires Upheld(y, s, s', now) && GcUpheld(y, gcTtl, s', s'', now) && gcTtl >= 0
    ensures GcUpheld(y, gcTtl, s, s'', now)
  {
    UpheldHeld(y, gcTtl, s, s', now);
    HeldTrans(y, gcTtl, s, s', s'', now);
    forall e, h | Holds(s, e, h) && Late(y, gcTtl, s, e, now) ensures !Holds(s'', e, h) {
      assert HeldAt(y, 0, s, s', e, h, now);
      assert Late(y, gcTtl, s', e, now);
    }
    hide Held, Late;
  }

  /** What is left was there before, and what has left its list for the gc list is referenced. */
  ghost predicate Remains(s: Tab, s': Tab) {
    forall e :: e in s'.home && e in s'.rec ==>
      e in s.home && e in s.rec && SameBut(s.rec[e], s'.rec[e]) && (s'.home[e] == s.home[e] || s.rec[e].refs > 0)
  }

  predicate SameBut(x: Entry, x': Entry) {
    x' == x.(dtime := x'.dtime)
  }

  lemma RemainsTrans(s: Tab, s': Tab, s'': Tab)
    requires Remains(s, s') && Remains(s', s'') && s'.home.Keys == s'.rec.Keys
    ensures Remains(s, s'')
  {
  }

  ghost predicate OtherLists(y: Layout, s: Tab, s': Tab, i: nat) {
    |s.lists| == |s'.lists| == y.n + 1 && forall j :: 0 <= j < y.n && j != i ==> s'.lists[j] == s.lists[j]
  }

  // ---- the steps

  /** Entries other than e are untouched. */
  ghost predicate Others(s: Tab, s': Tab, e: nat) {
    && (forall o :: o in s.home && o != e ==> o in s'.home && s'.home[o] == s.home[o])
    && (forall o :: o in s.rec && o != e ==> o in s'.rec && s'.rec[o] == s.rec[o])
    && s'.rec.Keys <= s.rec.Keys + {e} && s'.home.Keys <= s.home.Keys + {e}
  }

  lemma OthersHeld(y: Layout, gcTtl: int, s: Tab, s': Tab, e: nat, now: int)
    requires Others(s, s', e) && forall h :: HeldAt(y, gcTtl, s, s', e, h, now)
    ensures Held(y, gcTtl, s, s', now)
  {
    forall o, h ensures HeldAt(y, gcTtl, s, s', o, h, now) {
    }
  }

  lemma OthersPurged(y: Layout, hash: string -> nat, ttl: int, but: set<string>, s: Tab, s': Tab, e: nat, t: int)
    requires Keyed(y, hash, s.rec, s.home, s.at) && Others(s, s', e) && e in s.home && s.home[e] < y.n
    requires s'.at == s.at - {s.rec[e].key} && (s.rec[e].key in but || Expired(ttl, s.rec[e], t))
    ensures Purged(ttl, but, s, s', t)
  {
    hide Expired, Slot;
    assert s.at[s.rec[e].key] == e;
    forall k | k in s'.at ensures s.at[k] != e {
    }
  }

  lemma DroppedIs(y: Layout, s: Tab, pre: seq<nat>, e: nat, post: seq<nat>)
    requires e in s.rec && e in s.home && s.home[e] < |s.lists| == y.n + 1
    ensures var s' := Dropped(s, pre, e, post);
            && Others(s, s', e) && s'.at == s.at - {s.rec[e].key} && s'.lists[s.home[e]] == pre + post
            && Remains(s, s') && OtherLists(y, s, s', s.home[e]) && e !in s'.rec
  {
    hide UnlinkNext, UnlinkPrev;
  }

  lemma ParkedIs(y: Layout, s: Tab, pre: seq<nat>, e: nat, post: seq<nat>, now: int)
    requires e in s.rec && e in s.home && s.home[e] < y.n && |s.lists| == y.n + 1
    ensures var s' := Parked(y, s, pre, e, post, now);
            && Others(s, s', e) && s'.at == s.at - {s.rec[e].key} && s'.lists[s.home[e]] == pre + post
            && e in s'.rec && e in s'.home && s'.rec[e] == s.rec[e].(dtime := now) && s'.home[e] == OnGc(y)
            && (s.rec[e].refs > 0 ==> Remains(s, s')) && OtherLists(y, s, s', s.home[e])
  {
    hide UnlinkNext, UnlinkPrev, LinkNext, LinkPrev;
  }

  lemma ParkedHeld(y: Layout, gcTtl: int, s: Tab, s': Tab, e: nat, h: nat, now: int)
    requires e in s.rec && e in s.home && s.home[e] < y.n && gcTtl >= 0
    requires e in s'.rec && e in s'.home && s'.rec[e] == s.rec[e].(dtime := now) && s'.home[e] == OnGc(y)
    ensures HeldAt(y, gcTtl, s, s', e, h, now)
  {
  }

  lemma UnheldHeld(y: Layout, gcTtl: int, s: Tab, s': Tab, e: nat, h: nat, now: int)
    requires e in s.rec ==> s.rec[e].holders == {}
    ensures HeldAt(y, gcTtl, s, s', e, h, now)
  {
  }

  lemma OthersNoneNew(y: Layout, s: Tab, s': Tab, e: nat)
    requires Others(s, s', e) && (e in s.home ==> s.home[e] != OnGc(y))
    requires e in s'.rec && e in s'.home ==> e in s.rec && e in s.home && s'.rec[e].holders <= s.rec[e].holders
    ensures NoneNew(y, s, s')
  {
  }

  lemma ConsistentParts(y: Layout, hash: string -> nat, s: Tab)
    requires Consistent(y, hash, s)
    ensures Sane(y) && |s.lists| == y.n + 1 && Keyed(y, hash, s.rec, s.home, s.at) && Referenced(y, s.rec, s.home)
    ensures s.rec.Keys == s.home.Keys
  {
  }

  lemma LinkedPart(y: Layout, hash: string -> nat, s: Tab, e: nat)
    requires Consistent(y, hash, s) && e in s.home
    ensures Linked(y, s.next, s.prev, s.home, s.lists) && Extent(y) <= e
  {
  }

  /** What apc_cache_wlocked_remove_entry does. */
  lemma RemoveEffect(y: Layout, hash: string -> nat, s: Tab, pre: seq<nat>, e: nat, post: seq<nat>, now: int)
    requires Consistent(y, hash, s) && e in s.home && s.home[e] < |s.lists| && s.home[e] < y.n
    requires s.lists[s.home[e]] == pre + [e] + post
    ensures e in s.rec && |s.lists| == y.n + 1 && s.nentries > 0 && s.memSize > 0
    ensures var s' := Removed(y, s, pre, e, post, now);
            && Consistent(y, hash, s') && Others(s, s', e) && s'.at == s.at - {s.rec[e].key} && Upheld(y, s, s', now)
            && s'.lists[s.home[e]] == pre + post && Remains(s, s') && OtherLists(y, s, s', s.home[e])
  {
    hide Consistent, Keyed, Referenced, Others, HeldAt, Remains, OtherLists, Parked, Dropped, Held, Safe, SameHeld,
      MayGo, NoneNew;
    ConsistentParts(y, hash, s);
    var s' := Removed(y, s, pre, e, post, now);
    if s.rec[e].refs <= 0 {
      Drop(y, hash, s, pre, e, post);
      DroppedIs(y, s, pre, e, post);
      forall h ensures HeldAt(y, 0, s, s', e, h, now) { UnheldHeld(y, 0, s, s', e, h, now); }
    } else {
      Park(y, hash, s, pre, e, post, now);
      ParkedIs(y, s, pre, e, post, now);
      forall h ensures HeldAt(y, 0, s, s', e, h, now) { ParkedHeld(y, 0, s, s', e, h, now); }
    }
    OthersHeld(y, 0, s, s', e, now);
    OthersNoneNew(y, s, s', e);
  }

  /** apc_cache_wlocked_gc lets entry x stay on the gc list. */
  predicate Stays(gcTtl: int, x: Entry, now: int) {
    x.refs > 0 && (if gcTtl != 0 then now - x.dtime else 0) <= gcTtl
  }

  /** What the gc does to one entry of the list. */
  lemma SweepEffect(y: Layout, hash: string -> nat, gcTtl: int, s: Tab, pre: seq<nat>, e: nat, post: seq<nat>, now: int)
    requires Consistent(y, hash, s) && |s.lists| == y.n + 1 && s.lists[y.n] == pre + [e] + post && gcTtl >= 0
    requires e in s.rec && !Stays(gcTtl, s.rec[e], now)
    ensures var s' := Swept(y, s, pre, e, post);
            && Consistent(y, hash, s') && Others(s, s', e) && s'.at == s.at && Held(y, gcTtl, s, s', now)
            && s'.lists == s.lists[y.n := pre + post] && e !in s'.rec && e in s.home
  {
    ConsistentParts(y, hash, s);
    var s' := Swept(y, s, pre, e, post);
    hide Consistent, Keyed, Referenced, Others, HeldAt, Swept, Held, Safe, SameHeld, MayGo, Stays;
    Sweep(y, hash, s, pre, e, post);
    OthersHeld(y, gcTtl, s, s', e, now);
  }

  /** The entries of the gc list that stay there, in order. */
  function Staying(gcTtl: int, rec: Records, l: seq<nat>, now: int): seq<nat> {
    if l == [] then []
    else if l[0] in rec && Stays(gcTtl, rec[l[0]], now) then [l[0]] + Staying(gcTtl, rec, l[1..], now)
    else Staying(gcTtl, rec, l[1..], now)
  }

  lemma {:induction false} StayingSnoc(gcTtl: int, rec: Records, l: seq<nat>, e: nat, now: int)
    ensures Staying(gcTtl, rec, l + [e], now) ==
      Staying(gcTtl, rec, l, now) + if e in rec && Stays(gcTtl, rec[e], now) then [e] else []
  {
    hide Stays;
    if l == [] {
      assert [] + [e] == [e] && [e][1..] == [];
    } else {
      assert (l + [e])[0] == l[0] && (l + [e])[1..] == l[1..] + [e];
      StayingSnoc(gcTtl, rec, l[1..], e, now);
    }
  }

  lemma {:induction false} StayingIff(gcTtl: int, rec: Records, l: seq<nat>, e: nat, now: int)
    requires gcTtl >= 0
    ensures e in Staying(gcTtl, rec, l, now) <==>
      e in l && e in rec && rec[e].refs > 0 && (gcTtl == 0 || now - rec[e].dtime <= gcTtl)
  {
    if l != [] {
      StayingIff(gcTtl, rec, l[1..], e, now);
    }
  }

  /** An entry that is about to be unlinked. */
  lemma UnlinkReady(y: Layout, hash: string -> nat, s: Tab, i: nat, pre: seq<nat>, e: nat, post: seq<nat>)
    requires Consistent(y, hash, s) && i <= y.n && |s.lists| == y.n + 1 && s.lists[i] == pre + [e] + post
    ensures e in s.next && e in s.prev && s.prev[e] != e && e in s.home && s.home[e] == i && e in s.rec && e != y.gc
    ensures y.gc in UnlinkNext(s.next, s.prev, e)
  {
    assert Linked(y, s.next, s.prev, s.home, s.lists) && Sane(y) && s.rec.Keys == s.home.Keys;
    hide Consistent, Linked;
    Unlink(y, s.next, s.prev, s.home, s.lists, i, pre, e, post);
    EntryIsNoCell(y, s.next, s.prev, s.home, s.lists, i, pre, e, post);
    AtCell(y, s.next, s.prev, s.home, s.lists, y.n, [], s.lists[y.n]) by { assert s.lists[y.n] == [] + s.lists[y.n]; }
  }

  lemma EntryIsNoCell(y: Layout, next: Links, prev: Links, home: Homes, lists: seq<seq<nat>>, i: nat, pre: seq<nat>,
                      e: nat, post: seq<nat>)
    requires Linked(y, next, prev, home, lists) && i <= y.n && lists[i] == pre + [e] + post
    ensures Last(Head(y, i), pre) != e && e != y.gc
  {
    OwnCells(y, home, lists, i);
    hide Linked;
    Apart(Head(y, i), pre, [e], post);
    assert e in lists[i] && e in [e];
  }

  // ---- the gc

  /** Entries that are not on the gc list are untouched, and none of the others is new or changed. */
  ghost predicate GcOnly(y: Layout, s: Tab, s': Tab) {
    && (forall e :: e in s.home && s.home[e] != OnGc(y) ==> e in s'.home)
    && (forall e :: e in s'.home ==> e in s.home && s'.home[e] == s.home[e])
    && (forall e :: e in s'.rec ==> e in s.rec && s'.rec[e] == s.rec[e])
    && s'.at == s.at
  }

  lemma GcHead(y: Layout)
    ensures y.gc == Last(Head(y, y.n), [])
  {
  }

  /** The gc has been through done, kept pre, and has rest before it. */
  ghost predicate Collecting(y: Layout, gcTtl: int, s0: Tab, s: Tab, done: seq<nat>, pre: seq<nat>, rest: seq<nat>,
                             now: int) {
    && |s0.lists| == y.n + 1 && s0.lists[y.n] == done + rest && s.lists == s0.lists[y.n := pre + rest]
    && pre == Staying(gcTtl, s0.rec, done, now)
    && Held(y, gcTtl, s0, s, now) && GcOnly(y, s0, s)
  }

  lemma CollectStart(y: Layout, gcTtl: int, s: Tab, now: int)
    requires |s.lists| == y.n + 1
    ensures Collecting(y, gcTtl, s, s, [], [], s.lists[y.n], now)
  {
    assert [] + s.lists[y.n] == s.lists[y.n];
  }

  lemma CollectKeep(y: Layout, gcTtl: int, s0: Tab, s: Tab, done: seq<nat>, pre: seq<nat>, rest: seq<nat>, now: int)
    requires Collecting(y, gcTtl, s0, s, done, pre, rest, now) && rest != [] && rest[0] in s.rec
    requires Stays(gcTtl, s.rec[rest[0]], now)
    ensures Collecting(y, gcTtl, s0, s, done + [rest[0]], pre + [rest[0]], rest[1..], now)
  {
    StayingSnoc(gcTtl, s0.rec, done, rest[0], now);
    hide Held, Staying, Stays;
    Uncons(done, rest);
    Uncons(pre, rest);
  }

  lemma Uncons(a: seq<nat>, b: seq<nat>)
    requires b != []
    ensures a + [b[0]] + b[1..] == a + b
  {
  }

  lemma CollectSweep(y: Layout, gcTtl: int, s0: Tab, s: Tab, s': Tab, done: seq<nat>, pre: seq<nat>, rest: seq<nat>,
                     now: int)
    requires Collecting(y, gcTtl, s0, s, done, pre, rest, now) && rest != [] && rest[0] in s.rec
    requires !Stays(gcTtl, s.rec[rest[0]], now)
    requires rest[0] in s.home && s.home[rest[0]] == OnGc(y) && s.rec.Keys == s.home.Keys && s'.rec.Keys == s'.home.Keys
    requires Others(s, s', rest[0]) && s'.at == s.at && Held(y, gcTtl, s, s', now) && rest[0] !in s'.rec
    requires s'.lists == s.lists[y.n := pre + rest[1..]]
    ensures Collecting(y, gcTtl, s0, s', done + [rest[0]], pre, rest[1..], now)
  {
    StayingSnoc(gcTtl, s0.rec, done, rest[0], now);
    HeldTrans(y, gcTtl, s0, s, s', now);
    hide Held, Staying, Stays;
    Uncons(done, rest);
    assert s0.lists[y.n := pre + rest][y.n := pre + rest[1..]] == s0.lists[y.n := pre + rest[1..]];
    assert forall e :: e in s'.home ==> e != rest[0];
  }

  lemma CollectDone(y: Layout, gcTtl: int, s0: Tab, s: Tab, done: seq<nat>, pre: seq<nat>, now: int)
    requires Collecting(y, gcTtl, s0, s, done, pre, [], now)
    ensures s.lists == s0.lists[y.n := Staying(gcTtl, s0.rec, s0.lists[y.n], now)]
    ensures GcOnly(y, s0, s) && Held(y, gcTtl, s0, s, now)
  {
    assert done + [] == done && pre + [] == pre;
  }

  lemma RemainsRefl(s: Tab)
    requires s.home.Keys == s.rec.Keys
    ensures Remains(s, s)
  {
  }

  lemma OtherListsTrans(y: Layout, s: Tab, s': Tab, s'': Tab, i: nat)
    requires OtherLists(y, s, s', i) && OtherLists(y, s', s'', i)
    ensures OtherLists(y, s, s'', i)
  {
  }

  lemma OtherListsRefl(y: Layout, s: Tab, i: nat)
    requires |s.lists| == y.n + 1
    ensures OtherLists(y, s, s, i)
  {
  }

  lemma OtherListsSame(y: Layout, s: Tab, s': Tab, i: nat)
    requires OtherLists(y, s, s', i)
    ensures |s.lists| == |s'.lists| == y.n + 1 && forall j :: 0 <= j < i && j < y.n ==> s'.lists[j] == s.lists[j]
  {
  }

  // ---- the empty cache

  /** When all slots are empty, no key has an entry and the counters are zero. */
  lemma AllEmpty(y: Layout, hash: string -> nat, s: Tab)
    requires Consistent(y, hash, s) && forall i :: 0 <= i < y.n ==> s.lists[i] == []
    ensures s.at == map[] && s.nentries == 0 && s.memSize == 0
  {
    NothingCounted(s.rec, s.lists, y.n);
    forall k ensures k !in s.at {
      if k in s.at {
        KeyHoused(y, hash, s, k);
      }
    }
  }

  /** Where the entry of a key is. */
  lemma KeyHoused(y: Layout, hash: string -> nat, s: Tab, k: string)
    requires Consistent(y, hash, s) && k in s.at
    ensures var i := Slot(y, hash, k);
            i < |s.lists| && s.at[k] in s.lists[i] && s.at[k] in s.rec && s.rec[s.at[k]].key ==
              k && s.at[k] in s.home && s.home[s.at[k]] == i
  {
  }

  // ---- cleaning up expired entries

  /** From s0 to s nothing happened but the removal of expired entries and the key in but. */
  ghost predicate Cleaning(y: Layout, ttl: int, but: set<string>, s0: Tab, s: Tab, t: int, now: int) {
    Purged(ttl, but, s0, s, t) && Upheld(y, s0, s, now)
  }

  lemma CleaningStart(y: Layout, hash: string -> nat, ttl: int, but: set<string>, s: Tab, t: int, now: int)
    requires Keyed(y, hash, s.rec, s.home, s.at)
    ensures Cleaning(y, ttl, but, s, s, t, now)
  {
    UpheldRefl(y, s, now);
  }

  lemma CleaningStep(y: Layout, hash: string -> nat, ttl: int, but: set<string>, s0: Tab, s: Tab, s': Tab, e: nat,
                     t: int, now: int)
    requires Cleaning(y, ttl, but, s0, s, t, now)
    requires Keyed(y, hash, s.rec, s.home, s.at) && Others(s, s', e) && e in s.home && s.home[e] < y.n
    requires s'.at == s.at - {s.rec[e].key} && (s.rec[e].key in but || Expired(ttl, s.rec[e], t))
    requires Upheld(y, s, s', now)
    ensures Cleaning(y, ttl, but, s0, s', t, now)
  {
    OthersPurged(y, hash, ttl, but, s, s', e, t);
    hide Upheld, Purged, Others, Keyed;
    PurgedTrans(ttl, but, s0, s, s', t);
    UpheldTrans(y, s0, s, s', now);
  }

  lemma CleaningTrans(y: Layout, ttl: int, but: set<string>, s: Tab, s': Tab, s'': Tab, t: int, now: int)
    requires Cleaning(y, ttl, but, s, s', t, now) && Cleaning(y, ttl, but, s', s'', t, now)
    ensures Cleaning(y, ttl, but, s, s'', t, now)
  {
    hide Upheld, Purged;
    PurgedTrans(ttl, but, s, s', s'', t);
    UpheldTrans(y, s, s', s'', now);
  }

  /** None of the entries l is expired. */
  ghost predicate Alive(ttl: int, s: Tab, l: seq<nat>, t: int) {
    forall e :: e in l ==> e in s.rec && !Expired(ttl, s.rec[e], t)
  }

  lemma NothingAlive(ttl: int, s: Tab, t: int)
    ensures Alive(ttl, s, [], t)
  {
  }

  lemma AliveSnoc(ttl: int, s: Tab, l: seq<nat>, e: nat, t: int)
    requires Alive(ttl, s, l, t) && e in s.rec && !Expired(ttl, s.rec[e], t)
    ensures Alive(ttl, s, l + [e], t)
  {
  }

  lemma AliveOthers(ttl: int, s: Tab, s': Tab, l: seq<nat>, e: nat, t: int)
    requires Alive(ttl, s, l, t) && Others(s, s', e) && e !in l
    ensures Alive(ttl, s', l, t)
  {
    hide Expired;
  }

  /** In the chain l, no expired entry stands before e. */
  ghost predicate CleanBefore(ttl: int, s: Tab, l: seq<nat>, e: nat, t: int) {
    exists i :: 0 <= i < |l| && l[i] == e && Alive(ttl, s, l[..i], t)
  }

  lemma IsCleanBefore(ttl: int, s: Tab, pre: seq<nat>, e: nat, post: seq<nat>, t: int)
    requires Alive(ttl, s, pre, t)
    ensures CleanBefore(ttl, s, pre + [e] + post, e, t)
  {
    hide Alive;
    assert (pre + [e] + post)[..|pre|] == pre && (pre + [e] + post)[|pre|] == e;
  }

  lemma AliveSame(ttl: int, s: Tab, s': Tab, l: seq<nat>, t: int)
    requires Alive(ttl, s, l, t) && s'.rec == s.rec
    ensures Alive(ttl, s', l, t)
  {
    hide Expired;
  }

  /** No key of the first i slots has an expired entry. */
  ghost predicate Cleaned(y: Layout, hash: string -> nat, ttl: int, s: Tab, i: nat, t: int)
    requires Sane(y)
  {
    forall k :: k in s.at && Slot(y, hash, k) < i ==> s.at[k] in s.rec && !Expired(ttl, s.rec[s.at[k]], t)
  }

  lemma CleanedNext(y: Layout, hash: string -> nat, ttl: int, s: Tab, s': Tab, i: nat, t: int)
    requires Sane(y) && Cleaned(y, hash, ttl, s, i, t) && Purged(ttl, {}, s, s', t) && i < y.n
    requires Consistent(y, hash, s') && i < |s'.lists| && Alive(ttl, s', s'.lists[i], t)
    ensures Cleaned(y, hash, ttl, s', i + 1, t)
  {
    hide Consistent, Expired;
    forall k | k in s'.at && Slot(y, hash, k) < i + 1 ensures s'.at[k] in s'.rec && !Expired(ttl, s'.rec[s'.at[k]], t) {
      if Slot(y, hash, k) == i {
        KeyHoused(y, hash, s', k);
      }
    }
  }

  /** An entry is in its list only once. */
  lemma NotBefore(y: Layout, hash: string -> nat, s: Tab, i: nat, pre: seq<nat>, e: nat, post: seq<nat>)
    requires Consistent(y, hash, s) && i < |s.lists| && s.lists[i] == pre + [e] + post
    ensures e !in pre
  {
    assert Distinct(s.lists[i]);
    hide Consistent;
    DistinctConcat(pre + [e], post);
    DistinctConcat(pre, [e]);
    assert e in [e];
  }

  // ---- moving entries

  /** List l' holds the same records as l, in the same order. */
  ghost predicate SameRecords(rec: Records, l: seq<nat>, rec': Records, l': seq<nat>) {
    |l| == |l'| && forall j :: 0 <= j < |l| ==> l[j] in rec && l'[j] in rec' && rec'[l'[j]] == rec[l[j]]
  }

  /** Every list is the same sequence of records, and every key has the same record. */
  ghost predicate Relocated(s: Tab, s': Tab) {
    && |s.lists| == |s'.lists|
    && (forall i :: 0 <= i < |s.lists| ==> SameRecords(s.rec, s.lists[i], s'.rec, s'.lists[i]))
    && s.at.Keys == s'.at.Keys
    && (forall k :: k in s.at ==> s.at[k] in s.rec && s'.at[k] in s'.rec && s'.rec[s'.at[k]] == s.rec[s.at[k]])
    && s'.nentries == s.nentries && s'.memSize == s.memSize
  }

  lemma RelocatedTrans(s: Tab, s': Tab, s'': Tab)
    requires Relocated(s, s') && Relocated(s', s'')
    ensures Relocated(s, s'')
  {
    forall i | 0 <= i < |s.lists| ensures SameRecords(s.rec, s.lists[i], s''.rec, s''.lists[i]) {
      assert SameRecords(s.rec, s.lists[i], s'.rec, s'.lists[i]);
      assert SameRecords(s'.rec, s'.lists[i], s''.rec, s''.lists[i]);
    }
  }

  lemma RelocatedRefl(y: Layout, hash: string -> nat, s: Tab)
    requires Consistent(y, hash, s)
    ensures Relocated(s, s)
  {
    forall i | 0 <= i < |s.lists| ensures SameRecords(s.rec, s.lists[i], s.rec, s.lists[i]) {
      forall j | 0 <= j < |s.lists[i]| ensures s.lists[i][j] in s.rec {
        assert s.lists[i][j] in s.lists[i];
      }
    }
  }

  lemma SameElsewhere(rec: Records, l: seq<nat>, o: nat, n: nat)
    requires o in rec && forall e :: e in l ==> e in rec && e != o && e != n
    ensures SameRecords(rec, l, (rec - {o})[n := rec[o]], l)
  {
  }

  lemma SameHere(rec: Records, pre: seq<nat>, o: nat, n: nat, post: seq<nat>)
    requires o in rec && forall e :: e in pre || e in post ==> e in rec && e != o && e != n
    ensures SameRecords(rec, pre + [o] + post, (rec - {o})[n := rec[o]], pre + [n] + post)
  {
  }

  lemma ListedRecords(y: Layout, hash: string -> nat, s: Tab, i: nat, n: nat)
    requires Consistent(y, hash, s) && i < |s.lists| && n !in s.home
    ensures forall e :: e in s.lists[i] ==> e in s.rec && e != n && e in s.home && s.home[e] == i
  {
    forall e | e in s.lists[i] ensures e in s.rec && e != n && e in s.home && s.home[e] == i {
      Member(y, s.home, s.lists, i, e);
    }
  }

  /** No list but the one at home[o] has o in it, and none has n. */
  lemma ShiftLists(y: Layout, hash: string -> nat, s: Tab, pre: seq<nat>, o: nat, n: nat, post: seq<nat>, i: nat)
    requires Consistent(y, hash, s) && o in s.home && s.home[o] <= y.n && s.home[o] < |s.lists|
    requires s.lists[s.home[o]] == pre + [o] + post
    requires n !in s.home && i < |s.lists| && o in s.rec
    ensures SameRecords(s.rec, s.lists[i], (s.rec - {o})[n := s.rec[o]], s.lists[s.home[o] := pre + [n] + post][i])
  {
    hide *;
    ListedRecords(y, hash, s, i, n);
    if i == s.home[o] {
      NotBefore(y, hash, s, i, pre, o, post);
      NotAfter(y, hash, s, i, pre, o, post);
      SameHere(s.rec, pre, o, n, post);
    } else {
      SameElsewhere(s.rec, s.lists[i], o, n);
    }
  }

  lemma NotAfter(y: Layout, hash: string -> nat, s: Tab, i: nat, pre: seq<nat>, e: nat, post: seq<nat>)
    requires Consistent(y, hash, s) && i < |s.lists| && s.lists[i] == pre + [e] + post
    ensures e !in post
  {
    assert Distinct(s.lists[i]);
    hide Consistent;
    DistinctConcat(pre + [e], post);
    assert e in pre + [e];
  }

  lemma ShiftKeys(y: Layout, hash: string -> nat, s: Tab, o: nat, n: nat, at': map<string, nat>)
    requires Keyed(y, hash, s.rec, s.home, s.at) && o in s.home && n !in s.home
    requires at' == if s.home[o] < y.n then s.at[s.rec[o].key := n] else s.at
    ensures var rec' := (s.rec - {o})[n := s.rec[o]];
            s.at.Keys == at'.Keys && forall k :: k in s.at ==>
              s.at[k] in s.rec && at'[k] in rec' && rec'[at'[k]] == s.rec[s.at[k]]
  {
    hide Slot;
    var k0 := s.rec[o].key;
    assert s.home[o] < y.n ==> k0 in s.at && s.at[k0] == o;
    assert forall k :: k in s.at && s.at[k] == o ==> s.home[o] < y.n && k == k0;
  }

  lemma ShiftHeld(y: Layout, s: Tab, s': Tab, o: nat, n: nat, now: int)
    requires Referenced(y, s.rec, s.home) && o in s.rec && o in s.home && s.rec[o].refs <= 0 && n !in s.home
    requires s'.rec == (s.rec - {o})[n := s.rec[o]] && s'.home == (s.home - {o})[n := s.home[o]]
    ensures Upheld(y, s, s', now)
  {
    assert s.rec[o].holders == {};
    forall e, h ensures HeldAt(y, 0, s, s', e, h, now) {
    }
  }

  /** Moving an entry that nobody references changes nothing that can be observed. */
  lemma ShiftEffect(y: Layout, hash: string -> nat, s: Tab, pre: seq<nat>, o: nat, n: nat, post: seq<nat>, now: int)
    requires Consistent(y, hash, s) && o in s.home && s.home[o] <= y.n && s.home[o] < |s.lists|
    requires s.lists[s.home[o]] == pre + [o] + post
    requires n !in s.home && Extent(y) <= n && o in s.rec && s.rec[o].refs <= 0
    ensures var s' := Shifted(y, s, pre, o, n, post);
            && Consistent(y, hash, s') && Relocated(s, s') && Upheld(y, s, s', now)
  {
    hide Consistent, Keyed, Referenced, Held, Upheld, SameRecords, MoveNext, MovePrev, Extent;
    Shift(y, hash, s, pre, o, n, post);
    ConsistentParts(y, hash, s);
    var s' := Shifted(y, s, pre, o, n, post);
    ShiftKeys(y, hash, s, o, n, s'.at);
    ShiftHeld(y, s, s', o, n, now);
    forall i | 0 <= i < |s.lists| ensures SameRecords(s.rec, s.lists[i], s'.rec, s'.lists[i]) {
      ShiftLists(y, hash, s, pre, o, n, post, i);
    }
  }

  // ---- what a default expunge leaves

  /** Exactly the keys whose entries are not expired at t survive, with the same records. */
  ghost predicate Survived(ttl: int, s: Tab, s': Tab, t: int) {
    && (forall k :: k in s.at ==> s.at[k] in s.rec)
    && (forall k :: k in s'.at <==> k in s.at && !Expired(ttl, s.rec[s.at[k]], t))
    && (forall k :: k in s'.at ==> s'.at[k] in s'.rec && s'.rec[s'.at[k]] == s.rec[s.at[k]])
  }

  lemma SurvivedClean(y: Layout, hash: string -> nat, ttl: int, s: Tab, s': Tab, t: int)
    requires Keyed(y, hash, s.rec, s.home, s.at)
    requires Sane(y) && Purged(ttl, {}, s, s', t) && Cleaned(y, hash, ttl, s', y.n, t)
    ensures Survived(ttl, s, s', t)
  {
    hide Expired;
    assert forall k :: Slot(y, hash, k) < y.n;
    forall k | k in s'.at ensures k in s.at && !Expired(ttl, s.rec[s.at[k]], t) {
      assert Slot(y, hash, k) < y.n;
    }
  }

  lemma SurvivedGc(y: Layout, hash: string -> nat, ttl: int, s: Tab, s': Tab, s'': Tab, t: int)
    requires Survived(ttl, s, s', t) && GcOnly(y, s', s'') && Keyed(y, hash, s'.rec, s'.home, s'.at)
    requires s''.rec.Keys == s''.home.Keys
    ensures Survived(ttl, s, s'', t)
  {
    hide Expired;
    assert forall k :: k in s'.at ==> s'.home[s'.at[k]] < y.n;
  }

  lemma SurvivedRelocated(ttl: int, s: Tab, s': Tab, s'': Tab, t: int)
    requires Survived(ttl, s, s', t) && Relocated(s', s'')
    ensures Survived(ttl, s, s'', t)
  {
    hide Expired;
    assert forall k :: k in s''.at <==> k in s'.at;
  }

  /** Every slot is empty. */
  ghost predicate Wiped(y: Layout, s: Tab) {
    |s.lists| == y.n + 1 && s.at == map[] && s.nentries == 0 && s.memSize == 0 && forall i :: 0 <= i < y.n ==>
      s.lists[i] == []
  }

  lemma IsWiped(y: Layout, s: Tab)
    requires |s.lists| == y.n + 1 && s.at == map[] && s.nentries == 0 && s.memSize == 0
    requires forall i :: 0 <= i < y.n ==> s.lists[i] == []
    ensures Wiped(y, s)
  {
  }

  lemma CleanedNone(y: Layout, hash: string -> nat, ttl: int, s: Tab, t: int)
    requires Sane(y)
    ensures Cleaned(y, hash, ttl, s, 0, t)
  {
  }

  lemma CleaningPurged(y: Layout, ttl: int, but: set<string>, s0: Tab, s: Tab, t: int, now: int)
    requires Cleaning(y, ttl, but, s0, s, t, now)
    ensures Purged(ttl, but, s0, s, t) && Upheld(y, s0, s, now)
  {
  }

  // ---- when nobody references anything

  ghost predicate NoRefs(s: Tab) {
    forall e :: e in s.rec ==> s.rec[e].refs <= 0
  }

  /** And all entries are in slots. */
  ghost predicate Idle(y: Layout, s: Tab) {
    NoRefs(s) && forall e :: e in s.home ==> s.home[e] < y.n
  }

  lemma NoRefsRemains(s: Tab, s': Tab)
    requires NoRefs(s) && Remains(s, s') && s'.home.Keys == s'.rec.Keys
    ensures NoRefs(s')
  {
  }

  /** The gc then leaves nothing outside the slots. */
  lemma GcIdle(y: Layout, hash: string -> nat, gcTtl: int, s: Tab, s': Tab, now: int)
    requires NoRefs(s) && GcOnly(y, s, s') && Consistent(y, hash, s') && |s.lists| == y.n + 1
    requires s'.lists == s.lists[y.n := Staying(gcTtl, s.rec, s.lists[y.n], now)]
    ensures Idle(y, s')
  {
    NoneStaying(gcTtl, s, s.lists[y.n], now);
    assert s'.lists[y.n] == [];
    hide Staying;
    forall e | e in s'.home ensures s'.home[e] < y.n {
      assert s'.home[e] == y.n ==> e in s'.lists[s'.home[e]];
    }
  }

  lemma {:induction false} NoneStaying(gcTtl: int, s: Tab, l: seq<nat>, now: int)
    requires NoRefs(s)
    ensures Staying(gcTtl, s.rec, l, now) == []
  {
    if l != [] {
      NoneStaying(gcTtl, s, l[1..], now);
    }
  }

  lemma ShiftIdle(y: Layout, s: Tab, s': Tab, o: nat, n: nat)
    requires Idle(y, s) && o in s.rec && o in s.home
    requires s'.rec == (s.rec - {o})[n := s.rec[o]] && s'.home == (s.home - {o})[n := s.home[o]]
    ensures Idle(y, s')
  {
  }

  /** And a full expunge leaves nothing at all. */
  lemma IdleWiped(y: Layout, hash: string -> nat, s: Tab, s': Tab)
    requires Idle(y, s) && Remains(s, s') && Consistent(y, hash, s') && |s'.lists| == y.n + 1
    requires forall i :: 0 <= i < y.n ==> s'.lists[i] == []
    ensures s'.home.Keys == {}
  {
    forall e ensures e !in s'.home {
      if e in s'.home {
        StillHome(y, hash, s, s', e);
      }
    }
  }

  lemma StillHome(y: Layout, hash: string -> nat, s: Tab, s': Tab, e: nat)
    requires Idle(y, s) && Remains(s, s') && Consistent(y, hash, s') && e in s'.home
    ensures s'.home[e] < y.n && s'.home[e] < |s'.lists| && e in s'.lists[s'.home[e]]
  {
  }

  // ---- what a clean-up gives back

  /** A clean-up at time t frees entry e, which is nobody's any more or expired; or it is referenced, but has
      been on the gc list for more than gc_ttl seconds. */
  predicate Junk(y: Layout, ttl: int, gcTtl: int, s: Tab, e: nat, t: int, now: int) {
    && e in s.rec && e in s.home
    && if s.rec[e].refs > 0 then s.home[e] == OnGc(y) && gcTtl != 0 && now - s.rec[e].dtime > gcTtl
       else s.home[e] >= y.n || Expired(ttl, s.rec[e], t)
  }

  /** The clean-up has freed the junk and nothing else. */
  ghost predicate Tidied(y: Layout, ttl: int, gcTtl: int, s: Tab, s': Tab, t: int, now: int) {
    && (forall e :: e in s'.home <==> e in s.home && !Junk(y, ttl, gcTtl, s, e, t, now))
    && s'.rec.Keys == s'.home.Keys
    && forall e :: e in s'.rec ==> e in s.rec && SameBut(s.rec[e], s'.rec[e])
  }

  /** An entry that is referenced is freed if the gc gives it up. */
  lemma TidyReferenced(y: Layout, ttl: int, gcTtl: int, s: Tab, s': Tab, e: nat, t: int, now: int)
    requires GcUpheld(y, gcTtl, s, s', now) && Referenced(y, s.rec, s.home) && s'.rec.Keys == s'.home.Keys
    requires e in s.home && s.rec[e].refs > 0 && (e in s'.rec ==> SameBut(s.rec[e], s'.rec[e]))
    ensures e in s'.home <==> !Junk(y, ttl, gcTtl, s, e, t, now)
  {
    assert s.rec[e].holders != {};
    var h :| h in s.rec[e].holders;
    assert Holds(s, e, h) && HeldAt(y, gcTtl, s, s', e, h, now);
    assert e in s'.home ==> Holds(s', e, h);
  }

  lemma GcStays(y: Layout, hash: string -> nat, gcTtl: int, s1: Tab, s2: Tab, e: nat, now: int)
    requires gcTtl >= 0 && Consistent(y, hash, s2) && |s1.lists| == y.n + 1 && e in s2.home && s2.home[e] == OnGc(y)
    requires s2.lists == s1.lists[y.n := Staying(gcTtl, s1.rec, s1.lists[y.n], now)]
    ensures e in s1.rec && s1.rec[e].refs > 0
  {
    assert e in s2.lists[y.n];
    StayingIff(gcTtl, s1.rec, s1.lists[y.n], e, now);
  }

  /** Any other is freed unless it is in a slot and not expired. */
  lemma TidyUnreferenced(y: Layout, hash: string -> nat, ttl: int, gcTtl: int, s: Tab, s1: Tab, s2: Tab, e: nat,
                         t: int, now: int)
    requires Keyed(y, hash, s.rec, s.home, s.at) && Keyed(y, hash, s1.rec, s1.home, s1.at)
    requires Referenced(y, s2.rec, s2.home) && s2.rec.Keys == s2.home.Keys
    requires Purged(ttl, {}, s, s1, t) && Survived(ttl, s, s1, t) && Remains(s, s1) && GcOnly(y, s1, s2)
    requires e in s2.home && s2.home[e] == OnGc(y) ==> e in s1.rec && s1.rec[e].refs > 0
    requires e in s.home && s.rec[e].refs <= 0
    ensures e in s2.home <==> !Junk(y, ttl, gcTtl, s, e, t, now)
  {
    hide Slot, Expired;
    if e in s2.home {
      assert s2.home[e] == s1.home[e] == s.home[e] <= InFlight(y);
      assert s1.at[s1.rec[e].key] == e;
    } else if s.home[e] < y.n {
      assert s.at[s.rec[e].key] == e;
    }
  }

  lemma TidyOne(y: Layout, hash: string -> nat, ttl: int, gcTtl: int, s: Tab, s1: Tab, s2: Tab, e: nat, t: int,
                now: int)
    requires Consistent(y, hash, s) && Consistent(y, hash, s1) && Consistent(y, hash, s2)
    requires Purged(ttl, {}, s, s1, t) && Survived(ttl, s, s1, t) && Remains(s, s1)
    requires GcOnly(y, s1, s2) && GcUpheld(y, gcTtl, s, s2, now) && gcTtl >= 0
    requires |s1.lists| == y.n + 1 && s2.lists == s1.lists[y.n := Staying(gcTtl, s1.rec, s1.lists[y.n], now)]
    requires e in s.home && e in s.rec && (e in s2.rec ==> SameBut(s.rec[e], s2.rec[e]))
    ensures e in s2.home <==> !Junk(y, ttl, gcTtl, s, e, t, now)
  {
    hide *;
    ConsistentParts(y, hash, s);
    ConsistentParts(y, hash, s1);
    ConsistentParts(y, hash, s2);
    if s.rec[e].refs > 0 {
      TidyReferenced(y, ttl, gcTtl, s, s2, e, t, now);
    } else {
      if e in s2.home && s2.home[e] == OnGc(y) { GcStays(y, hash, gcTtl, s1, s2, e, now); }
      TidyUnreferenced(y, hash, ttl, gcTtl, s, s1, s2, e, t, now);
    }
  }

  lemma TidyRest(y: Layout, s: Tab, s1: Tab, s2: Tab)
    requires Remains(s, s1) && GcOnly(y, s1, s2) && s1.rec.Keys == s1.home.Keys && s2.rec.Keys == s2.home.Keys
    ensures forall e :: e in s2.rec ==> e in s.rec && e in s.home && SameBut(s.rec[e], s2.rec[e])
  {
  }

  lemma IsTidied(y: Layout, ttl: int, gcTtl: int, s: Tab, s': Tab, t: int, now: int)
    requires forall e :: e in s.home ==> (e in s'.home <==> !Junk(y, ttl, gcTtl, s, e, t, now))
    requires s'.rec.Keys == s'.home.Keys
    requires forall e :: e in s'.rec ==> e in s.rec && e in s.home && SameBut(s.rec[e], s'.rec[e])
    ensures Tidied(y, ttl, gcTtl, s, s', t, now)
  {
    hide Junk;
  }

  /** The removal of what is expired and then the gc tidy up. */
  lemma CleanUp(y: Layout, hash: string -> nat, ttl: int, gcTtl: int, s: Tab, s1: Tab, s2: Tab, t: int, now: int)
    requires Consistent(y, hash, s) && Consistent(y, hash, s1) && Consistent(y, hash, s2)
    requires Purged(ttl, {}, s, s1, t) && Survived(ttl, s, s1, t) && Remains(s, s1)
    requires GcOnly(y, s1, s2) && GcUpheld(y, gcTtl, s, s2, now) && gcTtl >= 0
    requires |s1.lists| == y.n + 1 && s2.lists == s1.lists[y.n := Staying(gcTtl, s1.rec, s1.lists[y.n], now)]
    ensures Tidied(y, ttl, gcTtl, s, s2, t, now)
  {
    hide *;
    ConsistentParts(y, hash, s);
    ConsistentParts(y, hash, s1);
    ConsistentParts(y, hash, s2);
    TidyRest(y, s, s1, s2);
    forall e | e in s.home ensures e in s2.home <==> !Junk(y, ttl, gcTtl, s, e, t, now) {
      TidyOne(y, hash, ttl, gcTtl, s, s1, s2, e, t, now);
    }
    IsTidied(y, ttl, gcTtl, s, s2, t, now);
  }

  // ---- a new entry

  /** No key lost its entry, and the entries are as they were. */
  ghost predicate Unharmed(s: Tab, s': Tab) {
    s'.at == s.at && forall k :: k in s.at ==>
      s.at[k] in s.rec && s.at[k] in s'.rec && s'.rec[s.at[k]] == s.rec[s.at[k]]
  }

  lemma LaunchUnharmed(y: Layout, hash: string -> nat, s: Tab, e: nat, x: Entry)
    requires Keyed(y, hash, s.rec, s.home, s.at) && e !in s.home
    ensures Unharmed(s, Launched(y, s, e, x))
  {
    hide Slot;
  }

  lemma UnharmedRefl(y: Layout, hash: string -> nat, s: Tab)
    requires Keyed(y, hash, s.rec, s.home, s.at)
    ensures Unharmed(s, s)
  {
    hide Slot;
  }

  /** After some default expunges, of which wipes have wiped the cache. */
  ghost predicate Cleared(ttl: int, s: Tab, s': Tab, t: int, wipes: int) {
    if wipes > 0 then s'.at == map[] else wipes == 0 && Survived(ttl, s, s', t)
  }

  lemma ClearedTrans(ttl: int, s: Tab, s': Tab, s'': Tab, t: int, wipes: int, wipes': int)
    requires Cleared(ttl, s, s', t, wipes) && Cleared(ttl, s', s'', t, wipes')
    ensures Cleared(ttl, s, s'', t, wipes + wipes')
  {
    hide Expired;
  }

  lemma ClearedUnharmed(ttl: int, s: Tab, s': Tab, s'': Tab, t: int, wipes: int)
    requires Cleared(ttl, s, s', t, wipes) && Unharmed(s', s'')
    ensures Cleared(ttl, s, s'', t, wipes)
  {
    hide Expired;
  }

  lemma ClearedBy(y: Layout, ttl: int, s: Tab, s': Tab, t: int, wipes: int)
    requires (Wiped(y, s') && wipes == 1) || (Survived(ttl, s, s', t) && wipes == 0)
    ensures Cleared(ttl, s, s', t, wipes)
  {
    hide Survived;
  }

  lemma IdleNoRefs(y: Layout, s: Tab)
    requires Idle(y, s)
    ensures NoRefs(s)
  {
  }

  lemma LaunchedHas(y: Layout, s: Tab, e: nat, x: Entry)
    ensures var s' := Launched(y, s, e, x);
            && e in s'.home && s'.home[e] == InFlight(y) && e in s'.rec && s'.rec[e] == x && s'.at == s.at
            && s'.rec == s.rec[e := x] && s'.home == s.home[e := InFlight(y)]
            && s'.lists == s.lists && s'.next == s.next && s'.prev == s.prev && s'.nentries == s.nentries
            && s'.memSize == s.memSize
  {
  }

  lemma LaunchHeld(y: Layout, gcTtl: int, s: Tab, s': Tab, e: nat, x: Entry, now: int)
    requires s.rec.Keys == s.home.Keys && e !in s.home && s' == Launched(y, s, e, x)
    ensures Held(y, gcTtl, s, s', now)
  {
  }

  // ---- inserting

  /** What an insert does to the other entries: it collects, and removes expired entries. */
  ghost predicate GcCleaning(y: Layout, gcTtl: int, ttl: int, but: set<string>, s: Tab, s': Tab, t: int, now: int) {
    Purged(ttl, but, s, s', t) && GcUpheld(y, gcTtl, s, s', now)
  }

  lemma GcCleaningIs(y: Layout, gcTtl: int, ttl: int, but: set<string>, s: Tab, s': Tab, t: int, now: int)
    requires GcCleaning(y, gcTtl, ttl, but, s, s', t, now)
    ensures Purged(ttl, but, s, s', t) && GcUpheld(y, gcTtl, s, s', now) && Held(y, gcTtl, s, s', now)
  {
  }

  lemma GcCleaningThen(y: Layout, gcTtl: int, ttl: int, but: set<string>, s: Tab, s': Tab, s'': Tab, t: int, now: int)
    requires GcCleaning(y, gcTtl, ttl, but, s, s', t, now) && Cleaning(y, ttl, but, s', s'', t, now) && gcTtl >= 0
    ensures GcCleaning(y, gcTtl, ttl, but, s, s'', t, now)
  {
    hide Purged, Upheld, GcUpheld;
    PurgedTrans(ttl, but, s, s', s'', t);
    GcUpheldThen(y, gcTtl, s, s', s'', now);
  }

  /** The gc does not touch the entries of keys. */
  lemma GcPurged(y: Layout, hash: string -> nat, ttl: int, but: set<string>, s: Tab, s': Tab, t: int)
    requires Keyed(y, hash, s.rec, s.home, s.at) && s'.rec.Keys == s'.home.Keys && GcOnly(y, s, s')
    ensures Purged(ttl, but, s, s', t)
    ensures forall k :: k in s.at ==> s.at[k] in s'.rec && s'.rec[s.at[k]] == s.rec[s.at[k]]
  {
    hide Slot, Expired;
    assert forall k :: k in s.at ==> s.home[s.at[k]] < y.n;
  }

  /** What the gc does to references. */
  lemma GcReferences(y: Layout, hash: string -> nat, gcTtl: int, s: Tab, s': Tab, now: int)
    requires GcOnly(y, s, s') && Held(y, gcTtl, s, s', now) && Consistent(y, hash, s') && |s.lists| == y.n + 1
    requires gcTtl >= 0
    requires s'.lists == s.lists[y.n := Staying(gcTtl, s.rec, s.lists[y.n], now)]
    ensures GcUpheld(y, gcTtl, s, s', now)
  {
    forall e, h | Holds(s, e, h) && Late(y, gcTtl, s, e, now) ensures !Holds(s', e, h) {
      if Holds(s', e, h) {
        assert e in s'.lists[s'.home[e]];
        StayingStays(gcTtl, s.rec, s.lists[y.n], now, e);
      }
    }
    hide Held, Consistent, Staying;
  }

  lemma {:induction false} StayingStays(gcTtl: int, rec: Records, l: seq<nat>, now: int, e: nat)
    requires e in Staying(gcTtl, rec, l, now)
    ensures e in rec && Stays(gcTtl, rec[e], now)
  {
    if !(l[0] in rec && Stays(gcTtl, rec[l[0]], now) && e == l[0]) {
      StayingStays(gcTtl, rec, l[1..], now, e);
    }
  }

  /** No entry of l has key k. */
  ghost predicate Without(s: Tab, l: seq<nat>, k: string) {
    forall d :: d in l ==> d in s.rec && s.rec[d].key != k
  }

  lemma WithoutNone(s: Tab, k: string)
    ensures Without(s, [], k)
  {
  }

  lemma WithoutSnoc(s: Tab, l: seq<nat>, d: nat, k: string)
    requires Without(s, l, k) && d in s.rec && s.rec[d].key != k
    ensures Without(s, l + [d], k)
  {
  }

  lemma WithoutOthers(s: Tab, s': Tab, l: seq<nat>, d: nat, k: string)
    requires Without(s, l, k) && Others(s, s', d) && d !in l
    ensures Without(s', l, k)
  {
  }

  /** If the whole chain of a key is without it, the key has no entry. */
  lemma WithoutKey(y: Layout, hash: string -> nat, s: Tab, k: string)
    requires Consistent(y, hash, s) && Slot(y, hash, k) < |s.lists| && Without(s, s.lists[Slot(y, hash, k)], k)
    ensures k !in s.at
  {
    if k in s.at {
      KeyHoused(y, hash, s, k);
    }
  }

  /** An entry in a slot is the entry of its key. */
  lemma EntryOfKey(y: Layout, hash: string -> nat, s: Tab, d: nat)
    requires Consistent(y, hash, s) && d in s.home && s.home[d] < y.n
    ensures d in s.rec && s.rec[d].key in s.at && s.at[s.rec[d].key] == d
  {
  }

  /** The key k has the same entry as before, or none as before. */
  ghost predicate SameKey(s: Tab, s': Tab, k: string) {
    && (k in s.at <==> k in s'.at)
    && (k in s.at ==> s'.at[k] == s.at[k] && s.at[k] in s.rec && s.at[k] in s'.rec && s'.rec[s.at[k]] == s.rec[s.at[k]])
  }

  /** Entry e is in flight, with record x. */
  ghost predicate Flying(y: Layout, s: Tab, e: nat, x: Entry) {
    e in s.home && s.home[e] == InFlight(y) && e in s.rec && s.rec[e] == x
  }

  lemma SameKeyAt(s: Tab, s': Tab, k: string)
    requires SameKey(s, s', k)
    ensures k in s.at <==> k in s'.at
    ensures k in s.at ==>
      s'.at[k] == s.at[k] && s.at[k] in s.rec && s.at[k] in s'.rec && s'.rec[s.at[k]] == s.rec[s.at[k]]
  {
  }

  lemma SameKeyRefl(y: Layout, hash: string -> nat, s: Tab, k: string)
    requires Keyed(y, hash, s.rec, s.home, s.at)
    ensures SameKey(s, s, k)
  {
    hide Slot;
  }

  /** Removing the entry of another key. */
  lemma SameKeyOthers(y: Layout, hash: string -> nat, s0: Tab, s: Tab, s': Tab, d: nat, k: string, e: nat, x: Entry)
    requires SameKey(s0, s, k) && Others(s, s', d) && Consistent(y, hash, s) && d in s.home && s.home[d] < y.n
    requires d in s.rec && s.rec[d].key != k && s'.at == s.at - {s.rec[d].key} && Flying(y, s, e, x)
    ensures SameKey(s0, s', k) && Flying(y, s', e, x)
  {
    assert k in s.at ==> s.at[k] in s.rec && s.rec[s.at[k]].key == k;
    hide Consistent;
  }

  lemma FlyingOthers(y: Layout, s: Tab, s': Tab, d: nat, e: nat, x: Entry)
    requires Others(s, s', d) && d in s.home && s.home[d] < y.n && Flying(y, s, e, x)
    ensures Flying(y, s', e, x)
  {
  }

  /** What linking a new entry does. */
  lemma InsertEffect(y: Layout, hash: string -> nat, ttl: int, s: Tab, pre: seq<nat>, e: nat, post: seq<nat>, x: Entry,
                     t: int, now: int)
    requires Consistent(y, hash, s) && Flying(y, s, e, x) && x.key !in s.at && Slot(y, hash, x.key) < |s.lists|
    requires s.lists[Slot(y, hash, x.key)] == pre + post
    ensures Sane(y) && Slot(y, hash, x.key) < y.n < |s.lists| && e in s.rec && s.rec[e] == x
    ensures var i := Slot(y, hash, x.key);
            var s' := Inserted(y, s, i, pre, e, post);
            && Consistent(y, hash, s') && Cleaning(y, ttl, {x.key}, s, s', t, now)
            && Last(Head(y, i), pre) in s.next && Last(Head(y, i), pre) != e
  {
    hide Consistent, Slot, Held, Upheld, Purged, Keyed, Expired, LinkNext, LinkPrev, Head;
    ConsistentParts(y, hash, s);
    var i := Slot(y, hash, x.key);
    Insert(y, hash, s, i, pre, e, post);
    InsertCell(y, hash, s, i, pre, e, post);
    var s' := Inserted(y, s, i, pre, e, post);
    InsertHeld(y, s, s', e, i, now);
    InsertPurged(y, hash, ttl, s, s', x.key, e, t);
  }

  lemma InsertCell(y: Layout, hash: string -> nat, s: Tab, i: nat, pre: seq<nat>, e: nat, post: seq<nat>)
    requires Consistent(y, hash, s) && i < y.n < |s.lists| && s.lists[i] == pre + post && e in s.home
    requires s.home[e] == InFlight(y)
    ensures Last(Head(y, i), pre) in s.next && Last(Head(y, i), pre) != e
  {
    assert Linked(y, s.next, s.prev, s.home, s.lists) && Extent(y) <= e;
    hide Consistent, Linked;
    HeadSmall(y, i);
    AtCell(y, s.next, s.prev, s.home, s.lists, i, pre, post);
    if pre != [] {
      Member(y, s.home, s.lists, i, pre[|pre| - 1]) by {
        assert Linked(y, s.next, s.prev, s.home, s.lists);
        assert (pre + post)[|pre| - 1] == pre[|pre| - 1];
      }
    }
  }

  lemma InsertHeld(y: Layout, s: Tab, s': Tab, e: nat, i: nat, now: int)
    requires e in s.home && s.home[e] == InFlight(y) && s'.home == s.home[e := i] && s'.rec == s.rec && i < y.n
    ensures Upheld(y, s, s', now)
  {
    forall o, h ensures HeldAt(y, 0, s, s', o, h, now) {
    }
  }

  lemma InsertPurged(y: Layout, hash: string -> nat, ttl: int, s: Tab, s': Tab, k: string, e: nat, t: int)
    requires Keyed(y, hash, s.rec, s.home, s.at) && s'.rec == s.rec && s'.at == s.at[k := e]
    ensures Purged(ttl, {k}, s, s', t)
  {
    hide Slot, Expired;
  }

  lemma SameKeyTrans(s: Tab, s': Tab, s'': Tab, k: string)
    requires SameKey(s, s', k) && SameKey(s', s'', k)
    ensures SameKey(s, s'', k)
  {
  }

  lemma FlyingIs(y: Layout, s: Tab, e: nat, x: Entry)
    requires Flying(y, s, e, x)
    ensures e in s.home && s.home[e] == InFlight(y) && e in s.rec && s.rec[e] == x
  {
  }

  lemma NowFlying(y: Layout, s: Tab, e: nat, x: Entry)
    requires e in s.home && s.home[e] == InFlight(y) && e in s.rec && s.rec[e] == x
    ensures Flying(y, s, e, x)
  {
  }

  /** The gc does not touch keys or entries in flight. */
  lemma AfterGc(y: Layout, hash: string -> nat, gcTtl: int, ttl: int, s: Tab, s': Tab, e: nat, k: string, t: int,
                now: int)
    requires Keyed(y, hash, s.rec, s.home, s.at) && s'.rec.Keys == s'.home.Keys && GcOnly(y, s, s')
    requires GcUpheld(y, gcTtl, s, s', now)
    requires e in s.home && s.home[e] == InFlight(y) && e in s.rec
    ensures GcCleaning(y, gcTtl, ttl, {k}, s, s', t, now) && SameKey(s, s', k) && Flying(y, s', e, s.rec[e])
    ensures k in s.at ==> s.at[k] in s.rec
  {
    GcPurged(y, hash, ttl, {k}, s, s', t);
    hide Slot, GcUpheld, Purged;
  }

  // ---- writing to a record

  lemma WrittenIs(s: Tab, e: nat, x: Entry)
    requires e in s.home
    ensures var s' := Written(s, e, x);
            Others(s, s', e) && s'.at == s.at && s'.home == s.home && s'.lists == s.lists && s'.rec == s.rec[e := x]
  {
  }

  /** A write that keeps every reference. */
  lemma TouchHeld(y: Layout, gcTtl: int, s: Tab, e: nat, x: Entry, now: int)
    requires e in s.rec && e in s.home && SameHeld(s.rec[e], x) && s.rec[e].holders <= x.holders
    requires x.dtime == s.rec[e].dtime
    ensures Held(y, gcTtl, s, Written(s, e, x), now)
  {
    var s' := Written(s, e, x);
    forall o, h ensures HeldAt(y, gcTtl, s, s', o, h, now) {
    }
  }

  /** Removing the entry of key k leaves the other keys alone. */
  lemma OtherKeys(y: Layout, hash: string -> nat, s: Tab, s': Tab, e: nat, k: string)
    requires Consistent(y, hash, s) && Others(s, s', e) && e in s.rec && s.rec[e].key == k && s'.at == s.at - {k}
    ensures forall j :: j in s'.at ==> s'.at[j] in s'.rec && s'.at[j] in s.rec && s'.rec[s'.at[j]] == s.rec[s'.at[j]]
  {
    assert Keyed(y, hash, s.rec, s.home, s.at);
    hide Consistent, Slot;
    assert forall j :: j in s'.at ==> s.at[j] != e;
  }

  // ---- what becomes of a removed entry

  /** It is freed, or it is at the head of the gc list since now. */
  ghost predicate Gone(y: Layout, s: Tab, s': Tab, e: nat, now: int)
    requires |s.lists| == y.n + 1 && |s'.lists| == y.n + 1 && e in s.rec
  {
    if s.rec[e].refs <= 0 then e !in s'.rec && s'.lists[y.n] == s.lists[y.n]
    else
      && e in s'.rec && e in s'.home && s'.rec[e] == s.rec[e].(dtime := now) && s'.home[e] == OnGc(y)
      && s'.lists[y.n] == [e] + s.lists[y.n]
  }

  lemma RemovedGone(y: Layout, s: Tab, pre: seq<nat>, e: nat, post: seq<nat>, now: int)
    requires e in s.rec && e in s.home && s.home[e] < y.n && |s.lists| == y.n + 1
    ensures |Removed(y, s, pre, e, post, now).lists| == y.n + 1
    ensures Gone(y, s, Removed(y, s, pre, e, post, now), e, now)
  {
    hide UnlinkNext, UnlinkPrev, LinkNext, LinkPrev;
  }

  /** A reference that did not exist in the beginning is given back in the end. */
  lemma HeldButOwn(y: Layout, gcTtl: int, s0: Tab, s: Tab, s': Tab, e: nat, now: int)
    requires Held(y, gcTtl, s0, s, now) && Others(s, s', e) && forall g :: !Safe(y, gcTtl, s0, e, g, now)
    ensures Held(y, gcTtl, s0, s', now)
  {
    forall o, g ensures HeldAt(y, gcTtl, s0, s', o, g, now) {
      assert HeldAt(y, gcTtl, s0, s, o, g, now);
    }
  }

  /** What was not there is not referenced. */
  lemma UnheldBefore(y: Layout, gcTtl: int, s0: Tab, s: Tab, e: nat, now: int)
    requires Held(y, gcTtl, s0, s, now) && e !in s.home
    ensures forall g :: !Safe(y, gcTtl, s0, e, g, now)
  {
    forall g ensures !Safe(y, gcTtl, s0, e, g, now) {
      assert HeldAt(y, gcTtl, s0, s, e, g, now);
    }
  }

  lemma LaunchedSameKey(y: Layout, hash: string -> nat, s: Tab, e: nat, x: Entry, k: string)
    requires Keyed(y, hash, s.rec, s.home, s.at) && e !in s.home
    ensures SameKey(s, Launched(y, s, e, x), k)
  {
    hide Slot;
  }

  /** Storing k leaves the entries of the other keys as they are, as far as they are left. They lose
      them only if these were expired, or if the cache was wiped. */
  ghost predicate OthersKept(ttl: int, s: Tab, s': Tab, k: string, t: int, wiped: bool) {
    && (forall j :: j in s'.at && j != k ==>
          j in s.at && s'.at[j] in s'.rec && s.at[j] in s.rec && s'.rec[s'.at[j]] == s.rec[s.at[j]])
    && (!wiped ==> forall j :: j in s.at && j != k && j !in s'.at ==>
          s.at[j] in s.rec && Expired(ttl, s.rec[s.at[j]], t))
  }

  lemma OthersKeptFrom(y: Layout, ttl: int, s: Tab, s': Tab, k: string, t: int, wiped: bool, wipes: int)
    requires Cleared(ttl, s, s', t, wipes) || (Unharmed(s, s') && wipes == 0)
    requires wiped <==> wipes != 0
    ensures OthersKept(ttl, s, s', k, t, wiped)
  {
    hide Expired;
  }

  lemma NoNewKeys(ttl: int, s: Tab, s': Tab, t: int, wipes: int)
    requires Cleared(ttl, s, s', t, wipes) || Unharmed(s, s')
    ensures forall j :: j in s'.at ==> j in s.at
  {
    hide Expired;
  }

  lemma OthersKeptCleaning(y: Layout, gcTtl: int, ttl: int, s: Tab, s': Tab, s'': Tab, k: string, t: int, now: int,
                           wiped: bool)
    requires OthersKept(ttl, s, s', k, t, wiped) && GcCleaning(y, gcTtl, ttl, {k}, s', s'', t, now)
    ensures OthersKept(ttl, s, s'', k, t, wiped)
  {
    hide Expired, GcUpheld;
  }

  lemma OthersKeptOwn(y: Layout, hash: string -> nat, ttl: int, s: Tab, s': Tab, s'': Tab, e: nat, k: string, t: int,
                      wiped: bool)
    requires OthersKept(ttl, s, s', k, t, wiped) && Others(s', s'', e) && s''.at == s'.at
    requires Keyed(y, hash, s'.rec, s'.home, s'.at)
    requires e in s'.rec && s'.rec[e].key == k
    ensures OthersKept(ttl, s, s'', k, t, wiped)
  {
    hide Slot, Expired, Keyed;
    EntriesOfOthers(y, hash, s', e);
  }

  lemma EntriesOfOthers(y: Layout, hash: string -> nat, s: Tab, e: nat)
    requires Keyed(y, hash, s.rec, s.home, s.at) && e in s.rec
    ensures forall j :: j in s.at && s.at[j] == e ==> j == s.rec[e].key
  {
    hide Slot;
  }
}
