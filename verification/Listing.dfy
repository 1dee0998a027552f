/** The entries that an iterator over the active list is to visit. */
module Listing {
  import opened Basics
  import opened Entries
  import opened Effects
  import opened Table

  /** apc_iterator_search_match and apc_iterator_check_expiry; the search is any predicate on keys. */
  predicate Wanted(search: string -> bool, x: Entry, t: int) {
    !HardExpired(x, t) && search(x.key)
  }

  /** The wanted entries of a chain. */
  function Filter(rec: Records, search: string -> bool, l: seq<nat>, t: int): seq<nat> {
    if l == [] then []
    else (if l[0] in rec && Wanted(search, rec[l[0]], t) then [l[0]] else []) + Filter(rec, search, l[1..], t)
  }

  /** The wanted entries of the slots from i up to n, in slot order. */
  function Listed(rec: Records, lists: seq<seq<nat>>, search: string -> bool, i: nat, n: nat, t: int): seq<nat>
    requires n <= |lists|
    decreases n - i
  {
    if i >= n then [] else Filter(rec, search, lists[i], t) + Listed(rec, lists, search, i + 1, n, t)
  }

  /** What the items of an iterator are made of. */
  function Items(rec: Records, l: seq<nat>): seq<Entry> {
    if l == [] then [] else (if l[0] in rec then [rec[l[0]]] else []) + Items(rec, l[1..])
  }

  lemma {:induction false} FilterSnoc(rec: Records, search: string -> bool, l: seq<nat>, e: nat, t: int)
    ensures Filter(rec, search, l + [e], t) ==
      Filter(rec, search, l, t) + if e in rec && Wanted(search, rec[e], t) then [e] else []
  {
    hide Wanted;
    if l == [] {
      assert [] + [e] == [e] && [e][1..] == [];
    } else {
      assert (l + [e])[0] == l[0] && (l + [e])[1..] == l[1..] + [e];
      FilterSnoc(rec, search, l[1..], e, t);
    }
  }

  lemma {:induction false} ItemsConcat(rec: Records, a: seq<nat>, b: seq<nat>)
    ensures Items(rec, a + b) == Items(rec, a) + Items(rec, b)
  {
    if a == [] {
      assert a + b == b;
    } else {
      assert (a + b)[0] == a[0] && (a + b)[1..] == a[1..] + b;
      ItemsConcat(rec, a[1..], b);
    }
  }

  lemma {:induction false} ListedSplit(rec: Records, lists: seq<seq<nat>>, search: string -> bool, i: nat, j: nat,
                                       n: nat, t: int)
    requires i <= j <= n <= |lists|
    ensures Listed(rec, lists, search, i, n, t) ==
      Listed(rec, lists, search, i, j, t) + Listed(rec, lists, search, j, n, t)
    decreases j - i
  {
    if i < j {
      ListedSplit(rec, lists, search, i + 1, j, n, t);
    }
  }

  lemma ListedNext(rec: Records, lists: seq<seq<nat>>, search: string -> bool, i: nat, j: nat, t: int)
    requires i <= j < |lists|
    ensures Listed(rec, lists, search, i, j + 1, t) ==
      Listed(rec, lists, search, i, j, t) + Filter(rec, search, lists[j], t)
  {
    ListedSplit(rec, lists, search, i, j, j + 1, t);
    assert Listed(rec, lists, search, j + 1, j + 1, t) == [];
  }

  // ---- every wanted entry, once

  lemma {:induction false} FilterMember(rec: Records, search: string -> bool, l: seq<nat>, e: nat, t: int)
    ensures e in Filter(rec, search, l, t) <==> e in l && e in rec && Wanted(search, rec[e], t)
  {
    hide Wanted;
    if l != [] {
      FilterMember(rec, search, l[1..], e, t);
    }
  }

  /** e is in one of the lists from i up to n. */
  predicate InSome(lists: seq<seq<nat>>, i: nat, n: nat, e: nat)
    requires n <= |lists|
    decreases n - i
  {
    i < n && (e in lists[i] || InSome(lists, i + 1, n, e))
  }

  lemma {:induction false} InSomeAt(lists: seq<seq<nat>>, i: nat, n: nat, e: nat, j: nat)
    requires n <= |lists| && i <= j < n && e in lists[j]
    ensures InSome(lists, i, n, e)
    decreases n - i
  {
    if i < j {
      InSomeAt(lists, i + 1, n, e, j);
    }
  }

  lemma {:induction false} SomeSlot(lists: seq<seq<nat>>, i: nat, n: nat, e: nat) returns (j: nat)
    requires n <= |lists| && InSome(lists, i, n, e)
    ensures i <= j < n && e in lists[j]
    decreases n - i
  {
    if e in lists[i] {
      j := i;
    } else {
      j := SomeSlot(lists, i + 1, n, e);
    }
  }

  lemma {:induction false} ListedMember(rec: Records, lists: seq<seq<nat>>, search: string -> bool, i: nat, n: nat,
                                        e: nat, t: int)
    requires n <= |lists|
    ensures e in Listed(rec, lists, search, i, n, t) <==>
      e in rec && Wanted(search, rec[e], t) && InSome(lists, i, n, e)
    decreases n - i
  {
    hide Wanted, Filter;
    if i < n {
      FilterMember(rec, search, lists[i], e, t);
      ListedMember(rec, lists, search, i + 1, n, e, t);
    }
  }

  /** The listing has exactly the entries whose keys are wanted. */
  lemma ListsEveryKey(y: Layout, hash: string -> nat, s: Tab, search: string -> bool, e: nat, t: int)
    requires Consistent(y, hash, s)
    ensures y.n <= |s.lists|
    ensures e in Listed(s.rec, s.lists, search, 0, y.n, t) <==>
      e in s.rec && s.rec[e].key in s.at && s.at[s.rec[e].key] == e && Wanted(search, s.rec[e], t)
  {
    ConsistentParts(y, hash, s);
    ListedMember(s.rec, s.lists, search, 0, y.n, e, t);
    hide Wanted, Listed, Consistent, InSome, Slot;
    if e in s.rec && s.rec[e].key in s.at && s.at[s.rec[e].key] == e {
      KeyHoused(y, hash, s, s.rec[e].key);
      InSomeAt(s.lists, 0, y.n, e, Slot(y, hash, s.rec[e].key));
    }
    if InSome(s.lists, 0, y.n, e) {
      var j := SomeSlot(s.lists, 0, y.n, e);
      SlotEntry(y, hash, s, j, e);
    }
  }

  lemma SlotEntry(y: Layout, hash: string -> nat, s: Tab, j: nat, e: nat)
    requires Consistent(y, hash, s) && j < y.n && j < |s.lists| && e in s.lists[j]
    ensures e in s.rec && s.rec[e].key in s.at && s.at[s.rec[e].key] == e && e in s.home && s.home[e] == j
  {
    Member(y, s.home, s.lists, j, e);
    EntryOfKey(y, hash, s, e);
  }

  lemma NotLater(y: Layout, hash: string -> nat, s: Tab, i: nat, e: nat)
    requires Consistent(y, hash, s) && y.n <= |s.lists| && e in s.home && s.home[e] == i < y.n
    ensures !InSome(s.lists, i + 1, y.n, e)
  {
    hide InSome, Consistent;
    if InSome(s.lists, i + 1, y.n, e) {
      var j := SomeSlot(s.lists, i + 1, y.n, e);
      SlotEntry(y, hash, s, j, e);
    }
  }

  /** And each of them once. */
  lemma {:induction false} ListedDistinct(y: Layout, hash: string -> nat, s: Tab, search: string -> bool, i: nat,
                                          t: int)
    requires Consistent(y, hash, s) && y.n <= |s.lists|
    ensures Distinct(Listed(s.rec, s.lists, search, i, y.n, t))
    decreases y.n - i
  {
    if i < y.n {
      var a, b := Filter(s.rec, search, s.lists[i], t), Listed(s.rec, s.lists, search, i + 1, y.n, t);
      ListedDistinct(y, hash, s, search, i + 1, t);
      assert Distinct(s.lists[i]);
      FilterDistinct(s.rec, search, s.lists[i], t);
      hide Consistent, Filter, Wanted, InSome;
      forall e | e in a ensures e !in b {
        FilterMember(s.rec, search, s.lists[i], e, t);
        ListedMember(s.rec, s.lists, search, i + 1, y.n, e, t);
        SlotEntry(y, hash, s, i, e);
        NotLater(y, hash, s, i, e);
      }
      DistinctConcat(a, b);
    }
  }

  lemma {:induction false} FilterDistinct(rec: Records, search: string -> bool, l: seq<nat>, t: int)
    requires Distinct(l)
    ensures Distinct(Filter(rec, search, l, t))
  {
    hide Wanted;
    if l != [] {
      FilterDistinct(rec, search, l[1..], t);
      FilterMember(rec, search, l[1..], l[0], t);
      var r := Filter(rec, search, l[1..], t);
      assert ([l[0]] + r)[1..] == r && [] + r == r;
    }
  }

  // ---- totals

  function HitSum(xs: seq<Entry>): int {
    if xs == [] then 0 else HitSum(xs[..|xs| - 1]) + xs[|xs| - 1].nhits
  }

  function SizeTotal(xs: seq<Entry>): int {
    if xs == [] then 0 else SizeTotal(xs[..|xs| - 1]) + xs[|xs| - 1].memSize
  }

  lemma SumsSnoc(xs: seq<Entry>, x: Entry)
    ensures HitSum(xs + [x]) == HitSum(xs) + x.nhits && SizeTotal(xs + [x]) == SizeTotal(xs) + x.memSize
  {
    assert (xs + [x])[..|xs|] == xs;
  }

  // ---- deleting what is listed

  /** Deleting has come to slot i, and the items in pending are still to be deleted: only wanted
      entries of s0 are gone, and none is left in the first i slots but those. */
  ghost predicate Deleting(y: Layout, hash: string -> nat, search: string -> bool, t: int, s0: Tab, s: Tab, i: nat,
                           pending: seq<Entry>)
    requires Sane(y)
  {
    && (forall k :: k in s.at ==>
          k in s0.at && s0.at[k] in s0.rec && s.at[k] in s.rec && s.rec[s.at[k]] == s0.rec[s0.at[k]])
    && (forall k :: k in s0.at && k !in s.at ==> s0.at[k] in s0.rec && Wanted(search, s0.rec[s0.at[k]], t))
    && (forall k :: k in s.at && Slot(y, hash, k) < i && Wanted(search, s.rec[s.at[k]], t) ==>
          s.rec[s.at[k]] in pending)
    && (forall x :: x in pending ==>
          x.key in s0.at && s0.at[x.key] in s0.rec && s0.rec[s0.at[x.key]] == x && Wanted(search, x, t))
  }

  lemma DeletingStart(y: Layout, hash: string -> nat, search: string -> bool, t: int, s: Tab)
    requires Sane(y) && Keyed(y, hash, s.rec, s.home, s.at)
    ensures Deleting(y, hash, search, t, s, s, 0, [])
  {
    hide Slot, Wanted;
  }

  lemma {:induction false} ItemsMember(rec: Records, l: seq<nat>, x: Entry)
    ensures x in Items(rec, l) <==> exists e :: e in l && e in rec && rec[e] == x
  {
    if l != [] {
      ItemsMember(rec, l[1..], x);
    }
  }

  /** Entry x is under its key, the search wants that key, and the ttl of the entry has not passed. */
  predicate Visible(s: Tab, search: string -> bool, x: Entry, t: int) {
    && x.key in s.at && s.at[x.key] in s.rec && s.rec[s.at[x.key]] == x
    && search(x.key) && (x.ttl == 0 || t <= x.ctime + x.ttl)
  }

  lemma {:induction false} ItemsAt(rec: Records, l: seq<nat>)
    requires forall e :: e in l ==> e in rec
    ensures |Items(rec, l)| == |l| && forall i :: 0 <= i < |l| ==> Items(rec, l)[i] == rec[l[i]]
  {
    if l != [] {
      ItemsAt(rec, l[1..]);
    }
  }

  lemma {:induction false} DistinctAt(l: seq<nat>, i: nat, j: nat)
    requires Distinct(l) && i < j < |l|
    ensures l[i] != l[j]
  {
    if i > 0 {
      DistinctAt(l[1..], i - 1, j - 1);
    } else {
      assert l[1..][j - 1] == l[j];
    }
  }

  /** The items are what is visible, each of it once. */
  lemma ItemsVisible(y: Layout, hash: string -> nat, s: Tab, search: string -> bool, t: int)
    requires Consistent(y, hash, s)
    ensures y.n <= |s.lists|
    ensures var items := Items(s.rec, Listed(s.rec, s.lists, search, 0, y.n, t));
            && (forall x :: x in items <==> Visible(s, search, x, t))
            && forall i, j :: 0 <= i < j < |items| ==> items[i].key != items[j].key
  {
    ConsistentParts(y, hash, s);
    hide Consistent, Listed, Slot, Items, Keyed, Referenced, Distinct;
    var l := Listed(s.rec, s.lists, search, 0, y.n, t);
    var items := Items(s.rec, l);
    forall e { ListsEveryKey(y, hash, s, search, e, t); }
    forall x ensures x in items <==> Visible(s, search, x, t) {
      ItemsMember(s.rec, l, x);
    }
    ItemsAt(s.rec, l);
    ListedDistinct(y, hash, s, search, 0, t);
    forall i, j | 0 <= i < j < |items| ensures items[i].key != items[j].key {
      DistinctAt(l, i, j);
      assert l[i] in l && l[j] in l;
    }
  }

  lemma DeletingFetch(y: Layout, hash: string -> nat, search: string -> bool, t: int, s0: Tab, s: Tab, i: nat, j: nat)
    requires Sane(y) && Deleting(y, hash, search, t, s0, s, i, []) && Consistent(y, hash, s) && i <= j <= y.n
    requires y.n <= |s.lists|
    ensures Deleting(y, hash, search, t, s0, s, j, Items(s.rec, Listed(s.rec, s.lists, search, i, j, t)))
  {
    hide Wanted, Consistent, Listed, Slot, Items;
    var l := Listed(s.rec, s.lists, search, i, j, t);
    forall k | k in s.at && Slot(y, hash, k) < j && Wanted(search, s.rec[s.at[k]], t)
      ensures s.rec[s.at[k]] in Items(s.rec, l)
    {
      FetchedKey(y, hash, search, t, s, i, j, k);
    }
    forall x | x in Items(s.rec, l)
      ensures x.key in s.at && s.at[x.key] in s.rec && s.rec[s.at[x.key]] == x && Wanted(search, x, t)
    {
      FetchedItem(y, hash, search, t, s, i, j, x);
    }
  }

  lemma FetchedKey(y: Layout, hash: string -> nat, search: string -> bool, t: int, s: Tab, i: nat, j: nat, k: string)
    requires Sane(y) && Consistent(y, hash, s) && i <= j <= y.n && y.n <= |s.lists| && k in s.at
    requires i <= Slot(y, hash, k) < j
    requires s.at[k] in s.rec && Wanted(search, s.rec[s.at[k]], t)
    ensures s.rec[s.at[k]] in Items(s.rec, Listed(s.rec, s.lists, search, i, j, t))
  {
    hide Wanted, Consistent, Listed, Slot, Items, InSome;
    KeyHoused(y, hash, s, k);
    InSomeAt(s.lists, i, j, s.at[k], Slot(y, hash, k));
    ListedMember(s.rec, s.lists, search, i, j, s.at[k], t);
    ItemsMember(s.rec, Listed(s.rec, s.lists, search, i, j, t), s.rec[s.at[k]]);
  }

  lemma FetchedItem(y: Layout, hash: string -> nat, search: string -> bool, t: int, s: Tab, i: nat, j: nat, x: Entry)
    requires Sane(y) && Consistent(y, hash, s) && i <= j <= y.n && y.n <= |s.lists|
    requires x in Items(s.rec, Listed(s.rec, s.lists, search, i, j, t))
    ensures x.key in s.at && s.at[x.key] in s.rec && s.rec[s.at[x.key]] == x && Wanted(search, x, t)
  {
    hide Wanted, Consistent, Listed, Slot, Items, InSome;
    var l := Listed(s.rec, s.lists, search, i, j, t);
    ItemsMember(s.rec, l, x);
    var e :| e in l && e in s.rec && s.rec[e] == x;
    ListedMember(s.rec, s.lists, search, i, j, e, t);
    var h := SomeSlot(s.lists, i, j, e);
    SlotEntry(y, hash, s, h, e);
  }

  lemma DeletingOne(y: Layout, hash: string -> nat, search: string -> bool, t: int, s0: Tab, s: Tab, s': Tab, i: nat,
                    x: Entry, rest: seq<Entry>)
    requires Sane(y) && Deleting(y, hash, search, t, s0, s, i, [x] + rest) && Keyed(y, hash, s0.rec, s0.home, s0.at)
    requires s'.at == s.at - {x.key}
    requires forall k :: k in s'.at ==> s'.at[k] in s'.rec && s'.at[k] in s.rec && s'.rec[s'.at[k]] == s.rec[s'.at[k]]
    ensures Deleting(y, hash, search, t, s0, s', i, rest)
  {
    hide Slot, Wanted;
    assert forall k :: k in s0.at ==> s0.rec[s0.at[k]].key == k;
    assert forall z :: z in [x] + rest <==> z == x || z in rest;
  }

  /** When all slots are through, no wanted entry is left, and all others are. */
  lemma DeletingEnd(y: Layout, hash: string -> nat, search: string -> bool, t: int, s0: Tab, s: Tab)
    requires Sane(y) && Deleting(y, hash, search, t, s0, s, y.n, []) && Keyed(y, hash, s0.rec, s0.home, s0.at)
    ensures forall k :: k in s.at <==> k in s0.at && s0.at[k] in s0.rec && !Visible(s0, search, s0.rec[s0.at[k]], t)
    ensures forall k :: k in s.at ==> s.at[k] in s.rec && s.rec[s.at[k]] == s0.rec[s0.at[k]]
  {
    assert forall k :: k in s0.at && s0.at[k] in s0.rec ==>
        var x := s0.rec[s0.at[k]]; x.key == k && (Visible(s0, search, x, t) <==> Wanted(search, x, t));
    hide Wanted, Visible;
    forall k | k in s.at ensures !Wanted(search, s0.rec[s0.at[k]], t) {
    }
  }
}
