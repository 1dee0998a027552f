/**
 All lists of the cache at once: one per hash slot, and the gc list of removed entries that are
 still referenced. Every entry is in exactly one of them, or in none while it is being stored.
 */
module Table {
  import opened Basics
  import opened Chains

  /** Offsets relative to the cache header: of its gc word, of the slots behind it; and the
      number of slots. */
  datatype Layout = Layout(gc: nat, slots: nat, n: nat)

  predicate Sane(y: Layout) {
    0 < y.gc < y.slots && 0 < y.n
  }

  /** sizeof(apc_cache_header_t) + nslots * sizeof(uintptr_t) */
  function Extent(y: Layout): nat {
    y.slots + 8 * y.n
  }

  /** The head word of list i. The gc list comes after the slots. */
  function Head(y: Layout, i: nat): nat {
    if i < y.n then y.slots + 8 * i else y.gc
  }

  /** Where an entry is: in slot i < n, on the gc list, or in flight. */
  type Homes = map<nat, nat>

  function OnGc(y: Layout): nat { y.n }
  function InFlight(y: Layout): nat { y.n + 1 }

  ghost predicate Chained(y: Layout, next: Links, prev: Links, lists: seq<seq<nat>>) {
    |lists| == y.n + 1 && forall i :: 0 <= i <= y.n ==> Chain(next, prev, Head(y, i), lists[i])
  }

  /** Every listed entry is at home in its list, and the other way round. */
  ghost predicate Housed(y: Layout, home: Homes, lists: seq<seq<nat>>) {
    && |lists| == y.n + 1
    && (forall i :: 0 <= i <= y.n ==> Distinct(lists[i]))
    && (forall i, e :: 0 <= i <= y.n && e in lists[i] ==> e in home && home[e] == i)
    && (forall e :: e in home && home[e] <= y.n ==> e in lists[home[e]])
    && (forall e :: e in home ==> Extent(y) <= e)
  }

  ghost predicate Linked(y: Layout, next: Links, prev: Links, home: Homes, lists: seq<seq<nat>>) {
    Sane(y) && Chained(y, next, prev, lists) && Housed(y, home, lists)
  }

  lemma HeadSmall(y: Layout, i: nat)
    requires Sane(y) && i <= y.n
    ensures 0 < Head(y, i) < Extent(y)
  {
  }

  /** The cells of list i, and e. */
  predicate Touched(y: Layout, lists: seq<seq<nat>>, i: nat, e: nat, c: nat)
    requires i < |lists|
  {
    c == Head(y, i) || c in lists[i] || c == e
  }

  lemma Member(y: Layout, home: Homes, lists: seq<seq<nat>>, i: nat, e: nat)
    requires Housed(y, home, lists) && i <= y.n && e in lists[i]
    ensures e in home && home[e] == i && Extent(y) <= e
  {
  }

  /** Changes to the cells of one list leave the other lists alone. */
  lemma OtherChains(y: Layout, next: Links, prev: Links, next': Links, prev': Links, home: Homes, lists: seq<seq<nat>>,
                    i: nat, e: nat, j: nat)
    requires Linked(y, next, prev, home, lists) && i <= y.n && j <= y.n && i != j
    requires Extent(y) <= e && (e in home ==> home[e] != j)
    requires forall c :: c in next && !Touched(y, lists, i, e, c) ==> c in next' && next'[c] == next[c]
    requires forall c :: c in prev && !Touched(y, lists, i, e, c) ==> c in prev' && prev'[c] == prev[c]
    ensures Chain(next', prev', Head(y, j), lists[j])
  {
    forall c | c == Head(y, j) || c in lists[j] ensures !Touched(y, lists, i, e, c) {
      if c in lists[j] {
        Member(y, home, lists, j, c);
      }
      if c in lists[i] {
        Member(y, home, lists, i, c);
      }
    }
    hide Touched, Head;
    ChainFrame(next, prev, next', prev', Head(y, j), lists[j]);
  }

  lemma ChainedUpdate(y: Layout, next': Links, prev': Links, lists: seq<seq<nat>>, i: nat, l: seq<nat>)
    requires |lists| == y.n + 1 && i <= y.n && Chain(next', prev', Head(y, i), l)
    requires forall j :: 0 <= j <= y.n && j != i ==> Chain(next', prev', Head(y, j), lists[j])
    ensures Chained(y, next', prev', lists[i := l])
  {
  }

  /** The cells of list i are pairwise different. */
  lemma OwnCells(y: Layout, home: Homes, lists: seq<seq<nat>>, i: nat)
    requires Sane(y) && Housed(y, home, lists) && i <= y.n
    ensures Distinct([Head(y, i)] + lists[i]) && 0 !in lists[i]
    ensures forall e :: e in lists[i] ==> e in home && home[e] == i && e >= Extent(y)
  {
    HeadSmall(y, i);
    forall e | e in lists[i] ensures e in home && home[e] == i && e >= Extent(y) {
      Member(y, home, lists, i, e);
    }
    assert ([Head(y, i)] + lists[i])[1..] == lists[i];
  }

  lemma ListWithout(pre: seq<nat>, e: nat, post: seq<nat>)
    requires Distinct(pre + [e] + post)
    ensures Distinct(pre + post) && forall x :: x in pre + post <==> x in pre + [e] + post && x != e
  {
    DistinctConcat(pre + [e], post);
    DistinctConcat(pre, [e]);
    DistinctConcat(pre, post);
  }

  lemma ListWith(pre: seq<nat>, e: nat, post: seq<nat>)
    requires Distinct(pre + post) && e !in pre + post
    ensures Distinct(pre + [e] + post) && forall x :: x in pre + [e] + post <==> x in pre + post || x == e
  {
    DistinctConcat(pre, post);
    DistinctConcat(pre, [e]);
    DistinctConcat(pre + [e], post);
  }

  lemma HousedShrink(y: Layout, home: Homes, lists: seq<seq<nat>>, i: nat, e: nat, l: seq<nat>)
    requires Housed(y, home, lists) && i <= y.n && e in lists[i]
    requires Distinct(l) && forall x :: x in l <==> x in lists[i] && x != e
    ensures Housed(y, home - {e}, lists[i := l]) && e in home && home[e] == i
  {
    hide Distinct, Extent;
    var home', lists' := home - {e}, lists[i := l];
    assert home[e] == i;
    forall j, x | 0 <= j <= y.n && x in lists'[j] ensures x in home' && home'[x] == j {
      assert x in lists[j];
      assert x in home && home[x] == j;
    }
    forall x | x in home' && home'[x] <= y.n ensures x in lists'[home'[x]] {
      assert x in lists[home[x]];
    }
  }

  lemma HousedWithout(y: Layout, home: Homes, lists: seq<seq<nat>>, i: nat, pre: seq<nat>, e: nat, post: seq<nat>)
    requires Housed(y, home, lists) && i <= y.n && lists[i] == pre + [e] + post
    ensures Housed(y, home - {e}, lists[i := pre + post]) && e in home && home[e] == i
  {
    assert Distinct(lists[i]);
    hide *;
    ListWithout(pre, e, post);
    HousedShrink(y, home, lists, i, e, pre + post);
  }

  lemma HousedWith(y: Layout, home: Homes, lists: seq<seq<nat>>, i: nat, pre: seq<nat>, e: nat, post: seq<nat>)
    requires Housed(y, home, lists) && i <= y.n && lists[i] == pre + post
    requires Extent(y) <= e && (e in home ==> home[e] == InFlight(y))
    ensures Housed(y, home[e := i], lists[i := pre + [e] + post])
  {
    assert Distinct(lists[i]) && e !in lists[i];
    hide *;
    ListWith(pre, e, post);
  }

  /** Unlinking an entry. */
  lemma Unlink(y: Layout, next: Links, prev: Links, home: Homes, lists: seq<seq<nat>>, i: nat, pre: seq<nat>, e: nat,
               post: seq<nat>)
    requires Linked(y, next, prev, home, lists) && i <= y.n && lists[i] == pre + [e] + post
    ensures Linked(y, UnlinkNext(next, prev, e), UnlinkPrev(next, prev, e), home - {e}, lists[i := pre + post])
    ensures e in home && home[e] == i && e in prev && e in next && prev[e] == Last(Head(y, i), pre)
  {
    var next', prev' := UnlinkNext(next, prev, e), UnlinkPrev(next, prev, e);
    OwnCells(y, home, lists, i);
    UnlinkChain(next, prev, Head(y, i), pre, e, post);
    HousedWithout(y, home, lists, i, pre, e, post);
    assert e in lists[i] && (post != [] ==> post[0] in lists[i]) && (pre != [] ==> Last(Head(y, i), pre) in lists[i]);
    forall j | 0 <= j <= y.n && j != i ensures Chain(next', prev', Head(y, j), lists[j]) {
      OtherChains(y, next, prev, next', prev', home, lists, i, e, j);
    }
    hide Chain, Housed;
    ChainedUpdate(y, next', prev', lists, i, pre + post);
  }

  /** Linking an entry behind the cell where pre ends. */
  lemma Link(y: Layout, next: Links, prev: Links, home: Homes, lists: seq<seq<nat>>, i: nat, pre: seq<nat>, e: nat,
             post: seq<nat>)
    requires Linked(y, next, prev, home, lists) && i <= y.n && lists[i] == pre + post
    requires Extent(y) <= e && (e in home ==> home[e] == InFlight(y))
    ensures var cell := Last(Head(y, i), pre);
            && cell in next
            && Linked(y, LinkNext(next, cell, e), LinkPrev(next, prev, cell, e), home[e := i],
                      lists[i := pre + [e] + post])
  {
    var cell := Last(Head(y, i), pre);
    var next', prev' := LinkNext(next, cell, e), LinkPrev(next, prev, cell, e);
    OwnCells(y, home, lists, i);
    HeadSmall(y, i);
    assert e !in lists[i];
    assert pre + [] + post == lists[i];
    LinkChain(next, prev, Head(y, i), pre, e, post);
    HousedWith(y, home, lists, i, pre, e, post);
    assert (post != [] ==> post[0] in lists[i]) && (pre != [] ==> cell in lists[i]);
    forall j | 0 <= j <= y.n && j != i ensures Chain(next', prev', Head(y, j), lists[j]) {
      OtherChains(y, next, prev, next', prev', home, lists, i, e, j);
    }
    hide Chain, Housed;
    ChainedUpdate(y, next', prev', lists, i, pre + [e] + post);
  }

  lemma HousedMoved(y: Layout, home: Homes, lists: seq<seq<nat>>, i: nat, pre: seq<nat>, o: nat, n: nat, post: seq<nat>)
    requires Housed(y, home, lists) && i <= y.n && lists[i] == pre + [o] + post && Extent(y) <= n && n !in home
    ensures Housed(y, (home - {o})[n := i], lists[i := pre + [n] + post])
  {
    HousedWithout(y, home, lists, i, pre, o, post);
    var lists1 := lists[i := pre + post];
    hide Housed;
    HousedWith(y, home - {o}, lists1, i, pre, n, post);
    assert lists1[i := pre + [n] + post] == lists[i := pre + [n] + post];
  }

  /** Defragmentation moves an entry from o to n. */
  lemma Move(y: Layout, next: Links, prev: Links, home: Homes, lists: seq<seq<nat>>, i: nat, pre: seq<nat>, o: nat,
             n: nat, post: seq<nat>)
    requires Linked(y, next, prev, home, lists) && i <= y.n && lists[i] == pre + [o] + post && Extent(y) <= n
    requires n !in home
    ensures Linked(y, MoveNext(next, prev, o, n), MovePrev(next, prev, o, n), (home - {o})[n := i],
                   lists[i := pre + [n] + post])
    ensures o in next && o in prev && prev[o] in next && (next[o] != 0 ==> next[o] in prev)
  {
    var next', prev' := MoveNext(next, prev, o, n), MovePrev(next, prev, o, n);
    OwnCells(y, home, lists, i);
    HeadSmall(y, i);
    assert n !in lists[i];
    hide MoveNext, MovePrev, Chain, Part, Distinct;
    MoveChain(next, prev, Head(y, i), pre, o, n, post);
    MoveTouches(next, prev, Head(y, i), pre, o, n, post);
    HousedMoved(y, home, lists, i, pre, o, n, post);
    forall j | 0 <= j <= y.n && j != i ensures Chain(next', prev', Head(y, j), lists[j]) {
      OtherChains(y, next, prev, next', prev', home, lists, i, n, j);
    }
    hide Housed, Head;
    ChainedUpdate(y, next', prev', lists, i, pre + [n] + post);
  }

  /** An entry begins or ends its life in flight. */
  lemma Launch(y: Layout, next: Links, prev: Links, home: Homes, lists: seq<seq<nat>>, e: nat)
    requires Linked(y, next, prev, home, lists) && e !in home && Extent(y) <= e
    ensures Linked(y, next, prev, home[e := InFlight(y)], lists)
  {
  }

  /** What a cursor sees that has passed pre in list i. */
  lemma AtCell(y: Layout, next: Links, prev: Links, home: Homes, lists: seq<seq<nat>>, i: nat, pre: seq<nat>,
               rest: seq<nat>)
    requires Linked(y, next, prev, home, lists) && i <= y.n && lists[i] == pre + rest
    ensures Last(Head(y, i), pre) in next
    ensures next[Last(Head(y, i), pre)] == 0 <==> rest == []
    ensures rest != [] ==> next[Last(Head(y, i), pre)] == rest[0] && rest[0] in home && home[rest[0]] == i
    ensures rest != [] ==> lists[i] == pre + [rest[0]] + rest[1..] && Last(Head(y, i), pre + [rest[0]]) == rest[0]
  {
    ChainJoin(next, prev, Head(y, i), pre, rest);
    ChainHead(next, prev, Last(Head(y, i), pre), rest);
    if rest != [] {
      assert rest[0] in lists[i];
      assert pre + [rest[0]] + rest[1..] == pre + rest;
    }
  }

  /** Where an entry stands in its list. */
  lemma Place(y: Layout, home: Homes, lists: seq<seq<nat>>, e: nat) returns (pre: seq<nat>, post: seq<nat>)
    requires Housed(y, home, lists) && e in home && home[e] <= y.n
    ensures lists[home[e]] == pre + [e] + post
  {
    var l := lists[home[e]];
    var k :| 0 <= k < |l| && l[k] == e;
    pre, post := l[..k], l[k + 1..];
  }
}
