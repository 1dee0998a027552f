/** APCUIterator over the active list (apc_iterator.c). */
module Iterator {
  import opened Cache
  import opened Effects
  import opened Entries
  import opened Listing
  import opened SharedMemory
  import opened Table

  class Iterator {
    const cache: Cache
    const search: string -> bool
    const chunkSize: nat
    var slotIdx: nat
    var stackIdx: nat
    var stack: seq<Entry>
    var count: int
    var size: int
    var hits: int

    constructor (cache: Cache, search: string -> bool, chunkSize: nat)
      ensures this.cache == cache && this.search == search && this.chunkSize > 0
      ensures (chunkSize > 0 ==> this.chunkSize == chunkSize)
      ensures slotIdx == 0 && stackIdx == 0 && stack == [] && count == 0 && size == 0 && hits == 0
    {
      this.cache, this.search, this.chunkSize := cache, search, if chunkSize == 0 then 100 else chunkSize;
      slotIdx, stackIdx, stack, count, size, hits := 0, 0, [], 0, 0, 0;
    }

    /** The items of the slots from i up to n, at time t. */
    ghost function Between(i: nat, n: nat, t: int): seq<Entry>
      reads cache
      requires n <= |cache.lists|
    {
      Items(cache.rec, Listed(cache.rec, cache.lists, search, i, n, t))
    }

    lemma BetweenSplit(i: nat, j: nat, n: nat, t: int)
      requires i <= j <= n <= |cache.lists|
      ensures Between(i, n, t) == Between(i, j, t) + Between(j, n, t)
    {
      ListedSplit(cache.rec, cache.lists, search, i, j, n, t);
      ItemsConcat(cache.rec, Listed(cache.rec, cache.lists, search, i, j, t),
        Listed(cache.rec, cache.lists, search, j, n, t));
    }

    /** One slot of apc_iterator_fetch_active or apc_iterator_totals. */
    method Collect(i: nat, t: int) returns (found: seq<Entry>)
      requires cache.Valid() && i < cache.y.n && i < |cache.lists|
      ensures found == Items(cache.rec, Filter(cache.rec, search, cache.lists[i], t))
    {
      hide Sma.Valid, Consistent, Recorded, Filter, Items, Keyed, Referenced;
      ghost var pre, rest := [], cache.lists[i];
      NothingCollected(cache.rec, search, t);
      assert pre + rest == cache.lists[i];
      found := [];
      cache.AtCursor(i, pre, rest);
      var offset := cache.next[Head(cache.y, i)];
      while offset != 0
        invariant pre + rest == cache.lists[i] && found == Items(cache.rec, Filter(cache.rec, search, pre, t))
        invariant offset == 0 <==> rest == []
        invariant rest != [] ==> offset == rest[0] && offset in cache.rec
        decreases |rest|
      {
        var entry := offset;
        cache.AtCursor(i, pre, rest);
        OneCollected(cache.rec, search, pre, entry, t);
        if Wanted(search, cache.rec[entry], t) {
          found := found + [cache.rec[entry]];
        }
        pre, rest := pre + [entry], rest[1..];
        cache.AtCursor(i, pre, rest);
        offset := cache.next[entry];
      }
      assert pre == cache.lists[i];
    }

    /** apc_iterator_fetch_active: the items of the next slots, until there are enough or no slots
        are left. */
    method FetchActive(t: int) returns (n: nat)
      requires cache.Valid() && chunkSize > 0
      modifies this`slotIdx, this`stackIdx, this`stack
      ensures |cache.lists| == cache.y.n + 1 && stackIdx == 0 && n == |stack|
      ensures old(slotIdx) <= slotIdx && (old(slotIdx) <= cache.y.n ==> slotIdx <= cache.y.n)
      ensures stack == if old(slotIdx) <= cache.y.n then Between(old(slotIdx), slotIdx, t) else []
      ensures n < chunkSize ==> slotIdx >= cache.y.n
    {
      hide Sma.Valid, Consistent, Recorded, Filter, Items, Keyed, Referenced, Listed;
      cache.Basics();
      BetweenNone(slotIdx, t);
      stack, n := [], 0;
      while n < chunkSize && slotIdx < cache.y.n
        invariant old(slotIdx) <= slotIdx && (old(slotIdx) <= cache.y.n ==> slotIdx <= cache.y.n) && n == |stack|
        invariant stack == if old(slotIdx) <= cache.y.n then Between(old(slotIdx), slotIdx, t) else []
        decreases cache.y.n - slotIdx
      {
        BetweenNext(old(slotIdx), slotIdx, t);
        var found := Collect(slotIdx, t);
        stack, n := stack + found, n + |found|;
        slotIdx := slotIdx + 1;
      }
      stackIdx := 0;
    }

    lemma BetweenNone(i: nat, t: int)
      requires |cache.lists| == cache.y.n + 1
      ensures i <= cache.y.n ==> Between(i, i, t) == []
    {
    }

    lemma BetweenNext(i: nat, j: nat, t: int)
      requires i <= j < |cache.lists|
      ensures Between(i, j + 1, t) == Between(i, j, t) + Items(cache.rec, Filter(cache.rec, search, cache.lists[j], t))
    {
      ListedNext(cache.rec, cache.lists, search, i, j, t);
      ItemsConcat(cache.rec, Listed(cache.rec, cache.lists, search, i, j, t),
        Filter(cache.rec, search, cache.lists[j], t));
    }

    /** rewind() */
    method Rewind(t: int)
      requires cache.Valid() && chunkSize > 0
      modifies this`slotIdx, this`stackIdx, this`stack
      ensures |cache.lists| == cache.y.n + 1 && slotIdx <= cache.y.n && stackIdx == 0
      ensures stack + Between(slotIdx, cache.y.n, t) == Between(0, cache.y.n, t)
    {
      hide Sma.Valid, Consistent, Recorded, Items, Listed;
      slotIdx, stackIdx := 0, 0;
      var n := FetchActive(t);
      BetweenSplit(0, slotIdx, cache.y.n, t);
    }

    /** What is still to come. */
    ghost function ToCome(t: int): seq<Entry>
      reads this, cache
      requires stackIdx <= |stack| && cache.y.n <= |cache.lists|
    {
      stack[stackIdx..] + Between(slotIdx, cache.y.n, t)
    }

    /** valid(): it is false exactly when nothing is left, and what is left stays the same. */
    method IsValid(t: int) returns (more: bool)
      requires cache.Valid() && chunkSize > 0 && |cache.lists| == cache.y.n + 1 && stackIdx <= |stack|
      requires slotIdx <= cache.y.n
      modifies this`slotIdx, this`stackIdx, this`stack
      ensures stackIdx <= |stack| && slotIdx <= cache.y.n && ToCome(t) == old(ToCome(t))
      ensures more <==> ToCome(t) != []
      ensures more ==> stackIdx < |stack|
    {
      hide Sma.Valid, Consistent, Recorded, Items, Listed;
      if |stack| == stackIdx {
        assert stack[stackIdx..] == [];
        var n := FetchActive(t);
        assert stack[stackIdx..] == stack;
        BetweenSplit(old(slotIdx), slotIdx, cache.y.n, t);
        if n == 0 {
          BetweenNone(slotIdx, t);
        }
      }
      more := |stack| != 0;
    }

    /** current() and next(): the first of what is left is handed out. */
    method Next(t: int) returns (item: Entry)
      requires stackIdx < |stack| && |cache.lists| == cache.y.n + 1
      modifies this`stackIdx
      ensures stackIdx <= |stack| && old(ToCome(t)) == [item] + ToCome(t)
    {
      hide Between;
      item := stack[stackIdx];
      assert stack[stackIdx..] == [item] + stack[stackIdx + 1..];
      stackIdx := stackIdx + 1;
    }

    lemma Shown(t: int)
      requires cache.Valid()
      ensures cache.y.n <= |cache.lists|
      ensures forall x: Entry :: x in Between(0, cache.y.n, t) <==>
        && x.key in cache.at && cache.at[x.key] in cache.rec && cache.rec[cache.at[x.key]] == x
        && search(x.key) && (x.ttl == 0 || t <= x.ctime + x.ttl)
      ensures forall i, j :: 0 <= i < j < |Between(0, cache.y.n, t)| ==>
        Between(0, cache.y.n, t)[i].key != Between(0, cache.y.n, t)[j].key
    {
      ItemsVisible(cache.y, cache.hash, cache.State(), search, t);
      hide Sma.Valid, Consistent, Recorded, Items, Listed;
      assert forall x: Entry :: x in Between(0, cache.y.n, t) <==> Visible(cache.State(), search, x, t);
    }

    /** A foreach over an unchanged cache at a fixed time: whatever the chunk size, the items in slot order; that
        is, what the search wants and a lookup finds, each of it once. */
    method Foreach(t: int) returns (items: seq<Entry>)
      requires cache.Valid() && chunkSize > 0
      modifies this`slotIdx, this`stackIdx, this`stack
      ensures |cache.lists| == cache.y.n + 1 && items == Between(0, cache.y.n, t)
      ensures forall x: Entry :: x in items <==>
        && x.key in cache.at && cache.at[x.key] in cache.rec && cache.rec[cache.at[x.key]] == x
        && search(x.key) && (x.ttl == 0 || t <= x.ctime + x.ttl)
      ensures forall i, j :: 0 <= i < j < |items| ==> items[i].key != items[j].key
    {
      hide Sma.Valid, Consistent, Recorded, Items, Listed;
      Shown(t);
      items := [];
      Rewind(t);
      assert stack[0..] == stack;
      var more := IsValid(t);
      while more
        invariant |cache.lists| == cache.y.n + 1 && stackIdx <= |stack| && slotIdx <= cache.y.n
        invariant items + ToCome(t) == Between(0, cache.y.n, t)
        invariant more <==> ToCome(t) != []
        invariant more ==> stackIdx < |stack|
        decreases |ToCome(t)|
      {
        var item := Next(t);
        items := items + [item];
        more := IsValid(t);
      }
    }

    /** apc_iterator_totals: they agree with what a foreach visits. */
    method Totals(t: int)
      requires cache.Valid() && count == 0 && size == 0 && hits == 0
      modifies this`count, this`size, this`hits
      ensures |cache.lists| == cache.y.n + 1
      ensures count == |Between(0, cache.y.n, t)| && size == SizeTotal(Between(0, cache.y.n, t))
      ensures hits == HitSum(Between(0, cache.y.n, t))
    {
      hide Sma.Valid, Consistent, Recorded, Items, Filter, Listed, HitSum, SizeTotal;
      cache.Basics();
      BetweenNone(0, t);
      NoSums();
      for i := 0 to cache.y.n
        invariant count == |Between(0, i, t)| && size == SizeTotal(Between(0, i, t)) && hits == HitSum(Between(0, i, t))
      {
        var found := Collect(i, t);
        BetweenNext(0, i, t);
        ghost var sofar := Between(0, i, t);
        assert sofar + found[..0] == sofar;
        for j := 0 to |found|
          invariant count == |sofar + found[..j]| && size == SizeTotal(sofar + found[..j])
          invariant hits == HitSum(sofar + found[..j])
        {
          SumsSnoc(sofar + found[..j], found[j]);
          assert sofar + found[..j + 1] == sofar + found[..j] + [found[j]];
          size := size + found[j].memSize;
          hits := hits + found[j].nhits;
          count := count + 1;
        }
        assert found[..|found|] == found;
      }
    }

    /** apc_iterator_delete with a fresh iterator: exactly the wanted entries are deleted. */
    method DeleteAll(t: int, now: int)
      requires cache.Valid() && chunkSize > 0 && slotIdx == 0
      modifies this`slotIdx, this`stackIdx, this`stack
      modifies cache`next, cache`prev, cache`rec, cache`nentries, cache`memSize, cache`home, cache`lists, cache`at,
        cache`last
      modifies cache.sma`hdr, cache.sma`avail, cache.sma`bs, cache.sma`fl
      ensures cache.Valid()
      ensures forall k :: k in old(cache.at) ==> old(cache.at)[k] in old(cache.rec)
      ensures forall k :: k in cache.at <==>
        k in old(cache.at) && !(var x := old(cache.rec)[old(cache.at)[k]];
                                search(k) && (x.ttl == 0 || t <= x.ctime + x.ttl))
      ensures forall k :: k in cache.at ==>
        cache.at[k] in cache.rec && cache.rec[cache.at[k]] == old(cache.rec)[old(cache.at)[k]]
    {
      hide Sma.Valid, Consistent, Recorded, Items, Listed, Deleting, Keyed, Referenced, Wanted, Upheld;
      cache.Basics();
      ghost var s0 := cache.State();
      DeletingStart(cache.y, cache.hash, search, t, s0);
      var n := FetchActive(t);
      DeletingFetch(cache.y, cache.hash, search, t, s0, cache.State(), 0, slotIdx);
      while n != 0
        invariant cache.Valid() && Sane(cache.y) && slotIdx <= cache.y.n && stackIdx == 0 && n == |stack|
        invariant Deleting(cache.y, cache.hash, search, t, s0, cache.State(), slotIdx, stack)
        invariant n < chunkSize ==> slotIdx >= cache.y.n
        decreases cache.y.n - slotIdx, n
      {
        DeleteStack(t, now, s0);
        cache.Basics();
        ghost var i := slotIdx;
        BetweenNone(i, t);
        n := FetchActive(t);
        DeletingFetch(cache.y, cache.hash, search, t, s0, cache.State(), i, slotIdx);
      }
      assert stack == [];
      DeletingEnd(cache.y, cache.hash, search, t, s0, cache.State());
      assert forall k :: k in s0.at ==> s0.rec[s0.at[k]].key == k;
    }

    /** Its inner loop. */
    method DeleteStack(t: int, now: int, ghost s0: Tab)
      requires cache.Valid() && Sane(cache.y) && stackIdx == 0
      requires Deleting(cache.y, cache.hash, search, t, s0, cache.State(), slotIdx, stack)
      requires Keyed(cache.y, cache.hash, s0.rec, s0.home, s0.at)
      modifies this`stackIdx
      modifies cache`next, cache`prev, cache`rec, cache`nentries, cache`memSize, cache`home, cache`lists, cache`at,
        cache`last
      modifies cache.sma`hdr, cache.sma`avail, cache.sma`bs, cache.sma`fl
      ensures cache.Valid() && Deleting(cache.y, cache.hash, search, t, s0, cache.State(), slotIdx, [])
    {
      hide Sma.Valid, Consistent, Recorded, Items, Listed, Deleting, Keyed, Referenced, Wanted, Upheld;
      assert stack[0..] == stack;
      while stackIdx < |stack|
        invariant cache.Valid() && stackIdx <= |stack|
        invariant Deleting(cache.y, cache.hash, search, t, s0, cache.State(), slotIdx, stack[stackIdx..])
      {
        ghost var s := cache.State();
        assert stack[stackIdx..] == [stack[stackIdx]] + stack[stackIdx + 1..];
        var item := stack[stackIdx];
        stackIdx := stackIdx + 1;
        var found := cache.Delete(item.key, now);
        DeletingOne(cache.y, cache.hash, search, t, s0, s, cache.State(), slotIdx, item, stack[stackIdx..]);
      }
      assert stack[stackIdx..] == [];
    }
  }

  lemma NoSums()
    ensures HitSum([]) == 0 && SizeTotal([]) == 0
  {
  }

  lemma NothingCollected(rec: Records, search: string -> bool, t: int)
    ensures Items(rec, Filter(rec, search, [], t)) == []
  {
  }

  lemma OneCollected(rec: Records, search: string -> bool, pre: seq<nat>, e: nat, t: int)
    requires e in rec
    ensures Items(rec, Filter(rec, search, pre + [e], t)) ==
      Items(rec, Filter(rec, search, pre, t)) + if Wanted(search, rec[e], t) then [rec[e]] else []
  {
    FilterSnoc(rec, search, pre, e, t);
    ItemsConcat(rec, Filter(rec, search, pre, t), if Wanted(search, rec[e], t) then [e] else []);
    assert [e][1..] == [];
  }
}
