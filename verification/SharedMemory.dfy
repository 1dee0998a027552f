/**
 The shared memory allocator of apc_sma.c. The class keeps the segment's block headers, the
 payload bytes and the count of available bytes, and updates them as the C functions do. The
 ghost fields are the blocks and the free list that the headers stand for.
 */
module SharedMemory {
  import opened Basics
  import opened Blocks
  import opened Compaction
  import opened Heap
  import opened Payload
  import opened Sweep

  /** How many extra blocks find_block checks for a better fit. */
  const BEST_FIT_LIMIT: nat := 3

  // ---- what find_block promises, on the free list

  ghost predicate FirstFit(m: Mem, fl: seq<nat>, r: nat, i: nat) {
    i < |fl| && fl[i] in m && m[fl[i]].size >= r && forall j :: 0 <= j < i && fl[j] in m ==> m[fl[j]].size < r
  }

  /** fl[k] is the first smallest fitting block among fl[i] and the n blocks after it. */
  ghost predicate BestOf(m: Mem, fl: seq<nat>, r: nat, i: nat, n: nat, k: nat) {
    && i <= k <= i + n && k < |fl| && fl[k] in m && m[fl[k]].size >= r
    && forall j :: i <= j <= i + n && j < |fl| && fl[j] in m && m[fl[j]].size >= r ==>
         m[fl[k]].size < m[fl[j]].size || (m[fl[k]].size == m[fl[j]].size && k <= j)
  }

  ghost predicate Chosen(m: Mem, fl: seq<nat>, r: nat, k: nat) {
    exists i :: FirstFit(m, fl, r, i) && BestOf(m, fl, r, i, 3, k)
  }

  lemma {:induction false} FreeSumBounds(bs: seq<Blk>, b: Blk)
    requires b in bs
    ensures Tag(b) <= FreeSum(bs)
  {
    if b != bs[0] {
      FreeSumBounds(bs[1..], b);
    }
  }

  /** Every listed offset is a free block, and its header says so. */
  lemma ListedIsFree(m: Mem, bs: seq<Blk>, fl: seq<nat>, first: nat, hi: nat, o: nat) returns (b: Blk)
    requires HeapOk(m, bs, fl, first, hi) && o in fl
    ensures b in bs && b.free && b.off == o && o in m && m[o].size == b.size && Sound(b)
  {
    b :| b in bs && b.free && b.off == o;
    RunRange(m, bs, first + BLOCK, 0, b);
  }

  lemma TooLittleFree(m: Mem, bs: seq<Blk>, fl: seq<nat>, first: nat, hi: nat, r: nat)
    requires HeapOk(m, bs, fl, first, hi) && FreeSum(bs) < r
    ensures forall o :: o in fl ==> o in m && m[o].size < r
  {
    forall o | o in fl ensures o in m && m[o].size < r {
      var b := ListedIsFree(m, bs, fl, first, hi, o);
      FreeSumBounds(bs, b);
    }
  }

  lemma NoneFits(m: Mem, bs: seq<Blk>, fl: seq<nat>, first: nat, hi: nat, r: nat)
    requires HeapOk(m, bs, fl, first, hi) && forall o :: o in fl ==> o in m && m[o].size < r
    ensures forall b :: b in bs && b.free ==> b.size < r
  {
    forall b | b in bs && b.free ensures b.size < r {
      assert b.off in fl;
      RunRange(m, bs, first + BLOCK, 0, b);
    }
  }

  function Nth(fl: seq<nat>, k: nat, hi: nat): nat {
    if k < |fl| then fl[k] else hi
  }

  /** Walking the free list visits fl in order and ends at the last sentinel. */
  lemma WalkAt(m: Mem, bs: seq<Blk>, fl: seq<nat>, first: nat, hi: nat, k: nat)
    requires HeapOk(m, bs, fl, first, hi) && k <= |fl|
    ensures Nth(fl, k, hi) in m && Nth(fl, k, hi) != 0
    ensures m[Nth(fl, k, hi)].fnext == if k < |fl| then Nth(fl, k + 1, hi) else 0
    ensures k < |fl| ==> Nth(fl, k + 1, hi) != 0
    ensures k == |fl| ==> m[Nth(fl, k, hi)].size == 0
  {
    var l := [first] + fl + [hi];
    assert l[k + 1] == Nth(fl, k, hi) && l[|l| - 1] == hi;
    assert k < |fl| ==> l[k + 2] == Nth(fl, k + 1, hi);
  }

  lemma WalkFrom(m: Mem, bs: seq<Blk>, fl: seq<nat>, first: nat, hi: nat)
    requires HeapOk(m, bs, fl, first, hi)
    ensures first in m && m[first].fnext == Nth(fl, 0, hi) != 0
  {
    var l := [first] + fl + [hi];
    assert l[0] == first && l[1] == Nth(fl, 0, hi);
  }

  // ---- the neighbours of a block in hand

  lemma InHandTiles(m: Mem, pre: seq<Blk>, c: Blk, post: seq<Blk>, tag: nat, lo: nat, hi: nat)
    requires Gap(m, pre, c, post, tag, lo, hi)
    ensures Separated(pre) && forall b :: b in pre ==> Sound(b)
  {
    RunTiles(m, pre, lo, 0);
    TilesRange(pre, lo, c.off);
  }

  lemma FreeBefore(m: Mem, pre: seq<Blk>, c: Blk, post: seq<Blk>, tag: nat, fl: seq<nat>, first: nat, hi: nat)
    returns (pre': seq<Blk>, p: Blk, k: nat)
    requires InHand(m, pre, c, post, tag, fl, first, hi) && TagAfter(pre, 0) != 0
    ensures pre == pre' + [p] && p.free && k < |fl| && fl[k] == p.off
    ensures Separated(pre) && forall b :: b in pre ==> Sound(b)
  {
    InHandTiles(m, pre, c, post, tag, first + BLOCK, hi);
    LastTag(pre, 0);
    pre', p := pre[..|pre| - 1], pre[|pre| - 1];
    assert p in pre && p.off in FreeOffs(pre);
    assert p.off in fl;
    k :| 0 <= k < |fl| && fl[k] == p.off;
  }

  lemma FreeAfter(m: Mem, pre: seq<Blk>, c: Blk, post: seq<Blk>, tag: nat, fl: seq<nat>, first: nat, hi: nat)
    returns (n: Blk, post': seq<Blk>, k: nat)
    requires InHand(m, pre, c, post, tag, fl, first, hi) && m[c.off + c.size].fnext != 0
    ensures post == [n] + post' && n.free && k < |fl| && fl[k] == n.off
    ensures Separated(pre) && forall b :: b in pre ==> Sound(b)
  {
    InHandTiles(m, pre, c, post, tag, first + BLOCK, hi);
    n, post' := post[0], post[1..];
    assert n in post && n.off in FreeOffs(post);
    assert n.off in fl;
    k :| 0 <= k < |fl| && fl[k] == n.off;
  }

  lemma JoinedBefore(pre: seq<Blk>, p: Blk, b: Blk, post: seq<Blk>)
    requires Separated(pre + [p]) && TagAfter(pre, 0) == 0 && p.free && forall c :: c in pre ==> Sound(c)
    ensures Coalesce(pre + [Free(p.off, p.size + b.size)] + post) == Coalesce(pre + [p] + [Free(b.off, b.size)] + post)
    ensures FreeSum(pre + [p]) == FreeSum(pre) + p.size
  {
    var f := Free(b.off, b.size);
    SeparatedConcat(pre, [p]);
    CoalesceJoin(pre, p, f, post);
    assert pre + [p, f] + post == pre + [p] + [f] + post;
    FreeSumConcat(pre, [p]);
    assert FreeSum([p]) == p.size;
  }

  lemma JoinedAfter(pre: seq<Blk>, b: Blk, n: Blk, post: seq<Blk>)
    requires Separated(pre) && TagAfter(pre, 0) == 0 && n.free && forall c :: c in pre ==> Sound(c)
    ensures Coalesce(pre + [Free(b.off, b.size + n.size)] + post) ==
      Coalesce(pre + [Free(b.off, b.size)] + ([n] + post))
    ensures FreeSum([n] + post) == n.size + FreeSum(post)
  {
    CoalesceJoin(pre, Free(b.off, b.size), n, post);
    Regroup(pre, Free(b.off, b.size), n, post);
    assert ([n] + post)[1..] == post;
  }

  lemma FreeSumWithout(pre: seq<Blk>, b: Blk, post: seq<Blk>)
    requires !b.free
    ensures FreeSum(pre + [b] + post) == FreeSum(pre) + FreeSum(post)
  {
    FreeSumOf(pre, [b], post);
    assert FreeSum([b]) == 0;
  }

  /** A heap in order is what coalescing leaves. */
  lemma SettledIsCoalesced(m: Mem, bs: seq<Blk>, pre: seq<Blk>, c: Blk, post: seq<Blk>, fl: seq<nat>, first: nat,
                           hi: nat)
    requires HeapOk(m, bs, fl, first, hi) && bs == pre + [Free(c.off, c.size)] + post
    ensures bs == Coalesce(pre + [Free(c.off, c.size)] + post)
    ensures FreeSum(bs) == FreeSum(pre) + c.size + FreeSum(post)
  {
    RunTiles(m, bs, first + BLOCK, 0);
    CoalesceSeparated(bs);
    FreeSumOf(pre, [Free(c.off, c.size)], post);
    assert FreeSum([Free(c.off, c.size)]) == c.size;
  }

  lemma FreshHeap(m: Mem, first: nat, hi: nat)
    requires 0 < first && first + 2 * BLOCK <= hi
    requires var x, n := first + BLOCK, hi - (first + BLOCK);
             m == map[first := Header(0, 0, x, 0), x := Header(n, 0, hi, first), hi := Header(0, n, 0, x)]
    ensures HeapOk(m, [Free(first + BLOCK, hi - (first + BLOCK))], [first + BLOCK], first, hi)
  {
    var b := Free(first + BLOCK, hi - (first + BLOCK));
    assert Run(m, [b][1..], hi, b.size) && End([b][1..], hi) == hi && TagAfter([b][1..], Tag(b)) == b.size;
    assert [first] + [b.off] + [hi] == [first, b.off, hi];
    assert FreeOffs([b]) == {b.off};
  }

  // ---- defragmentation

  /** Setting a back tag and linking a block into the free list do not interfere. */
  lemma LinkThenTag(m: Mem, first: nat, c: nat, o: nat, p: nat)
    requires c in m && first in m && o in m && c != first && m[first].fnext in m
    ensures var m1 := m[o := m[o].(prevSize := p)];
            var l := LinkAtStart(m, first, c);
            && m1[first].fnext in m1 && o in l
            && LinkAtStart(m1, first, c) == l[o := l[o].(prevSize := p)] && l[o].size == m[o].size
            && l[c].size == m[c].size
  {
  }

  /** The blocks still to be visited tile the rest of the segment. */
  lemma SweptTiles(m: Mem, pre: seq<Blk>, tail: seq<Blk>, fl: seq<nat>, first: nat, hi: nat)
    requires Swept(m, pre, tail, fl, first, hi)
    ensures Tiles(pre, first + BLOCK, End(pre, first + BLOCK))
    ensures Tiles(tail, End(pre, first + BLOCK), hi)
  {
    var at := End(pre, first + BLOCK);
    RunTiles(m, pre, first + BLOCK, 0);
    if tail != [] && tail[0].free {
      RunTiles(m, tail[1..], at + tail[0].size, m[at + tail[0].size].prevSize);
    } else {
      RunTiles(m, tail, at, TagAfter(pre, 0));
    }
  }

  class Sma {
    const first: nat        // offset of the first sentinel
    const hi: nat           // offset of the last sentinel
    const minBlock: nat     // min_block_size
    const maxAlloc: nat     // max_alloc_size
    var hdr: Mem
    var avail: nat
    var mem: seq<Byte>
    ghost var bs: seq<Blk>
    ghost var fl: seq<nat>

    ghost predicate Valid()
      reads this
    {
      && HeapOk(hdr, bs, fl, first, hi)
      && avail == FreeSum(bs)
      && minBlock >= BLOCK && |mem| == hi + BLOCK
    }

    lemma Tiling()
      requires Valid()
      ensures Tiles(bs, first + BLOCK, hi) && Separated(bs) && AllSound(bs)
    {
      RunTiles(hdr, bs, first + BLOCK, 0);
      TilesRange(bs, first + BLOCK, hi);
    }

    lemma Spans()
      requires Valid()
      ensures |mem| == hi + BLOCK
    {
    }

    /** apc_sma_init: one free block between the sentinels. */
    constructor (size: nat, headerSize: nat, minAlloc: nat)
      requires headerSize > 0 && AlignWord(headerSize) + 3 * BLOCK <= AlignWord(size)
      ensures Valid()
      ensures first == AlignWord(headerSize) && hi + BLOCK == AlignWord(size)
      ensures minBlock ==
        if minAlloc > 0 then AlignWord(minAlloc + AlignWord(BLOCK)) else AlignWord(1) + AlignWord(BLOCK)
      ensures bs == [Free(first + BLOCK, hi - (first + BLOCK))] && maxAlloc == avail - BLOCK
    {
      var start, end := AlignWord(headerSize), AlignWord(size);
      first := start;
      hi := end - BLOCK;
      minBlock := if minAlloc > 0 then AlignWord(minAlloc + AlignWord(BLOCK)) else AlignWord(1) + AlignWord(BLOCK);
      var free := end - start - BLOCK - BLOCK;
      avail := free;
      maxAlloc := free - BLOCK;
      var empty := start + BLOCK;
      var last := empty + free;
      hdr := map[start := Header(0, 0, empty, 0), empty := Header(free, 0, last, start),
                 last := Header(0, free, 0, empty)];
      mem := seq(end, i => 0);
      bs, fl := [Free(empty, free)], [empty];
      new;
      FreshHeap(hdr, start, last);
    }

    /** find_block: 0 stands for NULL. */
    method FindBlock(realsize: nat) returns (found: nat, ghost k: nat)
      requires Valid() && realsize > 0
      ensures found == 0 ==> forall o :: o in fl ==> o in hdr && hdr[o].size < realsize
      ensures found != 0 ==> k < |fl| && fl[k] == found && Chosen(hdr, fl, realsize, k)
    {
      found, k := 0, 0;
      if avail < realsize {
        TooLittleFree(hdr, bs, fl, first, hi, realsize);
        return;
      }
      WalkFrom(hdr, bs, fl, first, hi);
      ghost var p := 0;
      var cur := first;
      while hdr[cur].fnext != 0
        invariant 0 <= p <= |fl| + 1 && cur in hdr
        invariant p <= |fl| ==> hdr[cur].fnext == Nth(fl, p, hi) != 0
        invariant p == |fl| + 1 ==> hdr[cur].fnext == 0
        invariant forall j :: 0 <= j < p && j < |fl| ==> fl[j] in hdr && hdr[fl[j]].size < realsize
        decreases |fl| + 1 - p
      {
        WalkAt(hdr, bs, fl, first, hi, p);
        hide HeapOk;
        cur := hdr[cur].fnext;
        if hdr[cur].size >= realsize {
          found := cur;
          break;
        }
        p := p + 1;
      }
      if found != 0 {
        found, k := BetterFit(realsize, found, p);
      }
    }

    /** The second half of find_block: a smaller block that also fits, a few places on. */
    method BetterFit(realsize: nat, block: nat, ghost i0: nat) returns (found: nat, ghost k: nat)
      requires Valid() && realsize > 0 && FirstFit(hdr, fl, realsize, i0) && block == fl[i0]
      ensures k < |fl| && fl[k] == found && found != 0 && Chosen(hdr, fl, realsize, k)
    {
      assert BestOf(hdr, fl, realsize, i0, 0, i0);
      hide HeapOk, FirstFit, BestOf, Chosen;
      var cur := block;
      found, k := block, i0;
      var i := 0;
      WalkAt(hdr, bs, fl, first, hi, i0);
      while i < BEST_FIT_LIMIT && hdr[cur].fnext != 0
        invariant 0 <= i <= BEST_FIT_LIMIT && i0 + i <= |fl|
        invariant cur == Nth(fl, i0 + i, hi) && cur in hdr
        invariant hdr[cur].fnext == if i0 + i < |fl| then Nth(fl, i0 + i + 1, hi) else 0
        invariant hdr[cur].fnext == 0 <==> i0 + i == |fl|
        invariant k < |fl| && found == fl[k] && found != 0 && found in hdr
        invariant BestOf(hdr, fl, realsize, i0, i, k)
      {
        cur := hdr[cur].fnext;
        i := i + 1;
        WalkAt(hdr, bs, fl, first, hi, i0 + i);
        if hdr[cur].size >= realsize && hdr[cur].size < hdr[found].size {
          found, k := cur, i0 + i;
        }
      }
      WalkAt(hdr, bs, fl, first, hi, i0 + i);
    }

    /** sma_allocate: None stands for SIZE_MAX. It fails exactly when no free block is large
        enough; else the block it chose is carved, and all other blocks stay as they are. Only the bytes
        that are needed are taken, unless what is left of the block would be too small to be one. */
    method Allocate(size: nat) returns (off: Option<nat>, ghost b: Blk)
      requires Valid()
      modifies this`hdr, this`avail, this`bs, this`fl
      ensures Valid()
      ensures off.None? <==> forall c :: c in old(bs) && c.free ==> c.size < RealSize(size)
      ensures off.None? ==> hdr == old(hdr) && avail == old(avail) && bs == old(bs) && fl == old(fl)
      ensures off.Some? ==> b in old(bs) && b.free && b.size >= RealSize(size) && off.value == b.off + BLOCK
      ensures off.Some? ==> bs == Allocated(old(bs), b, RealSize(size), minBlock)
      ensures off.Some? ==>
        && RealSize(size) <= old(avail) - avail < RealSize(size) + minBlock
        && Blk(b.off, old(avail) - avail, false, RealSize(size)) in bs
        && (b.size < RealSize(size) + minBlock ==> old(avail) - avail == b.size)
        && (b.size >= RealSize(size) + minBlock ==>
              old(avail) - avail == RealSize(size) && Free(b.off + RealSize(size), b.size - RealSize(size)) in bs)
        && forall c: Blk :: !c.free && c.off != b.off ==> (c in bs <==> c in old(bs))
      ensures off.Some? ==>
        exists k :: 0 <= k < |old(fl)| && old(fl)[k] == b.off && Chosen(old(hdr), old(fl), RealSize(size), k)
    {
      var realsize := RealSize(size);
      var cur;
      ghost var k;
      cur, k := FindBlock(realsize);
      if cur == 0 {
        NoneFits(hdr, bs, fl, first, hi, realsize);
        return None, Free(0, 0);
      }
      b := ListedIsFree(hdr, bs, fl, first, hi, cur);
      Tiling();
      AllocatedCarves(bs, b, realsize, minBlock, first + BLOCK, hi);
      Take(cur, realsize, b, k);
      off := Some(cur + BLOCK);
    }

    /** sma_allocate after find_block. */
    method Take(cur: nat, realsize: nat, ghost b: Blk, ghost k: nat)
      requires Valid() && b in bs && b.free && b.off == cur && BLOCK <= realsize <= b.size
      requires k < |fl| && fl[k] == cur
      modifies this`hdr, this`avail, this`bs, this`fl
      ensures Valid()
      ensures bs == Allocated(old(bs), b, realsize, minBlock)
    {
      hide HeapOk, InHand, Unlink, FreeSum, Tiles, Separated, AllSound, Replace;
      Tiling();
      ghost var pre, post := Locate(bs, b, first + BLOCK, hi);
      HoldFree(hdr, pre, b, post, fl, k, first, hi);
      ReplaceAt(pre, b, post, Split(b, realsize, minBlock));
      FreeSumOf(pre, [b], post);
      FreeSumOf(pre, Split(b, realsize, minBlock), post);
      SplitFreeSum(b, realsize, minBlock);
      hdr := Unlink(hdr, cur);
      fl := Drop(fl, k);
      if hdr[cur].size < realsize + minBlock {
        TakeWhole(cur, realsize, pre, b, post);
      } else {
        TakeSplit(cur, realsize, pre, b, post);
      }
      avail := avail - hdr[cur].size;
    }

    method TakeWhole(cur: nat, realsize: nat, ghost pre: seq<Blk>, ghost b: Blk, ghost post: seq<Blk>)
      requires InHand(hdr, pre, b, post, b.size, fl, first, hi) && b.off == cur && BLOCK <= realsize <= b.size
      modifies this`hdr, this`bs
      ensures bs == pre + [Blk(cur, b.size, false, realsize)] + post && HeapOk(hdr, bs, fl, first, hi)
      ensures cur in hdr && hdr[cur].size == b.size
    {
      SettleUsed(hdr, pre, b, post, b.size, fl, realsize, first, hi);
      hdr := hdr[cur + hdr[cur].size := hdr[cur + hdr[cur].size].(prevSize := 0)];
      hdr := hdr[cur := hdr[cur].(fnext := 0, fprev := realsize)];
      bs := pre + [Blk(cur, b.size, false, realsize)] + post;
    }

    method TakeSplit(cur: nat, realsize: nat, ghost pre: seq<Blk>, ghost b: Blk, ghost post: seq<Blk>)
      requires InHand(hdr, pre, b, post, b.size, fl, first, hi) && b.off == cur
      requires BLOCK <= realsize && realsize + BLOCK <= b.size && (post != [] ==> !post[0].free)
      modifies this`hdr, this`bs, this`fl
      ensures bs == pre + [Blk(cur, realsize, false, realsize), Free(cur + realsize, b.size - realsize)] + post
      ensures HeapOk(hdr, bs, fl, first, hi) && cur in hdr && hdr[cur].size == realsize
    {
      ghost var u, rest := Blk(cur, realsize, false, realsize), Free(cur + realsize, b.size - realsize);
      SplitOff(hdr, pre, b, post, b.size, fl, realsize, first, hi);
      var oldsize := hdr[cur].size;
      hdr := hdr[cur := hdr[cur].(size := realsize, fnext := 0, fprev := realsize)];
      var nxt := cur + realsize;
      hdr := hdr[nxt := Header(oldsize - realsize, 0, 0, 0)];
      hide InHand;
      PutFree(nxt, pre + [u], rest, post, b.size);
      RunRange(hdr, bs, first + BLOCK, 0, u);
      assert pre + [u, rest] + post == pre + [u] + [rest] + post;
    }

    /** The block in hand goes to the head of the free list, and its successor learns its size. */
    method PutFree(cur: nat, ghost pre: seq<Blk>, ghost c: Blk, ghost post: seq<Blk>, ghost tag: nat)
      requires InHand(hdr, pre, c, post, tag, fl, first, hi) && c.off == cur
      requires TagAfter(pre, 0) == 0 && (post != [] ==> !post[0].free)
      modifies this`hdr, this`bs, this`fl
      ensures bs == pre + [Free(cur, c.size)] + post && fl == [cur] + old(fl) && HeapOk(hdr, bs, fl, first, hi)
    {
      SettleFreeHeap(hdr, pre, c, post, tag, fl, first, hi);
      hide HeapOk, LinkAtStart;
      hdr := hdr[cur + hdr[cur].size := hdr[cur + hdr[cur].size].(prevSize := hdr[cur].size)];
      hdr := LinkAtStart(hdr, first, cur);
      bs := pre + [Free(cur, c.size)] + post;
      fl := [cur] + fl;
    }

    /** The block b is taken into hand, to be given back. */
    lemma GiveBack(b: Blk) returns (pre: seq<Blk>, post: seq<Blk>)
      requires Valid() && b in bs && !b.free
      ensures bs == pre + [b] + post && InHand(hdr, pre, b, post, 0, fl, first, hi)
      ensures Freed(bs, b) == Coalesce(pre + [Free(b.off, b.size)] + post) == Vacated(bs, {b.off})
      ensures FreeSum(bs) == FreeSum(pre) + FreeSum(post) && b.off in hdr && hdr[b.off].size == b.size
      ensures forall c: Blk :: !c.free ==> (c in Freed(bs, b) <==> c in bs && c.off != b.off)
    {
      Tiling();
      FreedIsVacated(bs, b, first + BLOCK, hi);
      VacatedLive(bs, {b.off});
      pre, post := Locate(bs, b, first + BLOCK, hi);
      HoldUsed(hdr, pre, b, post, fl, first, hi);
      ReplaceAt(pre, b, post, [Free(b.off, b.size)]);
      FreeSumWithout(pre, b, post);
      hide InHand, Coalesce, FreeSum, Tiles, Vacated, Replace, Emptied;
      RunRange(hdr, bs, first + BLOCK, 0, b);
    }

    /** sma_deallocate: the block b, whose payload is at offset, is given back. */
    method Deallocate(offset: nat, ghost b: Blk) returns (size: nat)
      requires Valid() && b in bs && !b.free && offset == b.off + BLOCK
      modifies this`hdr, this`avail, this`bs, this`fl
      ensures Valid() && size == b.size && avail == old(avail) + b.size
      ensures bs == Freed(old(bs), b) == Vacated(old(bs), {b.off})
      ensures forall c: Blk :: !c.free ==> (c in bs <==> c in old(bs) && c.off != b.off)
    {
      hide HeapOk, Coalesce, FreeSum, Tiles, Freed, Vacated, InHand;
      ghost var pre, post := GiveBack(b);
      var cur := offset - BLOCK;
      avail := avail + hdr[cur].size;
      size := hdr[cur].size;
      ghost var c;
      cur, pre, c := JoinPrevious(cur, pre, b, post);
      ghost var tag;
      post, c, tag := JoinNext(cur, pre, c, post);
      PutFree(cur, pre, c, post, tag);
      SettledIsCoalesced(hdr, bs, pre, c, post, fl, first, hi);
    }

    /** If the block before the one in hand is free, the two are joined. */
    method JoinPrevious(block: nat, ghost pre: seq<Blk>, ghost b: Blk, ghost post: seq<Blk>)
      returns (cur: nat, ghost pre': seq<Blk>, ghost c: Blk)
      requires InHand(hdr, pre, b, post, 0, fl, first, hi) && b.off == block
      modifies this`hdr, this`fl
      ensures InHand(hdr, pre', c, post, 0, fl, first, hi) && c.off == cur && TagAfter(pre', 0) == 0
      ensures Coalesce(pre' + [Free(c.off, c.size)] + post) == Coalesce(pre + [Free(b.off, b.size)] + post)
      ensures FreeSum(pre') + c.size == FreeSum(pre) + b.size
    {
      hide Coalesce, Unlink, TagAfter, FreeSum;
      cur, pre', c := block, pre, b;
      if hdr[cur].prevSize != 0 {
        ghost var p, k;
        pre', p, k := FreeBefore(hdr, pre, b, post, 0, fl, first, hi);
        c := Free(p.off, p.size + b.size);
        JoinLeft(hdr, pre', p, b, post, 0, fl, k, first, hi);
        JoinedBefore(pre', p, b, post);
        hide InHand;
        var prv := cur - hdr[cur].prevSize;
        hdr := Unlink(hdr, prv);
        hdr := hdr[prv := hdr[prv].(size := hdr[prv].size + hdr[cur].size)];
        cur := prv;
        fl := Drop(fl, k);
      }
    }

    /** If the block after the one in hand is free, the two are joined. */
    method JoinNext(cur: nat, ghost pre: seq<Blk>, ghost b: Blk, ghost post: seq<Blk>)
      returns (ghost post': seq<Blk>, ghost c: Blk, ghost tag: nat)
      requires InHand(hdr, pre, b, post, 0, fl, first, hi) && b.off == cur && TagAfter(pre, 0) == 0
      modifies this`hdr, this`fl
      ensures InHand(hdr, pre, c, post', tag, fl, first, hi) && c.off == cur && (post' != [] ==> !post'[0].free)
      ensures Coalesce(pre + [Free(c.off, c.size)] + post') == Coalesce(pre + [Free(b.off, b.size)] + post)
      ensures FreeSum(post') + c.size == FreeSum(post) + b.size
    {
      post', c, tag := post, b, 0;
      var nxt := cur + hdr[cur].size;
      if hdr[nxt].fnext != 0 {
        ghost var n, k;
        n, post', k := FreeAfter(hdr, pre, b, post, 0, fl, first, hi);
        c := Free(b.off, b.size + n.size);
        tag := n.size;
        JoinRight(hdr, pre, b, n, post', 0, fl, k, first, hi);
        JoinedAfter(pre, b, n, post');
        hide InHand, Coalesce, Unlink, TagAfter, FreeSum;
        assert hdr[nxt + hdr[nxt].size].prevSize == hdr[nxt].size;  // the assertion in sma_deallocate
        hdr := Unlink(hdr, nxt);
        hdr := hdr[cur := hdr[cur].(size := hdr[cur].size + hdr[nxt].size)];
        fl := Drop(fl, k);
      }
    }

    /** A process writes into a block that it has. */
    method WriteAt(o: nat, image: seq<Byte>)
      requires Valid() && o + |image| <= |mem|
      modifies this`mem
      ensures Valid() && mem == WriteBytes(old(mem), o, image)
    {
      hide HeapOk, WriteBytes;
      mem := WriteBytes(mem, o, image);
    }

    // ---- apc_sma_defrag

    /** The middle of a sweep over the blocks bs0: pre is done, tail is not. */
    ghost predicate Sweeping(bs0: seq<Blk>, stays: set<nat>, pre: seq<Blk>, tail: seq<Blk>,
                             moves: seq<(nat, nat)>, reclaimed: nat, held: seq<seq<Byte>>)
      reads this
    {
      && Swept(hdr, pre, tail, fl, first, hi)
      && Progress(bs0, stays, pre, tail, moves, reclaimed)
      && Payloads(mem, pre + tail) == held && |mem| == hi + BLOCK
    }

    ghost predicate Defragmented(bs0: seq<Blk>, stays: set<nat>, moves: seq<(nat, nat)>)
      reads this
    {
      AllSound(bs0) && Separated(bs0) && bs == Compact(bs0, stays) && moves == Moves(bs0, stays)
    }

    ghost predicate Reclaimed(bs0: seq<Blk>, stays: set<nat>, avail0: nat)
      reads this
    {
      AllSound(bs0) && Separated(bs0) && avail == avail0 + Slack(bs0, stays)
    }

    /** An allocated block is passed over. */
    lemma PassOver(bs0: seq<Blk>, stays: set<nat>, pre: seq<Blk>, tail: seq<Blk>,
                   moves: seq<(nat, nat)>, reclaimed: nat, held: seq<seq<Byte>>)
      requires Sweeping(bs0, stays, pre, tail, moves, reclaimed, held) && tail != [] && !tail[0].free
      ensures Sweeping(bs0, stays, pre + [tail[0]], tail[1..], moves, reclaimed, held)
      ensures End(pre + [tail[0]], first + BLOCK) == End(pre, first + BLOCK) + tail[0].size
    {
      hide Swept, Progress, Payloads, End;
      Skip(hdr, pre, tail, fl, first, hi);
      ProgressSkip(bs0, stays, pre, tail, moves, reclaimed);
      assert pre + [tail[0]] + tail[1..] == pre + tail;
    }

    method EmptyList(stays: set<nat>)
      requires Valid()
      modifies this`hdr, this`fl
      ensures Sweeping(bs, stays, [], bs, [], 0, Payloads(mem, bs))
    {
      Begin(hdr, bs, fl, first, hi);
      RunTiles(hdr, bs, first + BLOCK, 0);
      TilesRange(bs, first + BLOCK, hi);
      hide HeapOk, Swept, Progress, Payloads;
      hdr := hdr[first := hdr[first].(fnext := hi)];
      hdr := hdr[hi := hdr[hi].(fprev := first)];
      fl := [];
      assert [] + bs == bs;
    }

    lemma StayFacts(bs0: seq<Blk>, stays: set<nat>, pre: seq<Blk>, tail: seq<Blk>,
                    moves: seq<(nat, nat)>, reclaimed: nat, held: seq<seq<Byte>>)
      requires Sweeping(bs0, stays, pre, tail, moves, reclaimed, held) && tail != [] && tail[0].free
      requires Stuck(tail, stays)
      ensures Swept(hdr, pre, tail, fl, first, hi) && |mem| == hi + BLOCK
      ensures Progress(bs0, stays, Settled(pre, tail), Unsettled(tail), moves, reclaimed)
      ensures Payloads(mem, Settled(pre, tail) + Unsettled(tail)) == held
    {
      assert Stuck(tail, stays) && tail[0].free;
      hide Swept, Progress, Payloads, Settled, Unsettled, Stuck;
      ProgressStay(bs0, stays, pre, tail, moves, reclaimed);
      SettledAll(pre, tail);
    }

    /** The free block at cur enters the free list and gets its tags. */
    method EnterList(cur: nat, nxt: nat)
      requires cur in hdr && nxt in hdr && first in hdr && hdr[first].fnext in hdr && cur != first && cur != nxt
      modifies this`hdr
      ensures var m1 := Tagged(old(hdr), cur, nxt);
              first in m1 && cur in m1 && m1[first].fnext in m1 && hdr == LinkAtStart(m1, first, cur)
      ensures nxt in hdr && hdr[nxt].size == old(hdr)[nxt].size
    {
      ghost var m := hdr[cur := hdr[cur].(prevSize := 0)];
      LinkThenTag(hdr, first, cur, cur, 0);
      LinkThenTag(m, first, cur, nxt, m[cur].size);
      hide LinkAtStart;
      hdr := LinkAtStart(hdr, first, cur);
      hdr := hdr[cur := hdr[cur].(prevSize := 0)];
      hdr := hdr[nxt := hdr[nxt].(prevSize := hdr[cur].size)];
    }

    /** The free block at cur stays, and so does the block behind it. */
    method StayHere(cur: nat, ghost bs0: seq<Blk>, ghost stays: set<nat>, ghost pre: seq<Blk>, ghost tail: seq<Blk>,
                    ghost moves: seq<(nat, nat)>, ghost reclaimed: nat, ghost held: seq<seq<Byte>>)
      returns (cur': nat, ghost pre': seq<Blk>, ghost tail': seq<Blk>)
      requires Sweeping(bs0, stays, pre, tail, moves, reclaimed, held) && tail != [] && tail[0].free
      requires Stuck(tail, stays)
      requires cur == tail[0].off && cur in hdr && hdr[cur].size == tail[0].size
      modifies this`hdr, this`fl
      ensures Sweeping(bs0, stays, pre', tail', moves, reclaimed, held) && |tail'| < |tail|
      ensures cur' == End(pre', first + BLOCK)
    {
      StayFacts(bs0, stays, pre, tail, moves, reclaimed, held);
      pre', tail' := Settled(pre, tail), Unsettled(tail);
      Stay(hdr, pre, tail, fl, first, hi);
      hide Swept, Progress, Payloads, Stuck, LinkAtStart, End, Settled, Unsettled;
      var nxt := cur + hdr[cur].size;
      EnterList(cur, nxt);
      fl := [cur] + fl;
      cur' := nxt + hdr[nxt].size;
    }

    lemma SlideFacts(bs0: seq<Blk>, stays: set<nat>, pre: seq<Blk>, tail: seq<Blk>,
                     moves: seq<(nat, nat)>, reclaimed: nat, held: seq<seq<Byte>>)
      requires Sweeping(bs0, stays, pre, tail, moves, reclaimed, held) && tail != [] && tail[0].free
      requires !Stuck(tail, stays)
      ensures |tail| > 1 && Swept(hdr, pre, tail, fl, first, hi) && Sound(tail[0]) && Sound(tail[1]) && !tail[1].free
      ensures |Slide(tail)| < |tail| && tail[0].off <= tail[1].off && tail[1].off + tail[1].used <= |mem|
      ensures Progress(bs0, stays, pre + [Moved(tail[0], tail[1])], Slide(tail), moves + [(tail[1].off, tail[0].off)],
                       reclaimed + (tail[1].size - tail[1].used))
      ensures var mem' := MoveBytes(mem, tail[0].off, tail[1].off, tail[1].used);
              |mem'| == hi + BLOCK && Payloads(mem', pre + [Moved(tail[0], tail[1])] + Slide(tail)) == held
    {
      ProgressSlide(bs0, stays, pre, tail, moves, reclaimed);
      SlideKeeps(tail);
      SweptTiles(hdr, pre, tail, fl, first, hi);
      Beyond(hdr, pre, tail, fl, first, hi);
      hide Swept, Compact, Moves, Slack, FreeSum, Separated, AllSound, Slide;
      SlidePayloads(mem, pre, tail, first + BLOCK, hi);
    }

    lemma SweepOn(bs0: seq<Blk>, stays: set<nat>, pre: seq<Blk>, tail: seq<Blk>,
                  moves: seq<(nat, nat)>, reclaimed: nat, held: seq<seq<Byte>>)
      requires Swept(hdr, pre, tail, fl, first, hi) && Progress(bs0, stays, pre, tail, moves, reclaimed)
      requires Payloads(mem, pre + tail) == held && |mem| == hi + BLOCK
      ensures Sweeping(bs0, stays, pre, tail, moves, reclaimed, held)
    {
    }

    /** The block behind the free block at cur is moved over it. */
    method SlideOver(cur: nat, ghost bs0: seq<Blk>, ghost stays: set<nat>, ghost pre: seq<Blk>, ghost tail: seq<Blk>,
                     ghost moves: seq<(nat, nat)>, ghost reclaimed: nat, ghost held: seq<seq<Byte>>)
      returns (cur': nat, free: nat, ghost pre': seq<Blk>, ghost tail': seq<Blk>)
      requires Sweeping(bs0, stays, pre, tail, moves, reclaimed, held) && tail != [] && tail[0].free
      requires !Stuck(tail, stays)
      requires cur == tail[0].off && cur in hdr && hdr[cur].size == tail[0].size
      modifies this`hdr, this`mem
      ensures |tail| > 1 && Sweeping(bs0, stays, pre', tail', moves + [(tail[1].off, cur)], reclaimed + free, held)
      ensures |tail'| < |tail| && cur' == End(pre', first + BLOCK)
    {
      hide *;
      SlideFacts(bs0, stays, pre, tail, moves, reclaimed, held);
      Beyond(hdr, pre, tail, fl, first, hi);
      pre', tail' := pre + [Moved(tail[0], tail[1])], Slide(tail);
      ghost var hdr0 := hdr;
      cur', free := MoveBlock(cur, tail[1], tail[0], tail[1..][1..]);
      SlideStep(hdr0, hdr, pre, tail, fl, first, hi);
      SweepOn(bs0, stays, pre', tail', moves + [(tail[1].off, cur)], reclaimed + free, held);
    }

    /** The memmove, and the free block behind the moved one. */
    method MoveBlock(block: nat, ghost n: Blk, ghost f: Blk, ghost rest: seq<Blk>) returns (cur: nat, free: nat)
      requires f.off == block && n.off == f.off + f.size && Sound(f) && Sound(n) && !n.free
      requires f.off in hdr && hdr[f.off].size == f.size && n.off in hdr
      requires hdr[n.off].size == n.size && hdr[n.off].fprev == n.used && n.off + n.used <= |mem|
      requires var y := n.off + n.size;
               y in hdr && (hdr[y].fnext != 0 <==> rest != [] && rest[0].free) && (rest != [] ==>
                 hdr[y].size == rest[0].size)
      modifies this`hdr, this`mem
      ensures cur == f.off + n.used && free == n.size - n.used && mem == MoveBytes(old(mem), f.off, n.off, n.used)
      ensures f.off in hdr && hdr[f.off] == old(hdr)[n.off].(size := n.used, prevSize := 0)
      ensures cur in hdr && hdr[cur].fnext != 0
      ensures hdr[cur].size == f.size + (n.size - n.used) + if rest != [] && rest[0].free then rest[0].size else 0
      ensures forall o :: o in old(hdr) && (o < f.off || n.off + n.size <= o) ==> o in hdr && hdr[o] == old(hdr)[o]
    {
      hide MoveBytes;
      cur := block;
      var nxt := cur + hdr[cur].size;
      var freeSize := hdr[nxt].size - hdr[nxt].fprev;
      free := freeSize;
      hdr := hdr[nxt := hdr[nxt].(size := hdr[nxt].size - freeSize)];
      freeSize := freeSize + hdr[cur].size;
      mem := MoveBytes(mem, cur, nxt, hdr[nxt].size);
      hdr := hdr[cur := hdr[nxt]];
      hdr := hdr[cur := hdr[cur].(prevSize := 0)];
      cur := cur + hdr[cur].size;
      var junk: Header := *;  // the bytes that happen to lie there
      hdr := hdr[cur := junk.(size := freeSize, fnext := 1)];
      nxt := cur + hdr[cur].size;
      if hdr[nxt].fnext != 0 {
        hdr := hdr[cur := hdr[cur].(size := hdr[cur].size + hdr[nxt].size)];
      }
    }

    lemma Cursor(bs0: seq<Blk>, stays: set<nat>, pre: seq<Blk>, tail: seq<Blk>,
                 moves: seq<(nat, nat)>, reclaimed: nat, held: seq<seq<Byte>>)
      requires Sweeping(bs0, stays, pre, tail, moves, reclaimed, held)
      ensures var cur := End(pre, first + BLOCK);
              cur in hdr && (hdr[cur].size == 0 <==> tail == [])
              && (tail != [] ==>
                    hdr[cur].size == tail[0].size && tail[0].off == cur && (hdr[cur].fnext != 0 <==> tail[0].free))
    {
      AtCursor(hdr, pre, tail, fl, first, hi);
    }

    lemma SweepDone(bs0: seq<Blk>, stays: set<nat>, pre: seq<Blk>, moves: seq<(nat, nat)>, reclaimed: nat,
                    held: seq<seq<Byte>>)
      requires Sweeping(bs0, stays, pre, [], moves, reclaimed, held)
      ensures HeapOk(hdr, pre, fl, first, hi) && AllSound(bs0) && Separated(bs0)
      ensures pre == Compact(bs0, stays) && moves == Moves(bs0, stays) && reclaimed == Slack(bs0, stays)
      ensures FreeSum(pre) == FreeSum(bs0) + reclaimed && Payloads(mem, pre) == held && |mem| == hi + BLOCK
    {
      Finish(hdr, pre, fl, first, hi);
      hide Swept, HeapOk;
      assert pre + [] == pre && moves + [] == moves;
      assert Compact([], stays) == [] && Moves([], stays) == [];
    }

    lemma Behind(bs0: seq<Blk>, stays: set<nat>, pre: seq<Blk>, tail: seq<Blk>,
                 moves: seq<(nat, nat)>, reclaimed: nat, held: seq<seq<Byte>>)
      requires Sweeping(bs0, stays, pre, tail, moves, reclaimed, held) && tail != [] && tail[0].free
      ensures var nxt := tail[0].off + tail[0].size;
              && nxt in hdr && (hdr[nxt].size == 0 <==> |tail| == 1)
              && (|tail| > 1 ==> tail[1].off == nxt)
              && (Stuck(tail, stays) <==> hdr[nxt].size == 0 || nxt in stays)
    {
      BehindCursor(hdr, pre, tail, fl, first, hi);
    }

    /** apc_sma_defrag. The callback refuses exactly the blocks whose offsets are in stays; moves
        lists the calls it accepted. */
    method Defrag(stays: set<nat>) returns (moves: seq<(nat, nat)>)
      requires Valid()
      modifies this`hdr, this`avail, this`mem, this`bs, this`fl
      ensures Valid()
      ensures Defragmented(old(bs), stays, moves)
      ensures Reclaimed(old(bs), stays, old(avail))
      ensures Payloads(mem, bs) == old(Payloads(mem, bs))
    {
      hide Sweeping, HeapOk, Compact, Moves, Slack, Payloads, Separated, AllSound;
      ghost var bs0, pre, tail, held := bs, [], bs, Payloads(mem, bs);
      EmptyList(stays);
      var cur, reclaimed := first + BLOCK, 0;
      moves := [];
      Cursor(bs0, stays, pre, tail, moves, reclaimed, held);
      while hdr[cur].size != 0
        invariant Sweeping(bs0, stays, pre, tail, moves, reclaimed, held)
        invariant cur == End(pre, first + BLOCK) && cur in hdr
        invariant hdr[cur].size == 0 <==> tail == []
        invariant tail != [] ==>
          hdr[cur].size == tail[0].size && tail[0].off == cur && (hdr[cur].fnext != 0 <==> tail[0].free)
        invariant bs == bs0 && avail == FreeSum(bs0)
        decreases |tail|
      {
        if hdr[cur].fnext == 0 {
          PassOver(bs0, stays, pre, tail, moves, reclaimed, held);
          cur, pre, tail := cur + hdr[cur].size, pre + [tail[0]], tail[1..];
        } else {
          var nxt := cur + hdr[cur].size;
          Behind(bs0, stays, pre, tail, moves, reclaimed, held);
          if hdr[nxt].size == 0 || nxt in stays {
            cur, pre, tail := StayHere(cur, bs0, stays, pre, tail, moves, reclaimed, held);
          } else {
            var to := cur;
            var free;
            cur, free, pre, tail := SlideOver(cur, bs0, stays, pre, tail, moves, reclaimed, held);
            moves := moves + [(nxt, to)];
            reclaimed := reclaimed + free;
          }
        }
        Cursor(bs0, stays, pre, tail, moves, reclaimed, held);
      }
      SweepDone(bs0, stays, pre, moves, reclaimed, held);
      bs := pre;
      avail := avail + reclaimed;
    }

    /** apc_sma_check_avail */
    method CheckAvail(size: nat) returns (ok: bool)
      requires Valid()
      ensures ok <==> FreeSum(bs) >= RealSize(size)
    {
      ok := avail >= RealSize(size);
    }

    /** apc_sma_check_avail_contiguous: true exactly when an allocation would succeed. */
    method CheckAvailContiguous(size: nat) returns (ok: bool)
      requires Valid()
      ensures ok <==> exists b :: b in bs && b.free && b.size >= RealSize(size)
    {
      var realsize := RealSize(size);
      if avail < realsize {
        forall b | b in bs && b.free ensures b.size < realsize { FreeSumBounds(bs, b); }
        return false;
      }
      WalkFrom(hdr, bs, fl, first, hi);
      ghost var p := 0;
      var cur := first;
      while hdr[cur].fnext != 0
        invariant 0 <= p <= |fl| + 1 && cur in hdr
        invariant p <= |fl| ==> hdr[cur].fnext == Nth(fl, p, hi) != 0
        invariant p == |fl| + 1 ==> hdr[cur].fnext == 0
        invariant forall j :: 0 <= j < p && j < |fl| ==> fl[j] in hdr && hdr[fl[j]].size < realsize
        decreases |fl| + 1 - p
      {
        WalkAt(hdr, bs, fl, first, hi, p);
        hide HeapOk;
        cur := hdr[cur].fnext;
        if hdr[cur].size >= realsize {
          ghost var b := ListedIsFree(hdr, bs, fl, first, hi, cur);
          return true;
        }
        p := p + 1;
      }
      NoneFits(hdr, bs, fl, first, hi, realsize);
      return false;
    }
  }
}
