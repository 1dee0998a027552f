/**
 The headers in the middle of apc_sma_defrag: the blocks before the cursor are settled and
 their free blocks listed anew; the blocks from the cursor on are as they were, except that a
 free block at the cursor may have just been formed there.
 */
module Sweep {
  import opened Blocks
  import opened Heap
  import opened Compaction

  /** The blocks still to be visited. A free block at the cursor has no back tag yet, and its
      successor has not been told about it. */
  ghost predicate Pending(m: Mem, tail: seq<Blk>, at: nat, tag: nat, hi: nat) {
    if tail != [] && tail[0].free then
      && tag == 0 && tail[0].off == at && Sound(tail[0])
      && at in m && m[at].size == tail[0].size && m[at].fnext != 0
      && at + tail[0].size in m
      && RunToEnd(m, tail[1..], at + tail[0].size, m[at + tail[0].size].prevSize, hi)
      && (|tail| > 1 ==> !tail[1].free)
    else RunToEnd(m, tail, at, tag, hi) && (tag != 0 ==> tail == [])
  }

  ghost predicate Swept(m: Mem, pre: seq<Blk>, tail: seq<Blk>, fl: seq<nat>, first: nat, hi: nat) {
    && Run(m, pre, first + BLOCK, 0)
    && Pending(m, tail, End(pre, first + BLOCK), TagAfter(pre, 0), hi)
    && FreeList(m, FreeOffs(pre), fl, first, hi)
  }

  lemma PendingHere(m: Mem, tail: seq<Blk>, at: nat, tag: nat, hi: nat)
    requires RunToEnd(m, tail, at, tag, hi) && (tail == [] || tail[0].free || tag == 0)
    ensures Pending(m, tail, at, if tail == [] then tag else 0, hi)
  {
    if tail != [] && tail[0].free {
      var rest, y := tail[1..], at + tail[0].size;
      assert Run(m, rest, y, tail[0].size) && RunToEnd(m, rest, y, tail[0].size, hi);
      if rest == [] {
        assert y == hi;
      } else {
        assert rest[0] == tail[1];
        assert y in m && Describes(m[y], rest[0], tail[0].size);
      }
    }
  }

  /** Looking at the rest of a tiling from behind its first, allocated, block. */
  lemma PendingAfter(m: Mem, tail: seq<Blk>, at: nat, tag: nat, hi: nat)
    requires RunToEnd(m, tail, at, tag, hi) && tail != [] && !tail[0].free
    ensures Pending(m, tail[1..], at + tail[0].size, 0, hi)
  {
    PendingHere(m, tail[1..], at + tail[0].size, 0, hi);
  }

  /** Emptying the free list. */
  lemma Begin(m: Mem, bs: seq<Blk>, fl: seq<nat>, first: nat, hi: nat)
    requires HeapOk(m, bs, fl, first, hi)
    ensures first in m && hi in m
    ensures Swept(m[first := m[first].(fnext := hi)][hi := m[hi].(fprev := first)], [], bs, [], first, hi)
  {
    var l := [first] + fl + [hi];
    assert l[0] == first && l[|l| - 1] == hi && first != hi;
    var m' := m[first := m[first].(fnext := hi)][hi := m[hi].(fprev := first)];
    forall b | b in bs ensures first < b.off < hi {
      RunRange(m, bs, first + BLOCK, 0, b);
    }
    RunFrame(m, m', bs, first + BLOCK, 0);
    assert [first] + [] + [hi] == [first, hi];
    assert FreeOffs([]) == {};
    PendingHere(m', bs, first + BLOCK, 0, hi);
  }

  /** An allocated block that has no free block before it is passed over. */
  lemma Skip(m: Mem, pre: seq<Blk>, tail: seq<Blk>, fl: seq<nat>, first: nat, hi: nat)
    requires Swept(m, pre, tail, fl, first, hi) && tail != [] && !tail[0].free
    ensures Swept(m, pre + [tail[0]], tail[1..], fl, first, hi)
    ensures End(pre + [tail[0]], first + BLOCK) == End(pre, first + BLOCK) + tail[0].size
  {
    Concat(m, pre, [tail[0]], first + BLOCK, 0);
    PendingAfter(m, tail, End(pre, first + BLOCK), 0, hi);
    assert pre + [tail[0]] + [] == pre + [tail[0]];
  }

  /** What the cursor sees. */
  lemma AtCursor(m: Mem, pre: seq<Blk>, tail: seq<Blk>, fl: seq<nat>, first: nat, hi: nat)
    requires Swept(m, pre, tail, fl, first, hi)
    ensures End(pre, first + BLOCK) in m
    ensures m[End(pre, first + BLOCK)].size == 0 <==> tail == []
    ensures tail != [] ==> m[End(pre, first + BLOCK)].size == tail[0].size && tail[0].off == End(pre, first + BLOCK)
    ensures tail != [] ==> (m[End(pre, first + BLOCK)].fnext != 0 <==> tail[0].free)
  {
  }

  /** What it sees behind a free block. */
  lemma BehindCursor(m: Mem, pre: seq<Blk>, tail: seq<Blk>, fl: seq<nat>, first: nat, hi: nat)
    requires Swept(m, pre, tail, fl, first, hi) && tail != [] && tail[0].free
    ensures tail[0].off + tail[0].size in m
    ensures m[tail[0].off + tail[0].size].size == 0 <==> |tail| == 1
    ensures |tail| == 1 ==> tail[0].off + tail[0].size == hi
    ensures |tail| > 1 ==> !tail[1].free && Sound(tail[1]) && tail[1].off == tail[0].off + tail[0].size
    ensures |tail| > 1 ==> m[tail[1].off].size == tail[1].size && m[tail[1].off].fprev == tail[1].used
  {
    if |tail| > 1 {
      assert tail[1..][0] == tail[1];
    } else {
      assert tail[1..] == [];
    }
  }

  /** A free block at the cursor is taken in hand by giving it its back tag. */
  lemma Grasp(m: Mem, pre: seq<Blk>, tail: seq<Blk>, fl: seq<nat>, first: nat, hi: nat)
    requires Swept(m, pre, tail, fl, first, hi) && tail != [] && tail[0].free
    ensures var c, m1 := tail[0], m[tail[0].off := m[tail[0].off].(prevSize := 0)];
            && c.off == End(pre, first + BLOCK) && c.off + c.size in m
            && Gap(m1, pre, c, tail[1..], m[c.off + c.size].prevSize, first + BLOCK, hi)
            && FreeList(m1, FreeOffs(pre), fl, first, hi)
            && TagAfter(pre, 0) == 0 && (tail[1..] != [] ==> !tail[1..][0].free)
  {
    var c, m1 := tail[0], m[tail[0].off := m[tail[0].off].(prevSize := 0)];
    GapFrame(m, m1, pre, tail[1..], first + BLOCK, c.off, c.off + c.size, m[c.off + c.size].prevSize, hi);
    LinkedFrame(m, m1, [first] + fl + [hi]);
  }

  /** The free block at the cursor has been settled where it is; the block after it, if any,
      stays too. */
  lemma StayLast(m: Mem, pre: seq<Blk>, c: Blk, fl: seq<nat>, first: nat, hi: nat)
    requires c.free && RunToEnd(m, pre + [c] + [], first + BLOCK, 0, hi)
    requires FreeList(m, FreeOffs(pre) + {c.off}, fl, first, hi)
    ensures Swept(m, pre + [c], [], fl, first, hi) && End(pre + [c], first + BLOCK) == hi
  {
    assert pre + [c] + [] == pre + [c];
    assert FreeOffs([c]) == {c.off};
    PendingHere(m, [], hi, TagAfter(pre + [c], 0), hi);
  }

  lemma StayPair(m: Mem, pre: seq<Blk>, c: Blk, n: Blk, rest: seq<Blk>, fl: seq<nat>, first: nat, hi: nat)
    requires c.free && !n.free && RunToEnd(m, pre + [c] + ([n] + rest), first + BLOCK, 0, hi)
    requires FreeList(m, FreeOffs(pre) + {c.off}, fl, first, hi)
    ensures Swept(m, pre + [c, n], rest, fl, first, hi) && End(pre + [c, n], first + BLOCK) == n.off + n.size
  {
    Regroup(pre, c, n, rest);
    Concat(m, pre + [c, n], rest, first + BLOCK, 0);
    Focus(m, pre + [c], n, rest, first + BLOCK, hi) by {
      assert pre + [c] + [n] + rest == pre + [c] + ([n] + rest);
    }
    assert pre + [c] + [n] == pre + [c, n];
    Concat(m, pre + [c], [n], first + BLOCK, 0);
    PendingHere(m, rest, n.off + n.size, 0, hi);
    hide RunToEnd, FreeOffs;
  }

  /** What is known behind the block that is about to be moved. */
  lemma Beyond(m: Mem, pre: seq<Blk>, tail: seq<Blk>, fl: seq<nat>, first: nat, hi: nat)
    requires Swept(m, pre, tail, fl, first, hi) && |tail| > 1 && tail[0].free
    ensures var y := tail[1].off + tail[1].size;
            && y in m && y <= hi && RunToEnd(m, tail[1..][1..], y, 0, hi)
            && (m[y].fnext != 0 <==> tail[1..][1..] != [] && tail[1..][1..][0].free)
            && (tail[1..][1..] != [] ==> m[y].size == tail[1..][1..][0].size)
    ensures Run(m, pre, first + BLOCK, 0) && End(pre, first + BLOCK) == tail[0].off
    ensures TagAfter(pre, 0) == 0 && tail[1].off == tail[0].off + tail[0].size
    ensures Sound(tail[0]) && Sound(tail[1]) && tail[1].off in m
    ensures m[tail[1].off].size == tail[1].size && m[tail[1].off].fnext == 0 && m[tail[1].off].fprev == tail[1].used
  {
    assert tail[1..][0] == tail[1];
    var y, rest := tail[1].off + tail[1].size, tail[1..][1..];
    assert RunToEnd(m, rest, y, 0, hi);
    EndGrows(m, rest, y, 0);
    if rest == [] {
      assert y == hi;
    } else {
      assert y in m && Describes(m[y], rest[0], 0);
    }
  }

  /** The header at g describes the carried free space, which has swallowed a free block behind
      it if there was one. */
  lemma Carry(m: Mem, g: Blk, rest: seq<Blk>, y: nat, hi: nat)
    requires RunToEnd(m, rest, y, 0, hi) && g.free && Sound(g) && g.off + g.size == y && y in m
    requires g.off in m && m[g.off].fnext != 0
    requires m[g.off].size == g.size + (if rest != [] && rest[0].free then rest[0].size else 0)
    ensures Pending(m, Absorb(g, rest), g.off, 0, hi)
  {
    var xs := Absorb(g, rest);
    if rest != [] && rest[0].free {
      PendingHere(m, rest, y, 0, hi);
      assert xs[1..] == rest[1..];
    } else {
      assert xs[1..] == rest;
      assert |xs| > 1 ==> xs[1] == rest[0];
      assert m[y].prevSize == 0;
    }
  }

  /** The block at the cursor has been overwritten by the block after it. */
  lemma SlideStep(m: Mem, m': Mem, pre: seq<Blk>, tail: seq<Blk>, fl: seq<nat>, first: nat, hi: nat)
    requires Swept(m, pre, tail, fl, first, hi) && |tail| > 1 && tail[0].free && !tail[1].free && Sound(tail[0])
    requires Sound(tail[1])
    requires var f, n, rest := tail[0], tail[1], tail[1..][1..];
             && n.off in m && f.off in m' && m'[f.off] == m[n.off].(size := n.used, prevSize := 0)
             && f.off + n.used in m' && m'[f.off + n.used].fnext != 0
             && m'[f.off + n.used].size ==
               f.size + (n.size - n.used) + (if rest != [] && rest[0].free then rest[0].size else 0)
             && (forall o :: o in m && (o < f.off || n.off + n.size <= o) ==> o in m' && m'[o] == m[o])
    ensures Swept(m', pre + [Moved(tail[0], tail[1])], Slide(tail), fl, first, hi)
    ensures End(pre + [Moved(tail[0], tail[1])], first + BLOCK) == tail[0].off + tail[1].used
  {
    var f, n, rest := tail[0], tail[1], tail[1..][1..];
    var mv := Moved(f, n);
    Beyond(m, pre, tail, fl, first, hi);
    GapFrame(m, m', pre, rest, first + BLOCK, f.off, n.off + n.size, 0, hi);
    SlideLinks(m, m', pre, fl, first, hi, f.off, n.off + n.size);
    Carry(m', Carried(f, n), rest, n.off + n.size, hi);
    Concat(m', pre, [mv], first + BLOCK, 0);
    assert FreeOffs(pre + [mv]) == FreeOffs(pre);
    hide RunToEnd, FreeList, FreeOffs;
  }

  lemma SlideLinks(m: Mem, m': Mem, pre: seq<Blk>, fl: seq<nat>, first: nat, hi: nat, x: nat, y: nat)
    requires Run(m, pre, first + BLOCK, 0) && End(pre, first + BLOCK) == x <= y <= hi && y in m
    requires FreeList(m, FreeOffs(pre), fl, first, hi)
    requires forall o :: o in m && (o < x || y <= o) ==> o in m' && m'[o] == m[o]
    ensures FreeList(m', FreeOffs(pre), fl, first, hi)
  {
    forall b | b in pre ensures b.off < x { RunRange(m, pre, first + BLOCK, 0, b); }
    EndGrows(m, pre, first + BLOCK, 0);
    LinkedFrame(m, m', [first] + fl + [hi]);
  }

  // ---- a free block that stays, and the block behind it

  function Settled(pre: seq<Blk>, tail: seq<Blk>): seq<Blk>
    requires tail != []
  {
    if |tail| == 1 then pre + [tail[0]] else pre + [tail[0], tail[1]]
  }

  function Unsettled(tail: seq<Blk>): seq<Blk>
    requires tail != []
  {
    if |tail| == 1 then [] else tail[1..][1..]
  }

  lemma SettledAll(pre: seq<Blk>, tail: seq<Blk>)
    requires tail != []
    ensures Settled(pre, tail) + Unsettled(tail) == pre + tail
  {
  }

  lemma ProgressStay(bs0: seq<Blk>, stays: set<nat>, pre: seq<Blk>, tail: seq<Blk>, moves: seq<(nat, nat)>,
                     reclaimed: nat)
    requires Progress(bs0, stays, pre, tail, moves, reclaimed) && tail != [] && tail[0].free && Stuck(tail, stays)
    ensures Progress(bs0, stays, Settled(pre, tail), Unsettled(tail), moves, reclaimed)
  {
    ProgressSkip(bs0, stays, pre, tail, moves, reclaimed);
    if |tail| == 1 {
      assert tail[1..] == [];
    } else {
      assert tail[1..][0] == tail[1] && !tail[1].free by { hide Stuck; }
      hide Progress;
      ProgressSkip(bs0, stays, pre + [tail[0]], tail[1..], moves, reclaimed);
      assert pre + [tail[0]] + [tail[1]] == pre + [tail[0], tail[1]];
    }
  }

  lemma StayBegins(m: Mem, pre: seq<Blk>, tail: seq<Blk>, fl: seq<nat>, first: nat, hi: nat)
    requires Swept(m, pre, tail, fl, first, hi) && tail != [] && tail[0].free
    ensures first in m && m[first].fnext in m && first < tail[0].off && 0 < tail[0].size
    ensures tail[0].off in m && m[tail[0].off].size == tail[0].size
  {
    var l := [first] + fl + [hi];
    assert l[0] == first && l[1] in m;
    EndGrows(m, pre, first + BLOCK, 0);
  }

  /** The tags of a free block at c that stays, with the block at nxt behind it. */
  function Tagged(m: Mem, c: nat, nxt: nat): Mem
    requires c in m && nxt in m
  {
    var m0 := m[c := m[c].(prevSize := 0)];
    m0[nxt := m0[nxt].(prevSize := m0[c].size)]
  }

  lemma StaySettles(m: Mem, pre: seq<Blk>, tail: seq<Blk>, fl: seq<nat>, first: nat, hi: nat)
    requires Swept(m, pre, tail, fl, first, hi) && tail != [] && tail[0].free
    ensures var c := tail[0];
            && c.off in m && c.off + c.size in m && first in m && m[first].fnext in m
            && var m1 := Tagged(m, c.off, c.off + c.size);
            && first in m1 && c.off in m1 && m1[first].fnext in m1
            && RunToEnd(LinkAtStart(m1, first, c.off), pre + [c] + tail[1..], first + BLOCK, 0, hi)
            && FreeList(LinkAtStart(m1, first, c.off), FreeOffs(pre) + {c.off}, [c.off] + fl, first, hi)
  {
    var c := tail[0];
    Grasp(m, pre, tail, fl, first, hi);
    StayBegins(m, pre, tail, fl, first, hi);
    assert Free(c.off, c.size) == c;
    hide *;
    SettleFree(m[c.off := m[c.off].(prevSize := 0)], pre, c, tail[1..], m[c.off + c.size].prevSize, FreeOffs(pre), fl,
      first, hi);
    assert Tagged(m, c.off, c.off + c.size) ==
      var m0 := m[c.off := m[c.off].(prevSize := 0)];
      m0[c.off + c.size := m0[c.off + c.size].(prevSize := c.size)];
  }

  lemma StayEither(m: Mem, pre: seq<Blk>, tail: seq<Blk>, fl: seq<nat>, first: nat, hi: nat)
    requires tail != [] && tail[0].free && (|tail| > 1 ==> !tail[1].free)
    requires RunToEnd(m, pre + [tail[0]] + tail[1..], first + BLOCK, 0, hi)
    requires FreeList(m, FreeOffs(pre) + {tail[0].off}, fl, first, hi)
    ensures Swept(m, Settled(pre, tail), Unsettled(tail), fl, first, hi)
    ensures End(Settled(pre, tail), first + BLOCK) == if |tail| == 1 then hi else tail[1].off + tail[1].size
  {
    hide Swept, RunToEnd, FreeList, FreeOffs, End;
    if |tail| == 1 {
      assert tail[1..] == [];
      StayLast(m, pre, tail[0], fl, first, hi);
    } else {
      assert tail[1..] == [tail[1]] + tail[1..][1..];
      StayPair(m, pre, tail[0], tail[1], tail[1..][1..], fl, first, hi);
    }
  }

  /** The free block at the cursor is settled where it is. */
  lemma Stay(m: Mem, pre: seq<Blk>, tail: seq<Blk>, fl: seq<nat>, first: nat, hi: nat)
    requires Swept(m, pre, tail, fl, first, hi) && tail != [] && tail[0].free
    ensures var c := tail[0];
            var nxt := c.off + c.size;
            && c.off in m && nxt in m && first in m && m[first].fnext in m && c.off != first && c.off != nxt
            && m[c.off].size == c.size
            && var m1 := Tagged(m, c.off, nxt);
            && first in m1 && c.off in m1 && m1[first].fnext in m1
            && Swept(LinkAtStart(m1, first, c.off), Settled(pre, tail), Unsettled(tail), [c.off] + fl, first, hi)
            && End(Settled(pre, tail), first + BLOCK) == nxt + m[nxt].size
  {
    hide *;
    var c := tail[0];
    BehindCursor(m, pre, tail, fl, first, hi);
    StaySettles(m, pre, tail, fl, first, hi);
    StayBegins(m, pre, tail, fl, first, hi);
    StayEither(LinkAtStart(Tagged(m, c.off, c.off + c.size), first, c.off), pre, tail, [c.off] + fl, first, hi);
  }

  lemma Finish(m: Mem, pre: seq<Blk>, fl: seq<nat>, first: nat, hi: nat)
    requires Swept(m, pre, [], fl, first, hi)
    ensures HeapOk(m, pre, fl, first, hi)
  {
  }
}
