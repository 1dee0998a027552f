/**
 What apc_sma_defrag does to the sequence of blocks: a single pass that slides every block it
 is allowed to move over the free block before it, cuts off the slack the block carried, and
 carries the free space on to the right.
 */
module Compaction {
  import opened Blocks

  predicate AllSound(bs: seq<Blk>) {
    forall b :: b in bs ==> Sound(b)
  }

  /** The carried free block g swallows a free block right behind it. */
  function Absorb(g: Blk, rest: seq<Blk>): seq<Blk> {
    if rest != [] && rest[0].free then [Free(g.off, g.size + rest[0].size)] + rest[1..] else [g] + rest
  }

  /** Block n after it has been moved over the free block f: without slack. */
  function Moved(f: Blk, n: Blk): Blk {
    Blk(f.off, n.used, false, n.used)
  }

  /** The free space behind it: f and the slack of n. */
  function Carried(f: Blk, n: Blk): Blk
    requires n.used <= n.size
  {
    Free(f.off + n.used, f.size + (n.size - n.used))
  }

  /** The free block at the front cannot be slid to the right: it is the last block, or the
      block after it refuses to move. */
  predicate Stuck(bs: seq<Blk>, stays: set<nat>)
    requires bs != []
  {
    |bs| == 1 || bs[1].off in stays
  }

  /** What is left to do once the block after the free front block has been moved. */
  function Slide(bs: seq<Blk>): seq<Blk>
    requires |bs| >= 2 && bs[1].used <= bs[1].size
  {
    Absorb(Carried(bs[0], bs[1]), bs[1..][1..])
  }

  lemma SlideKeeps(bs: seq<Blk>)
    requires AllSound(bs) && Separated(bs) && |bs| >= 2 && bs[0].free
    ensures Sound(bs[1]) && !bs[1].free
    ensures AllSound(Slide(bs)) && Separated(Slide(bs)) && |Slide(bs)| < |bs| && Slide(bs)[0].free
  {
    var f, n, rest := bs[0], bs[1], bs[1..][1..];
    assert n in bs && f in bs && n == bs[1..][0];
    assert Separated(bs[1..]);
    assert forall b :: b in rest ==> b in bs;
    var xs := Slide(bs);
    if |xs| >= 2 {
      assert xs[1..] == if rest[0].free then rest[1..] else rest;
    }
  }

  /** The blocks after defragmentation, when the blocks at the offsets stays refuse to move. */
  function Compact(bs: seq<Blk>, stays: set<nat>): seq<Blk>
    requires AllSound(bs) && Separated(bs)
    decreases |bs|
  {
    if bs == [] then []
    else if !bs[0].free || Stuck(bs, stays) then [bs[0]] + Compact(bs[1..], stays)
    else
      SlideKeeps(bs);
      [Moved(bs[0], bs[1])] + Compact(Slide(bs), stays)
  }

  /** The moves, in the order in which the callback is asked: from which offset to which. */
  function Moves(bs: seq<Blk>, stays: set<nat>): seq<(nat, nat)>
    requires AllSound(bs) && Separated(bs)
    decreases |bs|
  {
    if bs == [] then []
    else if !bs[0].free || Stuck(bs, stays) then Moves(bs[1..], stays)
    else
      SlideKeeps(bs);
      [(bs[1].off, bs[0].off)] + Moves(Slide(bs), stays)
  }

  /** The allocated blocks, in order. */
  function Live(bs: seq<Blk>): seq<Blk> {
    if bs == [] then [] else if bs[0].free then Live(bs[1..]) else [bs[0]] + Live(bs[1..])
  }

  /** What defragmentation may do to an allocated block: nothing, or slide it down and cut off
      its slack if it did not refuse. */
  predicate Slid(b: Blk, b': Blk, stays: set<nat>) {
    b' == b || (b.off !in stays && b'.off < b.off && b'.used == b.used && b'.size == b.used && !b.free && !b'.free)
  }

  function SizeSum(bs: seq<Blk>): nat {
    if bs == [] then 0 else bs[0].size + SizeSum(bs[1..])
  }

  lemma Cons(b: Blk, bs: seq<Blk>)
    ensures FreeSum([b] + bs) == Tag(b) + FreeSum(bs)
    ensures Live([b] + bs) == if b.free then Live(bs) else [b] + Live(bs)
    ensures SizeSum([b] + bs) == b.size + SizeSum(bs)
  {
    assert ([b] + bs)[0] == b && ([b] + bs)[1..] == bs;
  }

  lemma SlideSums(bs: seq<Blk>)
    requires |bs| >= 2 && bs[0].free && !bs[1].free && bs[1].used <= bs[1].size
    ensures FreeSum(Slide(bs)) == FreeSum(bs) + (bs[1].size - bs[1].used)
    ensures Live(bs) == [bs[1]] + Live(Slide(bs))
  {
    assert FreeSum(bs) == bs[0].size + FreeSum(bs[1..][1..]);
    assert Live(bs) == Live(bs[1..]);
    hide Absorb, FreeSum;
  }

  lemma SlideTiles(bs: seq<Blk>, lo: nat, hi: nat)
    requires AllSound(bs) && Separated(bs) && |bs| >= 2 && bs[0].free && Tiles(bs, lo, hi)
    ensures Sound(bs[1]) && !bs[1].free && bs[0].off == lo && bs[1].off == lo + bs[0].size
    ensures Tiles(Slide(bs), lo + bs[1].used, hi)
  {
    SlideKeeps(bs);
    var f, n, rest := bs[0], bs[1], bs[1..][1..];
    assert n == bs[1..][0];
    hide Separated, AllSound;
    assert Tiles(rest, n.off + n.size, hi);
    assert Sound(f);
    if rest != [] && rest[0].free {
      assert Slide(bs)[1..] == rest[1..];
    } else {
      assert Slide(bs)[1..] == rest;
    }
  }

  /** Defragmentation keeps the tiling, leaves no two free neighbours, and the block it puts
      first is allocated if the first one was. */
  lemma {:induction false} CompactTiles(bs: seq<Blk>, stays: set<nat>, lo: nat, hi: nat)
    requires AllSound(bs) && Separated(bs) && Tiles(bs, lo, hi)
    ensures Tiles(Compact(bs, stays), lo, hi) && Separated(Compact(bs, stays))
    ensures bs != [] && !bs[0].free ==> Compact(bs, stays) != [] && Compact(bs, stays)[0] == bs[0]
    decreases |bs|
  {
    if bs == [] {
    } else if !bs[0].free || Stuck(bs, stays) {
      CompactTiles(bs[1..], stays, lo + bs[0].size, hi);
    } else {
      SlideKeeps(bs);
      SlideTiles(bs, lo, hi);
      CompactTiles(Slide(bs), stays, lo + bs[1].used, hi);
    }
  }

  /** Defragmentation is a sliding compaction: the allocated blocks correspond one to one and in
      order; none moves up; what moves loses its slack and nothing else; what refuses stays. */
  lemma {:induction false} CompactSlides(bs: seq<Blk>, stays: set<nat>, lo: nat, hi: nat)
    requires AllSound(bs) && Separated(bs) && Tiles(bs, lo, hi)
    ensures |Live(Compact(bs, stays))| == |Live(bs)|
    ensures forall k :: 0 <= k < |Live(bs)| ==> Slid(Live(bs)[k], Live(Compact(bs, stays))[k], stays)
    decreases |bs|
  {
    if bs == [] {
    } else if !bs[0].free || Stuck(bs, stays) {
      CompactSlides(bs[1..], stays, lo + bs[0].size, hi);
    } else {
      SlideKeeps(bs);
      SlideTiles(bs, lo, hi);
      SlideSums(bs);
      CompactSlides(Slide(bs), stays, lo + bs[1].used, hi);
      Cons(Moved(bs[0], bs[1]), Compact(Slide(bs), stays));
      hide Live, Separated, Tiles, Slide;
    }
  }

  /** Defragmentation moves what it may: a block that is left behind a free block has refused to move, and is
      where it was. */
  lemma {:induction false} CompactTight(bs: seq<Blk>, stays: set<nat>, i: nat)
    requires AllSound(bs) && Separated(bs) && i + 1 < |Compact(bs, stays)| && Compact(bs, stays)[i].free
    ensures var b := Compact(bs, stays)[i + 1]; !b.free && b.off in stays && b in bs
    decreases |bs|
  {
    if !bs[0].free || Stuck(bs, stays) {
      var rest := bs[1..];
      assert Compact(bs, stays)[1..] == Compact(rest, stays);
      if i > 0 {
        CompactTight(rest, stays, i - 1);
      } else {
        assert rest != [] && rest[0] == bs[1] && !bs[1].free;
        assert Compact(rest, stays)[0] == bs[1];
      }
    } else {
      SlideKeeps(bs);
      var rest := Slide(bs);
      assert Compact(bs, stays)[1..] == Compact(rest, stays) && i > 0;
      CompactTight(rest, stays, i - 1);
      assert Compact(rest, stays)[i] in bs by { SlideLiveIn(bs, Compact(rest, stays)[i]); }
    }
  }

  lemma SlideLiveIn(bs: seq<Blk>, b: Blk)
    requires |bs| >= 2 && bs[1].used <= bs[1].size && b in Slide(bs) && !b.free
    ensures b in bs
  {
    assert b in bs[1..][1..];
  }

  /** The slack that defragmentation reclaims. */
  function Slack(bs: seq<Blk>, stays: set<nat>): nat
    requires AllSound(bs) && Separated(bs)
    decreases |bs|
  {
    if bs == [] then 0
    else if !bs[0].free || Stuck(bs, stays) then Slack(bs[1..], stays)
    else
      SlideKeeps(bs);
      (bs[1].size - bs[1].used) + Slack(Slide(bs), stays)
  }

  /** Free space grows by exactly the slack that the allocated blocks lose. */
  lemma {:induction false} CompactFreeSum(bs: seq<Blk>, stays: set<nat>)
    requires AllSound(bs) && Separated(bs)
    ensures FreeSum(Compact(bs, stays)) == FreeSum(bs) + Slack(bs, stays)
    ensures SizeSum(Live(bs)) == SizeSum(Live(Compact(bs, stays))) + Slack(bs, stays)
    decreases |bs|
  {
    if bs == [] {
    } else if !bs[0].free || Stuck(bs, stays) {
      CompactFreeSum(bs[1..], stays);
      assert bs == [bs[0]] + bs[1..];
      Cons(bs[0], bs[1..]);
      Cons(bs[0], Compact(bs[1..], stays));
      if !bs[0].free {
        Cons(bs[0], Live(bs[1..]));
        Cons(bs[0], Live(Compact(bs[1..], stays)));
      }
      hide FreeSum, Live, SizeSum;
    } else {
      SlideKeeps(bs);
      SlideSums(bs);
      CompactFreeSum(Slide(bs), stays);
      var m := Moved(bs[0], bs[1]);
      Cons(m, Compact(Slide(bs), stays));
      Cons(m, Live(Compact(Slide(bs), stays)));
      Cons(bs[1], Live(Slide(bs)));
      hide FreeSum, Live, SizeSum;
    }
  }

  predicate Movable(bs: seq<Blk>, stays: set<nat>) {
    forall b :: b in bs && !b.free ==> b.off !in stays
  }

  predicate AllUsed(bs: seq<Blk>) {
    forall b :: b in bs ==> !b.free
  }

  /** The one free block that holds s bytes at the right end, if there is one. */
  function Rest(some: bool, hi: nat, s: nat): seq<Blk>
    requires s <= hi
  {
    if some then [Free(hi - s, s)] else []
  }

  /** If no move is refused, all free space ends up in one block at the right end. */
  lemma {:induction false} CompactGathers(bs: seq<Blk>, stays: set<nat>, lo: nat, hi: nat)
    requires AllSound(bs) && Separated(bs) && Tiles(bs, lo, hi) && Movable(bs, stays)
    ensures FreeSum(Compact(bs, stays)) <= hi
    ensures Compact(bs, stays) == Live(Compact(bs, stays)) + Rest(!AllUsed(bs), hi, FreeSum(Compact(bs, stays)))
    decreases |bs|
  {
    if bs == [] {
    } else if !bs[0].free {
      CompactGathers(bs[1..], stays, lo + bs[0].size, hi);
      assert AllUsed(bs) == AllUsed(bs[1..]) by { assert bs == [bs[0]] + bs[1..]; }
      Cons(bs[0], Compact(bs[1..], stays));
      hide FreeSum, Live, Tiles, Separated, AllUsed;
    } else if |bs| == 1 {
      assert !AllUsed(bs) by { assert bs[0] in bs; }
      assert Compact(bs, stays) == [bs[0]] + [];
      Cons(bs[0], []);
    } else {
      SlideKeeps(bs);
      SlideTiles(bs, lo, hi);
      assert !AllUsed(bs) by { assert bs[0] in bs; }
      assert !AllUsed(Slide(bs)) by { assert Slide(bs)[0] in Slide(bs); }
      assert !Stuck(bs, stays) by { assert bs[1] in bs; }
      SlideMovable(bs, stays);
      CompactGathers(Slide(bs), stays, lo + bs[1].used, hi);
      Cons(Moved(bs[0], bs[1]), Compact(Slide(bs), stays));
      hide FreeSum, Live, Tiles, Separated, AllUsed, AllSound, Slide;
    }
  }

  lemma SlideMovable(bs: seq<Blk>, stays: set<nat>)
    requires |bs| >= 2 && bs[1].used <= bs[1].size && Movable(bs, stays)
    ensures Movable(Slide(bs), stays)
  {
    forall b | b in Slide(bs) && !b.free ensures b in bs {
      assert b in bs[1..][1..];
    }
  }

  lemma {:induction false} LiveIsUsed(bs: seq<Blk>)
    ensures FreeSum(Live(bs)) == 0
  {
    if bs != [] {
      LiveIsUsed(bs[1..]);
      if !bs[0].free {
        Cons(bs[0], Live(bs[1..]));
      }
    }
  }

  /** So after a defragmentation in which nothing refused to move, every request that fits into the
      available memory fits into one block. */
  lemma CompactionServes(bs: seq<Blk>, stays: set<nat>, lo: nat, hi: nat, r: nat)
    requires AllSound(bs) && Separated(bs) && Tiles(bs, lo, hi) && Movable(bs, stays)
    requires 0 < r <= FreeSum(Compact(bs, stays))
    ensures exists b :: b in Compact(bs, stays) && b.free && b.size >= r
  {
    var done := Compact(bs, stays);
    CompactGathers(bs, stays, lo, hi);
    LiveIsUsed(done);
    hide Compact, Live, FreeSum;
    var rest := Rest(!AllUsed(bs), hi, FreeSum(done));
    assert rest == [] ==> Live(done) + rest == Live(done);
    assert rest != [] ==> rest[0] in done && rest[0].free;
  }

  /** Slack is not available memory: here 64 bytes are free, but once the last block has been moved, 96 are. */
  lemma SlackJoins()
    ensures var bs := [Blk(0, 64, false, 64), Free(64, 64), Blk(128, 96, false, 64)];
            && Tiles(bs, 0, 224) && AllSound(bs) && Separated(bs) && FreeSum(bs) == 64
            && Compact(bs, {}) == [Blk(0, 64, false, 64), Blk(64, 64, false, 64), Free(128, 96)]
  {
    var h, f, u, g := Blk(0, 64, false, 64), Free(64, 64), Blk(128, 96, false, 64), Free(128, 96);
    var bs := [h, f, u];
    assert bs[1..] == [f, u] && [f, u][1..] == [u] && [u][1..] == [] && [g][1..] == [];
    assert FreeSum([u]) == 0 && FreeSum([f, u]) == 64 && Tiles([u], 128, 224) && Tiles([f, u], 64, 224);
    assert AllSound([f, u]) && Separated([f, u]) && AllSound(bs) && Separated(bs);
    assert Slide([f, u]) == [g];
    SlideKeeps([f, u]);
    assert Compact([g], {}) == [g] + Compact([], {});
    assert Compact([f, u], {}) == [Moved(f, u)] + Compact(Slide([f, u]), {});
    assert Compact(bs, {}) == [h] + Compact([f, u], {});
  }

  // ------------------------------------------------------------------- one step at a time

  /** The blocks pre are done, tail is still to do, and moves and reclaimed record the steps so
      far of defragmenting bs0. */
  ghost predicate Progress(bs0: seq<Blk>, stays: set<nat>, pre: seq<Blk>, tail: seq<Blk>, moves: seq<(nat, nat)>,
                           reclaimed: nat) {
    && AllSound(bs0) && Separated(bs0) && AllSound(tail) && Separated(tail)
    && pre + Compact(tail, stays) == Compact(bs0, stays)
    && moves + Moves(tail, stays) == Moves(bs0, stays)
    && FreeSum(pre) + FreeSum(tail) == FreeSum(bs0) + reclaimed
    && reclaimed + Slack(tail, stays) == Slack(bs0, stays)
  }

  lemma Assoc<T>(a: seq<T>, b: seq<T>, c: seq<T>)
    ensures a + b + c == a + (b + c)
  {
  }

  lemma SnocFreeSum(pre: seq<Blk>, b: Blk)
    ensures FreeSum(pre + [b]) == FreeSum(pre) + Tag(b)
  {
    FreeSumConcat(pre, [b]);
    assert FreeSum([b]) == Tag(b);
  }

  lemma ProgressSkip(bs0: seq<Blk>, stays: set<nat>, pre: seq<Blk>, tail: seq<Blk>, moves: seq<(nat, nat)>,
                     reclaimed: nat)
    requires Progress(bs0, stays, pre, tail, moves, reclaimed) && tail != [] && (!tail[0].free || Stuck(tail, stays))
    ensures Progress(bs0, stays, pre + [tail[0]], tail[1..], moves, reclaimed)
  {
    var b, rest := tail[0], tail[1..];
    assert AllSound(rest) && Separated(rest);
    assert Compact(tail, stays) == [b] + Compact(rest, stays);
    assert Moves(tail, stays) == Moves(rest, stays) && Slack(tail, stays) == Slack(rest, stays);
    assert FreeSum(tail) == Tag(b) + FreeSum(rest);
    SnocFreeSum(pre, b);
    Assoc(pre, [b], Compact(rest, stays));
    hide Compact, Moves, Slack, FreeSum, Separated, AllSound;
  }

  lemma ProgressSlide(bs0: seq<Blk>, stays: set<nat>, pre: seq<Blk>, tail: seq<Blk>, moves: seq<(nat, nat)>,
                      reclaimed: nat)
    requires Progress(bs0, stays, pre, tail, moves, reclaimed) && tail != [] && tail[0].free && !Stuck(tail, stays)
    ensures Sound(tail[1])
    ensures Progress(bs0, stays, pre + [Moved(tail[0], tail[1])], Slide(tail), moves + [(tail[1].off, tail[0].off)],
                     reclaimed + (tail[1].size - tail[1].used))
  {
    SlideKeeps(tail);
    SlideSums(tail);
    var mv, rest, move := Moved(tail[0], tail[1]), Slide(tail), (tail[1].off, tail[0].off);
    assert Compact(tail, stays) == [mv] + Compact(rest, stays);
    assert Moves(tail, stays) == [move] + Moves(rest, stays);
    assert Slack(tail, stays) == (tail[1].size - tail[1].used) + Slack(rest, stays);
    SnocFreeSum(pre, mv);
    Assoc(pre, [mv], Compact(rest, stays));
    Assoc(moves, [move], Moves(rest, stays));
    hide Compact, Moves, Slack, FreeSum, Separated, AllSound, Slide;
  }
}
