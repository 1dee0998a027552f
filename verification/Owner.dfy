/** Who owns the allocated blocks of the segment: the first block holds the cache header and the
    slots, and every other allocated block holds one entry. The moves of a defragmentation,
    replayed one by one on the set of owners, lead to the set of allocated blocks it leaves. */
module Owner {
  import opened Blocks
  import opened Compaction

  /** The offsets of the allocated blocks. */
  ghost function UsedOffs(bs: seq<Blk>): set<nat> {
    set b | b in bs && !b.free :: b.off
  }

  /** The block of the entry at offset e from the cache header, which is at base. */
  function BlockOf(base: nat, e: nat): nat {
    if base >= BLOCK then e + (base - BLOCK) else e
  }

  ghost function OwnBlocks(base: nat, es: set<nat>): set<nat> {
    set e | e in es :: BlockOf(base, e)
  }

  /** Every allocated block is the header's or exactly one entry's, and the header's is first. */
  ghost predicate Owned(bs: seq<Blk>, base: nat, extent: nat, es: set<nat>) {
    && bs != [] && !bs[0].free && bs[0].off + BLOCK == base && BLOCK + extent <= bs[0].used <= bs[0].size
    && UsedOffs(bs) == OwnBlocks(base, es) + {bs[0].off}
    && 0 < extent && forall e :: e in es ==> extent <= e
  }

  lemma UsedOffsConcat(a: seq<Blk>, b: seq<Blk>)
    ensures UsedOffs(a + b) == UsedOffs(a) + UsedOffs(b)
  {
  }

  lemma UsedOffsOne(b: Blk)
    ensures UsedOffs([b]) == if b.free then {} else {b.off}
  {
    assert b in [b];
  }

  /** In a tiling, blocks are known by their offsets. */
  lemma {:induction false} ByOffset(bs: seq<Blk>, lo: nat, hi: nat, b: Blk, c: Blk)
    requires Tiles(bs, lo, hi) && b in bs && c in bs && b.off == c.off
    ensures b == c
  {
    var rest := bs[1..];
    TilesRange(rest, lo + bs[0].size, hi);
    if b in rest && c in rest {
      ByOffset(rest, lo + bs[0].size, hi, b, c);
    }
  }

  lemma {:induction false} ReplaceUsed(bs: seq<Blk>, b: Blk, xs: seq<Blk>, lo: nat, hi: nat)
    requires Tiles(bs, lo, hi) && b in bs && Sound(bs[0]) && bs[0].off <= b.off
    ensures UsedOffs(Replace(bs, b.off, xs)) == (UsedOffs(bs) - {b.off}) + UsedOffs(xs)
    ensures b != bs[0] ==> Replace(bs, b.off, xs) != [] && Replace(bs, b.off, xs)[0] == bs[0]
  {
    var pre, post := Locate(bs, b, lo, hi);
    ReplaceAt(pre, b, post, xs);
    UsedOffsConcat(pre + xs, post);
    UsedOffsConcat(pre, xs);
    UsedOffsConcat(pre + [b], post);
    UsedOffsConcat(pre, [b]);
    UsedOffsOne(b);
    assert b.off !in UsedOffs(pre) && b.off !in UsedOffs(post);
    assert pre != [] ==> (pre + xs + post)[0] == bs[0];
  }

  lemma {:induction false} CoalesceUsed(bs: seq<Blk>)
    ensures UsedOffs(Coalesce(bs)) == UsedOffs(bs)
    ensures bs != [] ==> Coalesce(bs) != [] && (!bs[0].free ==> Coalesce(bs)[0] == bs[0])
    decreases |bs|
  {
    if |bs| < 2 {
    } else if bs[0].free && bs[1].free {
      var f := Free(bs[0].off, bs[0].size + bs[1].size);
      CoalesceUsed([f] + bs[2..]);
      UsedOffsConcat([f], bs[2..]);
      UsedOffsOne(f);
    } else {
      CoalesceUsed(bs[1..]);
      UsedOffsConcat([bs[0]], bs[1..]);
      UsedOffsConcat([bs[0]], Coalesce(bs[1..]));
      assert bs == [bs[0]] + bs[1..];
    }
  }

  /** A block that is allocated becomes an entry that was none before. */
  lemma AllocateOwned(bs: seq<Blk>, b: Blk, r: nat, minBlock: nat, lo: nat, hi: nat, base: nat, extent: nat,
                      es: set<nat>)
    requires Tiles(bs, lo, hi) && Owned(bs, base, extent, es) && b in bs && b.free && r <= b.size
    ensures b.off + BLOCK >= base + extent
    ensures b.off + BLOCK - base !in es && BlockOf(base, b.off + BLOCK - base) == b.off
    ensures Owned(Allocated(bs, b, r, minBlock), base, extent, es + {b.off + BLOCK - base})
  {
    TilesRange(bs, lo, hi);
    Beyond(bs, b, lo, hi);
    ReplaceUsed(bs, b, Split(b, r, minBlock), lo, hi);
    FreeIsUnused(bs, b, lo, hi);
    hide Tiles, UsedOffs, Replace, Split;
  }

  /** Every other block lies behind the first. */
  lemma Beyond(bs: seq<Blk>, b: Blk, lo: nat, hi: nat)
    requires Tiles(bs, lo, hi) && b in bs && b != bs[0]
    ensures bs[0].off + bs[0].size <= b.off
  {
    TilesRange(bs[1..], lo + bs[0].size, hi);
  }

  lemma FreeIsUnused(bs: seq<Blk>, b: Blk, lo: nat, hi: nat)
    requires Tiles(bs, lo, hi) && b in bs && b.free
    ensures b.off !in UsedOffs(bs)
  {
    if c :| c in bs && !c.free && c.off == b.off {
      ByOffset(bs, lo, hi, b, c);
    }
  }

  /** The block of an entry. */
  lemma BlockOfEntry(bs: seq<Blk>, base: nat, extent: nat, es: set<nat>, e: nat) returns (b: Blk)
    requires Owned(bs, base, extent, es) && e in es
    ensures b in bs && !b.free && b.off == BlockOf(base, e) && b.off + BLOCK == base + e && b != bs[0]
  {
    assert BlockOf(base, e) in OwnBlocks(base, es);
    assert BlockOf(base, e) in UsedOffs(bs);
    b :| b in bs && !b.free && b.off == BlockOf(base, e);
  }

  /** The entry of a block. */
  lemma OwnerOf(bs: seq<Blk>, base: nat, extent: nat, es: set<nat>, b: Blk) returns (e: nat)
    requires Owned(bs, base, extent, es) && b in bs && !b.free && b.off != bs[0].off
    ensures e in es && b.off + BLOCK == base + e && extent <= e
  {
    assert b.off in UsedOffs(bs);
    e :| e in es && BlockOf(base, e) == b.off;
  }

  /** A block that is freed is no entry any more. */
  lemma FreeOwned(bs: seq<Blk>, b: Blk, lo: nat, hi: nat, base: nat, extent: nat, es: set<nat>, e: nat)
    requires Tiles(bs, lo, hi) && Owned(bs, base, extent, es) && b in bs && !b.free && e in es
    requires b.off + BLOCK == base + e
    requires b != bs[0]
    ensures Owned(Freed(bs, b), base, extent, es - {e})
  {
    var f := Free(b.off, b.size);
    TilesRange(bs, lo, hi);
    Beyond(bs, b, lo, hi);
    ReplaceUsed(bs, b, [f], lo, hi);
    UsedOffsOne(f);
    CoalesceUsed(Replace(bs, b.off, [f]));
    hide Tiles, Replace, Coalesce;
    assert OwnBlocks(base, es - {e}) == OwnBlocks(base, es) - {b.off};
    assert bs[0].off != b.off;
  }

  /** From bs to bs', exactly the blocks of the entries are given back that are in es, but not in es'. */
  ghost predicate Returned(bs: seq<Blk>, bs': seq<Blk>, base: nat, es: set<nat>, es': set<nat>) {
    es' <= es && bs' == Vacated(bs, OwnBlocks(base, es - es'))
  }

  lemma ReturnedNone(bs: seq<Blk>, base: nat, es: set<nat>)
    requires Separated(bs)
    ensures Returned(bs, bs, base, es, es)
  {
    VacatedNone(bs);
    assert OwnBlocks(base, es - es) == {};
  }

  lemma ReturnedOne(bs: seq<Blk>, base: nat, es: set<nat>, e: nat)
    requires e in es
    ensures Returned(bs, Vacated(bs, {BlockOf(base, e)}), base, es, es - {e})
  {
    assert es - (es - {e}) == {e};
    assert OwnBlocks(base, {e}) == {BlockOf(base, e)};
  }

  lemma ReturnedTrans(bs: seq<Blk>, bs': seq<Blk>, bs'': seq<Blk>, base: nat, es: set<nat>, es': set<nat>,
                      es'': set<nat>)
    requires Returned(bs, bs', base, es, es') && Returned(bs', bs'', base, es', es'')
    ensures Returned(bs, bs'', base, es, es'')
  {
    VacatedTwice(bs, OwnBlocks(base, es - es'), OwnBlocks(base, es' - es''));
    assert (es - es') + (es' - es'') == es - es'';
    assert OwnBlocks(base, es - es') + OwnBlocks(base, es' - es'') == OwnBlocks(base, es - es'');
  }

  /** When there are no entries, the header is the only allocated block, and all other memory is one
      free block, if there is any. */
  lemma EmptyHeap(bs: seq<Blk>, base: nat, extent: nat, lo: nat, hi: nat)
    requires Owned(bs, base, extent, {}) && Tiles(bs, lo, hi) && Separated(bs)
    ensures var end := lo + bs[0].size;
            end <= hi && bs == [bs[0]] + if end == hi then [] else [Free(end, hi - end)]
  {
    var rest := bs[1..];
    forall i | 0 <= i < |rest| ensures rest[i].free {
      NoOwner(bs, rest[i], base, lo, hi);
    }
    TilesRange(rest, lo + bs[0].size, hi);
    if rest != [] {
      assert rest == [rest[0]] && rest[1..] == [] && rest[0] in rest;
    }
  }

  lemma NoOwner(bs: seq<Blk>, b: Blk, base: nat, lo: nat, hi: nat)
    requires Tiles(bs, lo, hi) && bs != [] && Sound(bs[0]) && b in bs[1..]
    requires UsedOffs(bs) == OwnBlocks(base, {}) + {bs[0].off}
    ensures b.free
  {
    TilesRange(bs[1..], lo + bs[0].size, hi);
    assert b in bs && bs[0].off < b.off;
    assert OwnBlocks(base, {}) == {};
    assert !b.free ==> b.off in UsedOffs(bs);
  }

  // ------------------------------------------------------------------- replaying the moves

  /** Replaying has come to pre and tail: the blocks in pre are final, those in tail are as
      defragmentation finds them, and the moves still to be replayed are those of tail. */
  ghost predicate Replaying(target: seq<Blk>, stays: set<nat>, pre: seq<Blk>, tail: seq<Blk>, moves: seq<(nat, nat)>,
                            lo: nat, mid: nat, hi: nat) {
    && AllSound(tail) && Separated(tail) && Tiles(pre, lo, mid) && Tiles(tail, mid, hi)
    && pre + Compact(tail, stays) == target && moves == Moves(tail, stays)
  }

  lemma TilesSnoc(pre: seq<Blk>, b: Blk, lo: nat, mid: nat)
    requires Tiles(pre, lo, mid) && b.off == mid && Sound(b)
    ensures Tiles(pre + [b], lo, mid + b.size)
  {
    TilesRange(pre, lo, mid);
    assert [b][1..] == [];
    TilesConcat(pre, [b], lo, mid + b.size);
  }

  lemma OwnedFirst(bs: seq<Blk>, base: nat, extent: nat, es: set<nat>)
    requires Owned(bs, base, extent, es)
    ensures bs != [] && !bs[0].free && base >= BLOCK
  {
  }

  lemma ReplayStart(bs: seq<Blk>, stays: set<nat>, lo: nat, hi: nat)
    requires AllSound(bs) && Separated(bs) && Tiles(bs, lo, hi) && bs != [] && !bs[0].free
    ensures bs[..1] + bs[1..] == bs
    ensures Replaying(Compact(bs, stays), stays, bs[..1], bs[1..], Moves(bs, stays), lo, lo + bs[0].size, hi)
  {
    assert bs[..1] == [bs[0]] && [bs[0]][1..] == [];
    assert AllSound(bs[1..]) && Separated(bs[1..]);
    assert Tiles([bs[0]], lo, lo + bs[0].size);
  }

  lemma ReplaySkip(target: seq<Blk>, stays: set<nat>, pre: seq<Blk>, tail: seq<Blk>, moves: seq<(nat, nat)>, lo: nat,
                   mid: nat, hi: nat)
    requires Replaying(target, stays, pre, tail, moves, lo, mid, hi) && tail != []
    requires (!tail[0].free || Stuck(tail, stays))
    ensures Replaying(target, stays, pre + [tail[0]], tail[1..], moves, lo, mid + tail[0].size, hi)
    ensures pre + [tail[0]] + tail[1..] == pre + tail
  {
    hide Compact, Moves, Separated, AllSound, Tiles, Stuck, Sound;
    CompactSkip(tail, stays);
    TilesFirst(tail, mid, hi);
    Assoc(pre, [tail[0]], Compact(tail[1..], stays));
    Assoc(pre, [tail[0]], tail[1..]);
    assert [tail[0]] + tail[1..] == tail;
    TilesSnoc(pre, tail[0], lo, mid);
  }

  lemma TilesFirst(tail: seq<Blk>, mid: nat, hi: nat)
    requires Tiles(tail, mid, hi) && tail != []
    ensures tail[0].off == mid && Sound(tail[0]) && Tiles(tail[1..], mid + tail[0].size, hi)
  {
  }

  lemma CompactSkip(tail: seq<Blk>, stays: set<nat>)
    requires AllSound(tail) && Separated(tail) && tail != [] && (!tail[0].free || Stuck(tail, stays))
    ensures AllSound(tail[1..]) && Separated(tail[1..])
    ensures Compact(tail, stays) == [tail[0]] + Compact(tail[1..], stays)
    ensures Moves(tail, stays) == Moves(tail[1..], stays)
  {
  }

  /** On to the next block that is moved. */
  lemma {:induction false} ReplayOn(target: seq<Blk>, stays: set<nat>, pre: seq<Blk>, tail: seq<Blk>,
                                    moves: seq<(nat, nat)>, lo: nat, mid: nat, hi: nat)
    returns (pre': seq<Blk>, tail': seq<Blk>, mid': nat)
    requires Replaying(target, stays, pre, tail, moves, lo, mid, hi) && moves != []
    ensures Replaying(target, stays, pre', tail', moves, lo, mid', hi) && mid' >= mid
    ensures pre' + tail' == pre + tail && tail' != [] && tail'[0].free && !Stuck(tail', stays)
    decreases |tail|
  {
    assert tail != [];
    if tail[0].free && !Stuck(tail, stays) {
      pre', tail', mid' := pre, tail, mid;
    } else {
      ReplaySkip(target, stays, pre, tail, moves, lo, mid, hi);
      hide Replaying;
      pre', tail', mid' := ReplayOn(target, stays, pre + [tail[0]], tail[1..], moves, lo, mid + tail[0].size, hi);
    }
  }

  lemma ReplayMove(target: seq<Blk>, stays: set<nat>, pre: seq<Blk>, tail: seq<Blk>, moves: seq<(nat, nat)>, lo: nat,
                   mid: nat, hi: nat)
    requires Replaying(target, stays, pre, tail, moves, lo, mid, hi) && tail != [] && tail[0].free
    requires !Stuck(tail, stays)
    ensures moves != [] && moves[0] == (tail[1].off, tail[0].off) && Sound(tail[1]) && !tail[1].free
    ensures tail[0].off >= mid && tail[1].off !in stays
    ensures Replaying(target, stays, pre + [Moved(tail[0], tail[1])], Slide(tail), moves[1..],
                      lo, mid + tail[1].used, hi)
  {
    SlideKeeps(tail);
    SlideTiles(tail, mid, hi);
    var mv, rest := Moved(tail[0], tail[1]), Slide(tail);
    assert Compact(tail, stays) == [mv] + Compact(rest, stays);
    assert Moves(tail, stays) == [(tail[1].off, tail[0].off)] + Moves(rest, stays);
    hide Compact, Moves, Separated, AllSound, Slide, Tiles;
    Assoc(pre, [mv], Compact(rest, stays));
    TilesSnoc(pre, mv, lo, mid);
  }

  /** A move frees one place and takes another that was free. */
  lemma ReplayUsed(pre: seq<Blk>, tail: seq<Blk>, lo: nat, mid: nat, hi: nat)
    requires Tiles(pre, lo, mid) && Tiles(tail, mid, hi) && |tail| >= 2 && tail[0].free && !tail[1].free
    requires Sound(tail[1])
    ensures UsedOffs(pre + [Moved(tail[0], tail[1])] + Slide(tail)) ==
      UsedOffs(pre + tail) - {tail[1].off} + {tail[0].off}
    ensures tail[0].off !in UsedOffs(pre + tail) && tail[1].off in UsedOffs(pre + tail)
  {
    hide UsedOffs, Tiles, Slide;
    var f, n := tail[0], tail[1];
    UsedOffsConcat(pre, tail);
    UsedOffsConcat(pre + [Moved(f, n)], Slide(tail));
    UsedOffsConcat(pre, [Moved(f, n)]);
    UsedOffsOne(Moved(f, n));
    TailUsed(tail);
    TailApart(pre, tail, lo, mid, hi);
  }

  lemma TailUsed(tail: seq<Blk>)
    requires |tail| >= 2 && tail[0].free && !tail[1].free && tail[1].used <= tail[1].size
    ensures UsedOffs(tail) == UsedOffs(tail[1..][1..]) + {tail[1].off}
    ensures UsedOffs(Slide(tail)) == UsedOffs(tail[1..][1..])
  {
    assert tail == [tail[0]] + ([tail[1]] + tail[1..][1..]);
  }

  lemma TailApart(pre: seq<Blk>, tail: seq<Blk>, lo: nat, mid: nat, hi: nat)
    requires Tiles(pre, lo, mid) && Tiles(tail, mid, hi) && |tail| >= 2 && Sound(tail[1])
    ensures tail[0].off !in UsedOffs(pre) && tail[0].off !in UsedOffs(tail[1..][1..]) && tail[0].off != tail[1].off
    ensures tail[1].off !in UsedOffs(pre) && tail[1].off !in UsedOffs(tail[1..][1..])
  {
    TilesRange(pre, lo, mid);
    TilesRange(tail[1..][1..], mid + tail[0].size + tail[1].size, hi);
    assert Sound(tail[0]);
  }

  lemma {:induction false} LiveHas(bs: seq<Blk>, b: Blk)
    ensures b in Live(bs) <==> b in bs && !b.free
  {
    if bs != [] {
      LiveHas(bs[1..], b);
      assert bs == [bs[0]] + bs[1..];
    }
  }

  lemma {:induction false} LiveConcat(a: seq<Blk>, b: seq<Blk>)
    ensures Live(a + b) == Live(a) + Live(b)
  {
    if a == [] {
      assert a + b == b;
    } else {
      assert (a + b)[0] == a[0] && (a + b)[1..] == a[1..] + b;
      LiveConcat(a[1..], b);
    }
  }

  /** The allocated blocks are the same, except that the one at from has moved to to. */
  ghost predicate LiveMoved(bs: seq<Blk>, bs': seq<Blk>, from: nat, to: nat) {
    && |Live(bs')| == |Live(bs)|
    && forall j :: 0 <= j < |Live(bs)| ==> Live(bs')[j].off == if Live(bs)[j].off == from then to else Live(bs)[j].off
  }

  lemma SlideMoves(pre: seq<Blk>, tail: seq<Blk>, lo: nat, mid: nat, hi: nat)
    requires Tiles(pre, lo, mid) && Tiles(tail, mid, hi) && |tail| >= 2 && tail[0].free && !tail[1].free
    requires Sound(tail[1])
    ensures LiveMoved(pre + tail, pre + [Moved(tail[0], tail[1])] + Slide(tail), tail[1].off, tail[0].off)
  {
    hide Live, UsedOffs, Tiles, Slide;
    var mv, rest := Moved(tail[0], tail[1]), Slide(tail);
    SlideSums(tail);
    LiveConcat(pre, tail);
    LiveConcat(pre + [mv], rest);
    LiveConcat(pre, [mv]);
    LiveOne(mv);
    TailApart(pre, tail, lo, mid, hi);
    LiveOffs(pre);
    LiveOffs(tail[1..][1..]);
    SlideLive(tail);
  }

  lemma LiveOne(b: Blk)
    requires !b.free
    ensures Live([b]) == [b]
  {
    Cons(b, []);
    assert [b] + [] == [b];
  }

  lemma SlideLive(tail: seq<Blk>)
    requires |tail| >= 2 && tail[0].free && !tail[1].free && tail[1].used <= tail[1].size
    ensures Live(Slide(tail)) == Live(tail[1..][1..])
  {
    SlideSums(tail);
    assert tail == [tail[0]] + ([tail[1]] + tail[1..][1..]);
    Cons(tail[0], [tail[1]] + tail[1..][1..]);
    Cons(tail[1], tail[1..][1..]);
    hide Live, Slide;
  }

  lemma LiveOffs(bs: seq<Blk>)
    ensures forall b :: b in Live(bs) ==> b.off in UsedOffs(bs)
  {
    forall b | b in Live(bs) ensures b.off in UsedOffs(bs) {
      LiveHas(bs, b);
    }
  }

  lemma {:induction false} NoMoves(bs: seq<Blk>, stays: set<nat>)
    requires AllSound(bs) && Separated(bs) && Moves(bs, stays) == []
    ensures Compact(bs, stays) == bs
    decreases |bs|
  {
    if bs != [] {
      assert AllSound(bs[1..]) && Separated(bs[1..]);
      NoMoves(bs[1..], stays);
    }
  }

  /** When all moves are replayed, the blocks are those that defragmentation left. */
  lemma ReplayEnd(target: seq<Blk>, stays: set<nat>, pre: seq<Blk>, tail: seq<Blk>, lo: nat, mid: nat, hi: nat)
    requires Replaying(target, stays, pre, tail, [], lo, mid, hi)
    ensures pre + tail == target
  {
    NoMoves(tail, stays);
  }

  /** An owner moves. */
  lemma MoveOwner(base: nat, es: set<nat>, used: set<nat>, h: nat, from: nat, to: nat, extent: nat)
    requires base == h + BLOCK && 0 < extent && forall e :: e in es ==> extent <= e
    requires used == OwnBlocks(base, es) + {h} && from in used && from != h && to !in used
    requires base + extent <= to + BLOCK
    ensures base + extent <= from + BLOCK && from + BLOCK - base in es && to + BLOCK - base !in es
    ensures used - {from} + {to} == OwnBlocks(base, es - {from + BLOCK - base} + {to + BLOCK - base}) + {h}
  {
    var e :| e in es && BlockOf(base, e) == from;
    var n := to + BLOCK - base;
    assert BlockOf(base, n) == to;
    var es' := es - {e} + {n};
    forall x | x in used - {from} + {to} && x != h ensures x in OwnBlocks(base, es') {
      if x == to {
        assert n in es';
      } else {
        var d :| d in es && BlockOf(base, d) == x;
        assert d in es';
      }
    }
    assert h !in OwnBlocks(base, es');
  }

  lemma FirstStays(pre0: seq<Blk>, tail0: seq<Blk>, pre: seq<Blk>, tail: seq<Blk>, lo: nat, mid0: nat, mid: nat)
    requires pre0 != [] && pre0 + tail0 == pre + tail && mid0 <= mid
    requires Tiles(pre0, lo, mid0) && Tiles(pre, lo, mid)
    ensures pre != [] && pre[0] == (pre0 + tail0)[0] && pre[0].off + pre[0].size <= mid && pre[0].size > 0
  {
    TilesRange(pre0[1..], lo + pre0[0].size, mid0);
    assert pre == [] ==> lo == mid;
    assert pre != [] ==> pre[0] == (pre + tail)[0];
  }

  lemma ReplayTiles(target: seq<Blk>, stays: set<nat>, pre: seq<Blk>, tail: seq<Blk>, moves: seq<(nat, nat)>, lo: nat,
                    mid: nat, hi: nat)
    requires Replaying(target, stays, pre, tail, moves, lo, mid, hi)
    ensures Tiles(pre, lo, mid) && Tiles(tail, mid, hi)
    ensures tail != [] && tail[0].free && !Stuck(tail, stays) ==>
      |tail| >= 2 && Sound(tail[1]) && tail[0].off == mid < tail[1].off
  {
    assert |tail| >= 2 ==> tail[1..][0] == tail[1] && Tiles(tail[1..], mid + tail[0].size, hi) && Sound(tail[0]);
  }

  /** One move of the replay, as it looks to the owners. */
  lemma ReplayOwned(target: seq<Blk>, stays: set<nat>, pre0: seq<Blk>, tail0: seq<Blk>, moves: seq<(nat, nat)>,
                    lo: nat, mid0: nat, hi: nat, base: nat, extent: nat, es: set<nat>)
    returns (pre': seq<Blk>, tail': seq<Blk>, mid': nat)
    requires Replaying(target, stays, pre0, tail0, moves, lo, mid0, hi) && moves != [] && pre0 != []
    requires Owned(pre0 + tail0, base, extent, es)
    ensures pre' != [] && Replaying(target, stays, pre', tail', moves[1..], lo, mid', hi)
    ensures var (from, to) := moves[0];
            && base + extent <= from + BLOCK && base + extent <= to + BLOCK && from !in stays
            && from + BLOCK - base in es && to + BLOCK - base !in es
            && Owned(pre' + tail', base, extent, es - {from + BLOCK - base} + {to + BLOCK - base})
            && BlockOf(base, from + BLOCK - base) == from
            && LiveMoved(pre0 + tail0, pre' + tail', from, to) && to !in UsedOffs(pre0 + tail0)
  {
    hide Replaying, Tiles, UsedOffs, Slide, Stuck, OwnBlocks, Sound, LiveMoved;
    var pre, tail, mid := ReplayOn(target, stays, pre0, tail0, moves, lo, mid0, hi);
    ReplayTiles(target, stays, pre0, tail0, moves, lo, mid0, hi);
    ReplayTiles(target, stays, pre, tail, moves, lo, mid, hi);
    ReplayMove(target, stays, pre, tail, moves, lo, mid, hi);
    ReplayUsed(pre, tail, lo, mid, hi);
    SlideMoves(pre, tail, lo, mid, hi);
    pre', tail', mid' := pre + [Moved(tail[0], tail[1])], Slide(tail), mid + tail[1].used;
    FirstStays(pre0, tail0, pre, tail, lo, mid0, mid);
    assert (pre' + tail')[0] == (pre0 + tail0)[0];
    MoveOwner(base, es, UsedOffs(pre + tail), (pre0 + tail0)[0].off, tail[1].off, tail[0].off, extent);
  }
}
