/**
 The blocks of the shared segment (apc_sma.c) as a sequence, without their headers, and what
 allocating, freeing and defragmenting mean for that sequence.
 */
module Blocks {

  /** ALIGNWORD(sizeof(block_t)) for four 8-byte fields. */
  const BLOCK: nat := 32

  function AlignWord(n: nat): (a: nat)
    ensures n <= a < n + 8 && a % 8 == 0
  {
    (n + 7) / 8 * 8
  }

  /** The size of the block that size bytes need, with its header. */
  function RealSize(size: nat): (r: nat)
    ensures size + 32 <= r < size + 40 && r % 8 == 0
  {
    AlignWord(size + AlignWord(BLOCK))
  }

  /** APC_ENTRY_SIZE: an entry with its key, before the bytes of its value. */
  function EntryBytes(len: nat): (n: nat)
    ensures len + 121 <= n < len + 129 && n % 8 == 0
  {
    AlignWord(120 + len + 1)
  }

  /** A block: where it is, its size with its header, whether it is free, and for an allocated
      block how much of it is in use. */
  datatype Blk = Blk(off: nat, size: nat, free: bool, used: nat)

  predicate Sound(b: Blk) {
    b.size >= BLOCK && if b.free then b.used == 0 else BLOCK <= b.used <= b.size
  }

  function Free(off: nat, size: nat): Blk {
    Blk(off, size, true, 0)
  }

  /** The back tag a block leaves in its successor: its size if it is free, else 0. */
  function Tag(b: Blk): nat {
    if b.free then b.size else 0
  }

  function End(bs: seq<Blk>, lo: nat): nat {
    if bs == [] then lo else End(bs[1..], lo + bs[0].size)
  }

  function TagAfter(bs: seq<Blk>, tag: nat): nat {
    if bs == [] then tag else TagAfter(bs[1..], Tag(bs[0]))
  }

  function FreeSum(bs: seq<Blk>): nat {
    if bs == [] then 0 else Tag(bs[0]) + FreeSum(bs[1..])
  }

  /** Block after block from lo to hi. */
  ghost predicate Tiles(bs: seq<Blk>, lo: nat, hi: nat) {
    if bs == [] then lo == hi
    else bs[0].off == lo && Sound(bs[0]) && Tiles(bs[1..], lo + bs[0].size, hi)
  }

  /** No two neighbours are free. */
  predicate Separated(bs: seq<Blk>) {
    |bs| < 2 || (!(bs[0].free && bs[1].free) && Separated(bs[1..]))
  }

  // ------------------------------------------------------------------- allocating and freeing

  /** What becomes of a free block that is taken for r bytes: all of it is allocated if the rest
      could not be a block of its own, else the rest stays free. */
  function Split(b: Blk, r: nat, minBlock: nat): seq<Blk>
    requires r <= b.size
  {
    if b.size < r + minBlock then [Blk(b.off, b.size, false, r)]
    else [Blk(b.off, r, false, r), Free(b.off + r, b.size - r)]
  }

  /** The block at o is replaced by xs. */
  function Replace(bs: seq<Blk>, o: nat, xs: seq<Blk>): seq<Blk> {
    if bs == [] then [] else if bs[0].off == o then xs + bs[1..] else [bs[0]] + Replace(bs[1..], o, xs)
  }

  /** Neighbouring free blocks are joined. */
  function Coalesce(bs: seq<Blk>): seq<Blk>
    decreases |bs|
  {
    if |bs| < 2 then bs
    else if bs[0].free && bs[1].free then Coalesce([Free(bs[0].off, bs[0].size + bs[1].size)] + bs[2..])
    else [bs[0]] + Coalesce(bs[1..])
  }

  /** Allocation of r bytes in the free block b. */
  function Allocated(bs: seq<Blk>, b: Blk, r: nat, minBlock: nat): seq<Blk>
    requires r <= b.size
  {
    Replace(bs, b.off, Split(b, r, minBlock))
  }

  /** Deallocation of the block b. */
  function Freed(bs: seq<Blk>, b: Blk): seq<Blk> {
    Coalesce(Replace(bs, b.off, [Free(b.off, b.size)]))
  }

  lemma {:induction false} ReplaceAt(pre: seq<Blk>, b: Blk, post: seq<Blk>, xs: seq<Blk>)
    requires forall c :: c in pre ==> c.off != b.off
    ensures Replace(pre + [b] + post, b.off, xs) == pre + xs + post
  {
    var bs := pre + [b] + post;
    if pre == [] {
      assert bs[0] == b && bs[1..] == post;
    } else {
      assert bs[0] == pre[0] && bs[1..] == pre[1..] + [b] + post;
      ReplaceAt(pre[1..], b, post, xs);
      assert pre + xs + post == [pre[0]] + (pre[1..] + xs + post);
    }
  }

  lemma {:induction false} CoalesceSeparated(bs: seq<Blk>)
    requires Separated(bs)
    ensures Coalesce(bs) == bs
  {
    if |bs| >= 2 {
      CoalesceSeparated(bs[1..]);
    }
  }

  /** A separated beginning that ends in an allocated block stays as it is. */
  lemma {:induction false} CoalescePrefix(pre: seq<Blk>, bs: seq<Blk>)
    requires Separated(pre) && TagAfter(pre, 0) == 0 && forall b :: b in pre ==> Sound(b)
    ensures Coalesce(pre + bs) == pre + Coalesce(bs)
  {
    var all := pre + bs;
    if pre == [] {
      assert all == bs;
    } else {
      assert all[0] == pre[0] && all[1..] == pre[1..] + bs;
      if |pre| == 1 {
        assert !pre[0].free by { assert pre[0] in pre; assert TagAfter(pre[1..], Tag(pre[0])) == Tag(pre[0]); }
        assert pre[1..] + bs == bs;
      } else {
        assert all[1] == pre[1];
        CoalescePrefix(pre[1..], bs);
      }
      assert pre + Coalesce(bs) == [pre[0]] + (pre[1..] + Coalesce(bs));
    }
  }

  lemma Shift(a: seq<Blk>, b: seq<Blk>, c: seq<Blk>)
    ensures a + b + c == a + (b + c)
  {
  }

  /** Two free neighbours may be joined first. */
  lemma CoalesceJoin(pre: seq<Blk>, x: Blk, y: Blk, post: seq<Blk>)
    requires Separated(pre) && TagAfter(pre, 0) == 0 && forall b :: b in pre ==> Sound(b)
    requires x.free && y.free
    ensures Coalesce(pre + [x, y] + post) == Coalesce(pre + [Free(x.off, x.size + y.size)] + post)
  {
    var xy := Free(x.off, x.size + y.size);
    CoalescePrefix(pre, [x, y] + post);
    CoalescePrefix(pre, [xy] + post);
    hide Coalesce, Separated, TagAfter, Sound;
    Shift(pre, [x, y], post);
    Shift(pre, [xy], post);
  }

  // ------------------------------------------------------------------- pieces of a tiling

  lemma {:induction false} EndConcat(a: seq<Blk>, b: seq<Blk>, lo: nat)
    ensures End(a + b, lo) == End(b, End(a, lo))
  {
    if a == [] {
      assert a + b == b;
    } else {
      assert (a + b)[1..] == a[1..] + b && (a + b)[0] == a[0];
      EndConcat(a[1..], b, lo + a[0].size);
    }
  }

  lemma {:induction false} TagConcat(a: seq<Blk>, b: seq<Blk>, tag: nat)
    ensures TagAfter(a + b, tag) == TagAfter(b, TagAfter(a, tag))
  {
    if a == [] {
      assert a + b == b;
    } else {
      assert (a + b)[1..] == a[1..] + b && (a + b)[0] == a[0];
      TagConcat(a[1..], b, Tag(a[0]));
    }
  }

  lemma {:induction false} FreeSumConcat(a: seq<Blk>, b: seq<Blk>)
    ensures FreeSum(a + b) == FreeSum(a) + FreeSum(b)
  {
    if a == [] {
      assert a + b == b;
    } else {
      assert (a + b)[1..] == a[1..] + b && (a + b)[0] == a[0];
      FreeSumConcat(a[1..], b);
    }
  }

  lemma {:induction false} TilesConcat(a: seq<Blk>, b: seq<Blk>, lo: nat, hi: nat)
    ensures Tiles(a + b, lo, hi) <==> Tiles(a, lo, End(a, lo)) && Tiles(b, End(a, lo), hi)
  {
    if a == [] {
      assert a + b == b;
    } else {
      assert (a + b)[1..] == a[1..] + b && (a + b)[0] == a[0];
      TilesConcat(a[1..], b, lo + a[0].size, hi);
    }
  }

  lemma {:induction false} TilesRange(bs: seq<Blk>, lo: nat, hi: nat)
    requires Tiles(bs, lo, hi)
    ensures lo <= hi && End(bs, lo) == hi
    ensures forall b :: b in bs ==> lo <= b.off && b.off + b.size <= hi && Sound(b)
  {
    if bs != [] {
      TilesRange(bs[1..], lo + bs[0].size, hi);
    }
  }

  lemma {:induction false} SeparatedConcat(a: seq<Blk>, b: seq<Blk>)
    requires Separated(a + b)
    ensures Separated(a) && Separated(b)
    ensures a != [] && b != [] ==> !(a[|a| - 1].free && b[0].free)
  {
    if a == [] {
      assert a + b == b;
    } else {
      assert (a + b)[0] == a[0] && (a + b)[1..] == a[1..] + b;
      if |a + b| >= 2 {
        SeparatedConcat(a[1..], b);
        assert |a| >= 2 ==> (a + b)[1] == a[1];
      }
    }
  }

  lemma {:induction false} LastTag(bs: seq<Blk>, tag: nat)
    requires bs != [] && forall b :: b in bs ==> Sound(b)
    ensures TagAfter(bs, tag) == Tag(bs[|bs| - 1])
    ensures TagAfter(bs, tag) == 0 <==> !bs[|bs| - 1].free
  {
    assert bs[|bs| - 1] in bs;
    if |bs| > 1 {
      LastTag(bs[1..], Tag(bs[0]));
    }
  }

  /** Where block b stands in a tiling. */
  lemma Locate(bs: seq<Blk>, b: Blk, lo: nat, hi: nat) returns (pre: seq<Blk>, post: seq<Blk>)
    requires Tiles(bs, lo, hi) && b in bs
    ensures bs == pre + [b] + post
    ensures forall c :: c in pre ==> c.off < b.off && Sound(c)
    ensures forall c :: c in post ==> b.off < c.off && Sound(c)
  {
    var i :| 0 <= i < |bs| && bs[i] == b;
    pre, post := bs[..i], bs[i + 1..];
    assert bs == pre + [b] + post;
    Shift(pre, [b], post);
    TilesConcat(pre, [b] + post, lo, hi);
    assert ([b] + post)[0] == b && ([b] + post)[1..] == post;
    TilesRange(pre, lo, End(pre, lo));
    TilesRange(post, End(pre, lo) + b.size, hi);
  }

  lemma FreeSumOf(pre: seq<Blk>, xs: seq<Blk>, post: seq<Blk>)
    ensures FreeSum(pre + xs + post) == FreeSum(pre) + FreeSum(xs) + FreeSum(post)
  {
    FreeSumConcat(pre + xs, post);
    FreeSumConcat(pre, xs);
  }

  lemma SplitFreeSum(b: Blk, r: nat, minBlock: nat)
    requires b.free && r <= b.size
    ensures FreeSum(Split(b, r, minBlock)) == b.size - Split(b, r, minBlock)[0].size
    ensures FreeSum([b]) == b.size
  {
    if b.size >= r + minBlock {
      var y := Free(b.off + r, b.size - r);
      assert Split(b, r, minBlock)[1..] == [y];
      assert FreeSum([y]) == y.size;
    }
  }

  // ------------------------------------------------------------------- giving back many blocks

  /** The blocks at the offsets os become free. */
  function Emptied(bs: seq<Blk>, os: set<nat>): seq<Blk> {
    if bs == [] then []
    else [if bs[0].off in os then Free(bs[0].off, bs[0].size) else bs[0]] + Emptied(bs[1..], os)
  }

  /** The blocks when those at the offsets os have been given back. */
  function Vacated(bs: seq<Blk>, os: set<nat>): seq<Blk> {
    Coalesce(Emptied(bs, os))
  }

  /** The bytes of the free blocks together with those of the blocks at os. */
  function FreeWith(bs: seq<Blk>, os: set<nat>): nat {
    if bs == [] then 0 else (if bs[0].free || bs[0].off in os then bs[0].size else 0) + FreeWith(bs[1..], os)
  }

  lemma {:induction false} FreeWithMore(bs: seq<Blk>, os: set<nat>, os': set<nat>)
    requires os <= os'
    ensures FreeWith(bs, os) <= FreeWith(bs, os')
  {
    if bs != [] {
      FreeWithMore(bs[1..], os, os');
    }
  }

  lemma {:induction false} FreeWithFree(bs: seq<Blk>, os: set<nat>)
    ensures FreeWith(bs, os) >= FreeSum(bs)
  {
    if bs != [] {
      FreeWithFree(bs[1..], os);
    }
  }

  lemma {:induction false} CoalesceFreeSum(bs: seq<Blk>)
    ensures FreeSum(Coalesce(bs)) == FreeSum(bs)
    decreases |bs|
  {
    if |bs| < 2 {
    } else if bs[0].free && bs[1].free {
      var f := Free(bs[0].off, bs[0].size + bs[1].size);
      CoalesceFreeSum([f] + bs[2..]);
      assert ([f] + bs[2..])[1..] == bs[1..][1..];
    } else {
      CoalesceFreeSum(bs[1..]);
      assert ([bs[0]] + Coalesce(bs[1..]))[1..] == Coalesce(bs[1..]);
    }
  }

  lemma {:induction false} EmptiedFreeSum(bs: seq<Blk>, os: set<nat>)
    ensures FreeSum(Emptied(bs, os)) == FreeWith(bs, os)
  {
    if bs != [] {
      EmptiedFreeSum(bs[1..], os);
      assert Emptied(bs, os)[1..] == Emptied(bs[1..], os);
    }
  }

  /** What is free afterwards. */
  lemma VacatedFreeSum(bs: seq<Blk>, os: set<nat>)
    ensures FreeSum(Vacated(bs, os)) == FreeWith(bs, os)
  {
    CoalesceFreeSum(Emptied(bs, os));
    EmptiedFreeSum(bs, os);
  }

  lemma {:induction false} CoalesceLive(bs: seq<Blk>)
    ensures forall c: Blk :: !c.free ==> (c in Coalesce(bs) <==> c in bs)
    decreases |bs|
  {
    if |bs| < 2 {
    } else if bs[0].free && bs[1].free {
      var f := Free(bs[0].off, bs[0].size + bs[1].size);
      CoalesceLive([f] + bs[2..]);
      assert bs == [bs[0], bs[1]] + bs[2..];
    } else {
      CoalesceLive(bs[1..]);
      assert bs == [bs[0]] + bs[1..];
    }
  }

  lemma {:induction false} EmptiedLive(bs: seq<Blk>, os: set<nat>)
    ensures forall c: Blk :: !c.free ==> (c in Emptied(bs, os) <==> c in bs && c.off !in os)
  {
    if bs != [] {
      EmptiedLive(bs[1..], os);
      assert bs == [bs[0]] + bs[1..];
    }
  }

  /** And what is allocated: all other blocks, as they were. */
  lemma VacatedLive(bs: seq<Blk>, os: set<nat>)
    ensures forall c: Blk :: !c.free ==> (c in Vacated(bs, os) <==> c in bs && c.off !in os)
  {
    EmptiedLive(bs, os);
    CoalesceLive(Emptied(bs, os));
  }

  lemma {:induction false} EmptiedNone(bs: seq<Blk>, os: set<nat>)
    requires forall b :: b in bs ==> b.off !in os
    ensures Emptied(bs, os) == bs
  {
    if bs != [] {
      EmptiedNone(bs[1..], os);
    }
  }

  lemma VacatedNone(bs: seq<Blk>)
    requires Separated(bs)
    ensures Vacated(bs, {}) == bs
  {
    EmptiedNone(bs, {});
    CoalesceSeparated(bs);
  }

  lemma {:induction false} EmptiedOne(bs: seq<Blk>, b: Blk, lo: nat, hi: nat)
    requires Tiles(bs, lo, hi) && b in bs
    ensures Replace(bs, b.off, [Free(b.off, b.size)]) == Emptied(bs, {b.off})
  {
    TilesRange(bs[1..], lo + bs[0].size, hi);
    if bs[0] == b {
      EmptiedNone(bs[1..], {b.off});
    } else {
      EmptiedOne(bs[1..], b, lo + bs[0].size, hi);
    }
  }

  lemma {:induction false} EmptiedTwice(bs: seq<Blk>, os: set<nat>, os': set<nat>)
    ensures Emptied(Emptied(bs, os), os') == Emptied(bs, os + os')
  {
    if bs != [] {
      EmptiedTwice(bs[1..], os, os');
      assert Emptied(bs, os)[1..] == Emptied(bs[1..], os);
    }
  }

  /** The tail may be coalesced first. */
  lemma {:induction false} CoalesceTail(a: Blk, bs: seq<Blk>)
    ensures Coalesce([a] + Coalesce(bs)) == Coalesce([a] + bs)
    decreases |bs|
  {
    if |bs| >= 2 {
      var rest := bs[2..];
      if bs[0].free && bs[1].free {
        var f := Free(bs[0].off, bs[0].size + bs[1].size);
        CoalesceTail(a, [f] + rest);
        CoalesceThree(a, bs[0], bs[1], rest);
        assert [a] + bs == [a, bs[0], bs[1]] + rest;
        assert [a] + ([f] + rest) == [a, f] + rest;
      } else {
        CoalesceTail(if a.free && bs[0].free then Free(a.off, a.size + bs[0].size) else bs[0], bs[1..]);
        CoalesceCons(a, bs[0], Coalesce(bs[1..]));
        CoalesceCons(a, bs[0], bs[1..]);
        assert [a] + bs == [a, bs[0]] + bs[1..];
        assert [a] + ([bs[0]] + Coalesce(bs[1..])) == [a, bs[0]] + Coalesce(bs[1..]);
      }
    }
  }

  lemma CoalesceCons(a: Blk, b: Blk, rest: seq<Blk>)
    ensures Coalesce([a, b] + rest) ==
      if a.free && b.free then Coalesce([Free(a.off, a.size + b.size)] + rest) else [a] + Coalesce([b] + rest)
  {
    var z := [a, b] + rest;
    assert z[1..] == [b] + rest && z[2..] == rest;
  }

  lemma CoalesceThree(a: Blk, b: Blk, c: Blk, rest: seq<Blk>)
    requires b.free && c.free
    ensures Coalesce([a, Free(b.off, b.size + c.size)] + rest) == Coalesce([a, b, c] + rest)
  {
    var f := Free(b.off, b.size + c.size);
    CoalesceCons(a, f, rest);
    assert [a, b, c] + rest == [a, b] + ([c] + rest);
    CoalesceCons(a, b, [c] + rest);
    CoalesceCons(b, c, rest);
    assert [b] + ([c] + rest) == [b, c] + rest;
    if a.free {
      var g := Free(a.off, a.size + b.size);
      CoalesceCons(g, c, rest);
      assert [g] + ([c] + rest) == [g, c] + rest;
    }
  }

  /** Coalescing in between makes no difference. */
  lemma {:induction false} CoalesceEmptied(bs: seq<Blk>, os: set<nat>)
    ensures Coalesce(Emptied(Coalesce(bs), os)) == Coalesce(Emptied(bs, os))
    decreases |bs|
  {
    if |bs| >= 2 {
      var a := Emptied(bs, os)[0];
      if bs[0].free && bs[1].free {
        var f, rest := Free(bs[0].off, bs[0].size + bs[1].size), bs[2..];
        CoalesceEmptied([f] + rest, os);
        EmptiedCons(f, rest, os);
        EmptiedCons(bs[0], bs[1..], os);
        EmptiedCons(bs[1], rest, os);
        assert [bs[0]] + bs[1..] == bs && [bs[1]] + rest == bs[1..];
        var b := Emptied(bs[1..], os)[0];
        assert Emptied(bs, os) == [a, b] + Emptied(rest, os);
        CoalesceCons(a, b, Emptied(rest, os));
      } else {
        var rest := bs[1..];
        CoalesceEmptied(rest, os);
        EmptiedCons(bs[0], Coalesce(rest), os);
        CoalesceTail(a, Emptied(Coalesce(rest), os));
        CoalesceTail(a, Emptied(rest, os));
      }
    }
  }

  lemma EmptiedCons(b: Blk, rest: seq<Blk>, os: set<nat>)
    ensures Emptied([b] + rest, os) == [if b.off in os then Free(b.off, b.size) else b] + Emptied(rest, os)
  {
  }

  /** Blocks may be given back one after the other. */
  lemma VacatedTwice(bs: seq<Blk>, os: set<nat>, os': set<nat>)
    ensures Vacated(Vacated(bs, os), os') == Vacated(bs, os + os')
  {
    CoalesceEmptied(Emptied(bs, os), os');
    EmptiedTwice(bs, os, os');
  }

  lemma FreedIsVacated(bs: seq<Blk>, b: Blk, lo: nat, hi: nat)
    requires Tiles(bs, lo, hi) && b in bs
    ensures Freed(bs, b) == Vacated(bs, {b.off})
  {
    EmptiedOne(bs, b, lo, hi);
  }

  // ------------------------------------------------------------------- the theorems

  /** How much an allocation takes: exactly r bytes, with the rest left free behind them, unless less than
      minBlock bytes would be left. All other allocated blocks stay. */
  lemma AllocatedCarves(bs: seq<Blk>, b: Blk, r: nat, minBlock: nat, lo: nat, hi: nat)
    requires Tiles(bs, lo, hi) && b in bs && b.free && r <= b.size && minBlock > 0
    ensures var bs' := Allocated(bs, b, r, minBlock); var taken := FreeSum(bs) - FreeSum(bs');
            && r <= taken < r + minBlock && Blk(b.off, taken, false, r) in bs'
            && (b.size < r + minBlock ==> taken == b.size)
            && (b.size >= r + minBlock ==> taken == r && Free(b.off + r, b.size - r) in bs')
            && forall c: Blk :: !c.free && c.off != b.off ==> (c in bs' <==> c in bs)
  {
    hide *;
    var xs := Split(b, r, minBlock);
    var pre, post := Locate(bs, b, lo, hi);
    ReplaceAt(pre, b, post, xs);
    FreeSumOf(pre, [b], post);
    FreeSumOf(pre, xs, post);
    SplitFreeSum(b, r, minBlock);
    SplitIs(pre, b, post, r, minBlock);
    AllocatedUnfold(bs, b, r, minBlock);
  }

  lemma AllocatedUnfold(bs: seq<Blk>, b: Blk, r: nat, minBlock: nat)
    requires r <= b.size
    ensures Allocated(bs, b, r, minBlock) == Replace(bs, b.off, Split(b, r, minBlock))
  {
  }

  lemma SplitIs(pre: seq<Blk>, b: Blk, post: seq<Blk>, r: nat, minBlock: nat)
    requires b.free && r <= b.size
    ensures var xs := Split(b, r, minBlock); var bs := pre + [b] + post; var bs' := pre + xs + post;
            && xs != [] && xs[0] in bs'
            && xs[0] == Blk(b.off, if b.size < r + minBlock then b.size else r, false, r)
            && (b.size >= r + minBlock ==> Free(b.off + r, b.size - r) in bs')
            && forall c: Blk :: !c.free && c.off != b.off ==> (c in bs' <==> c in bs)
  {
    var xs := Split(b, r, minBlock);
    assert xs[0] in pre + xs + post;
    assert |xs| == 2 ==> xs[1] in pre + xs + post;
  }

  lemma Regroup(pre: seq<Blk>, x: Blk, y: Blk, post: seq<Blk>)
    ensures pre + [x, y] + post == pre + [x] + ([y] + post)
  {
  }

  lemma FreeUndoesSplit(pre: seq<Blk>, b: Blk, post: seq<Blk>, r: nat)
    requires Separated(pre) && TagAfter(pre, 0) == 0 && forall c :: c in pre ==> Sound(c) && c.off != b.off
    requires BLOCK <= r <= b.size && b.free && b.used == 0
    ensures Freed(pre + [Blk(b.off, r, false, r), Free(b.off + r, b.size - r)] + post, Blk(b.off, r, false, r))
         == Coalesce(pre + [b] + post)
  {
    var x, y, f := Blk(b.off, r, false, r), Free(b.off + r, b.size - r), Free(b.off, r);
    hide Coalesce, Separated, TagAfter, Replace;
    assert Replace(pre + [x, y] + post, b.off, [f]) == pre + [f, y] + post by {
      Regroup(pre, x, y, post);
      ReplaceAt(pre, x, [y] + post, [f]);
      Regroup(pre, f, y, post);
    }
    CoalesceJoin(pre, f, y, post);
  }

  /** Freeing undoes allocating: giving back the block just taken restores the very same blocks,
      whether it was taken whole or split. */
  lemma FreeUndoesAllocate(bs: seq<Blk>, b: Blk, r: nat, minBlock: nat, lo: nat, hi: nat)
    requires Tiles(bs, lo, hi) && Separated(bs) && b in bs && b.free
    requires BLOCK <= r <= b.size
    ensures Freed(Allocated(bs, b, r, minBlock), Split(b, r, minBlock)[0]) == bs
  {
    TilesRange(bs, lo, hi);
    CoalesceSeparated(bs);
    var pre, post := Locate(bs, b, lo, hi);
    assert Separated(pre) && TagAfter(pre, 0) == 0 by {
      Shift(pre, [b], post);
      SeparatedConcat(pre, [b] + post);
      if pre != [] {
        LastTag(pre, 0);
      }
    }
    hide Coalesce, Separated, Tiles, TagAfter;
    var xs := Split(b, r, minBlock);
    ReplaceAt(pre, b, post, xs);
    if b.size < r + minBlock {
      ReplaceAt(pre, xs[0], post, [b]);
    } else {
      FreeUndoesSplit(pre, b, post, r);
    }
  }
}
