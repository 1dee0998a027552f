/**
 What the allocated blocks hold: the entry whose block it is, and in the block's bytes, behind the
 entry and its key, the image of its value.
 */
module Imprint {
  import opened Basics
  import opened Blocks
  import opened Compaction
  import opened Entries
  import opened Owner
  import opened Payload
  import opened Table

  /** The image of a value fills the allocation behind the entry and its key. */
  predicate Fitting(x: Entry) {
    x.val.Image? ==> EntryBytes(|x.key|) + |x.val.bytes| == x.memSize
  }

  /** The bytes p of a block hold entry x. */
  predicate Printed(x: Entry, p: seq<Byte>) {
    && |p| + BLOCK == RealSize(x.memSize) && x.memSize <= |p| && Fitting(x)
    && (x.val.Image? ==> p[EntryBytes(|x.key|)..x.memSize] == x.val.bytes)
  }

  /** An entry with its place in the table. */
  datatype Holding = Holding(x: Entry, home: nat)

  /** The entry whose block is at offset o. The header's block holds none. */
  function Occupant(rec: Records, home: Homes, base: nat, o: nat): Option<Holding> {
    if o + BLOCK >= base && o + BLOCK - base in rec && o + BLOCK - base in home
    then Some(Holding(rec[o + BLOCK - base], home[o + BLOCK - base])) else None
  }

  /** What the allocated blocks hold, in order. */
  function Holdings(bs: seq<Blk>, rec: Records, home: Homes, base: nat): seq<Option<Holding>> {
    seq(|Live(bs)|, i requires 0 <= i < |Live(bs)| => Occupant(rec, home, base, Live(bs)[i].off))
  }

  /** Every entry is in its block. */
  ghost predicate Imprinted(bs: seq<Blk>, mem: seq<Byte>, rec: Records, base: nat) {
    forall b :: b in bs && !b.free && b.off + BLOCK >= base && b.off + BLOCK - base in rec ==>
      Printed(rec[b.off + BLOCK - base], PayloadOf(mem, b))
  }

  // ---- defragmentation

  lemma {:induction false} PayloadsAt(mem: seq<Byte>, bs: seq<Blk>, k: nat)
    requires k < |Live(bs)|
    ensures |Payloads(mem, bs)| == |Live(bs)| && Payloads(mem, bs)[k] == PayloadOf(mem, Live(bs)[k])
  {
    if bs[0].free {
      PayloadsAt(mem, bs[1..], k);
    } else if k > 0 {
      PayloadsAt(mem, bs[1..], k - 1);
    } else {
      PayloadsCount(mem, bs);
    }
  }

  lemma {:induction false} PayloadsCount(mem: seq<Byte>, bs: seq<Blk>)
    ensures |Payloads(mem, bs)| == |Live(bs)|
  {
    if bs != [] {
      PayloadsCount(mem, bs[1..]);
    }
  }

  /** Entry and block move together. */
  lemma HoldingsMoved(bs: seq<Blk>, bs': seq<Blk>, rec: Records, home: Homes, base: nat, from: nat, to: nat)
    requires LiveMoved(bs, bs', from, to) && to !in UsedOffs(bs)
    requires base <= from + BLOCK && base <= to + BLOCK && from + BLOCK - base in rec && from + BLOCK - base in home
    ensures var o, n := from + BLOCK - base, to + BLOCK - base;
            Holdings(bs', (rec - {o})[n := rec[o]], (home - {o})[n := home[o]], base) == Holdings(bs, rec, home, base)
  {
    LiveOffs(bs);
    hide UsedOffs, Live;
    var o, n := from + BLOCK - base, to + BLOCK - base;
    var rec', home' := (rec - {o})[n := rec[o]], (home - {o})[n := home[o]];
    forall j | 0 <= j < |Live(bs)|
      ensures Occupant(rec', home', base, Live(bs')[j].off) == Occupant(rec, home, base, Live(bs)[j].off)
    {
      assert Live(bs)[j] in Live(bs);
    }
  }

  /** What the blocks hold and their bytes determine whether every entry is in its block. */
  lemma ImprintedAt(bs: seq<Blk>, mem: seq<Byte>, rec: Records, home: Homes, base: nat, k: nat)
    requires rec.Keys == home.Keys && Imprinted(bs, mem, rec, base) && k < |Live(bs)|
    ensures |Payloads(mem, bs)| == |Live(bs)|
    ensures Holdings(bs, rec, home, base)[k].Some? ==>
      Printed(Holdings(bs, rec, home, base)[k].value.x, Payloads(mem, bs)[k])
  {
    PayloadsAt(mem, bs, k);
    LiveHas(bs, Live(bs)[k]);
    hide Live, Payloads, Printed;
  }

  /** So a defragmentation keeps the values, if it keeps what the blocks hold and their bytes. */
  lemma StillImprinted(bs: seq<Blk>, mem: seq<Byte>, rec: Records, home: Homes,
                       bs': seq<Blk>, mem': seq<Byte>, rec': Records, home': Homes, base: nat)
    requires rec.Keys == home.Keys && rec'.Keys == home'.Keys && Imprinted(bs, mem, rec, base)
    requires Holdings(bs', rec', home', base) == Holdings(bs, rec, home, base)
    requires Payloads(mem', bs') == Payloads(mem, bs)
    ensures Imprinted(bs', mem', rec', base)
  {
    hide Live, Payloads, Printed, PayloadOf;
    assert |Live(bs')| == |Holdings(bs', rec', home', base)| == |Live(bs)|;
    forall b | b in bs' && !b.free && b.off + BLOCK >= base && b.off + BLOCK - base in rec'
      ensures Printed(rec'[b.off + BLOCK - base], PayloadOf(mem', b))
    {
      LiveHas(bs', b);
      var k :| 0 <= k < |Live(bs')| && Live(bs')[k] == b;
      PayloadsAt(mem', bs', k);
      ImprintedAt(bs, mem, rec, home, base, k);
      assert Holdings(bs', rec', home', base)[k] ==
        Some(Holding(rec'[b.off + BLOCK - base], home'[b.off + BLOCK - base]));
    }
  }

  // ---- allocating, freeing and writing

  /** Allocating adds one, for whose payload there is room. */
  lemma AllocatedLive(bs: seq<Blk>, b: Blk, r: nat, minBlock: nat, lo: nat, hi: nat)
    requires Tiles(bs, lo, hi) && b in bs && BLOCK <= r <= b.size
    ensures lo <= b.off && b.off + r <= hi
    ensures forall c :: c in Allocated(bs, b, r, minBlock) && !c.free ==>
      if c.off == b.off then c.used == r else c in bs && (c.off + c.used <= b.off || b.off + r <= c.off)
  {
    hide Replace, Tiles;
    var pre, post := Surroundings(bs, b, lo, hi);
    ReplaceAt(pre, b, post, Split(b, r, minBlock));
    assert forall c :: c in pre ==> c in bs;
    assert forall c :: c in post ==> c in bs;
  }

  lemma Surroundings(bs: seq<Blk>, b: Blk, lo: nat, hi: nat) returns (pre: seq<Blk>, post: seq<Blk>)
    requires Tiles(bs, lo, hi) && b in bs
    ensures bs == pre + [b] + post && lo <= b.off && b.off + b.size <= hi
    ensures forall c :: c in pre ==> c.off + c.used <= b.off && c.off != b.off
    ensures forall c :: c in post ==> b.off + b.size <= c.off && c.off != b.off
  {
    pre, post := Locate(bs, b, lo, hi);
    TilesRange(bs, lo, hi);
    Blocks.Shift(pre, [b], post);
    TilesConcat(pre, [b] + post, lo, hi);
    TilesRange(pre, lo, End(pre, lo));
    assert ([b] + post)[1..] == post;
    TilesRange(post, b.off + b.size, hi);
  }

  lemma ImprintedDropped(bs: seq<Blk>, bs': seq<Blk>, mem: seq<Byte>, rec: Records, base: nat)
    requires Imprinted(bs, mem, rec, base) && forall c :: c in bs' && !c.free ==> c in bs
    ensures Imprinted(bs', mem, rec, base)
  {
    hide Printed, PayloadOf;
  }

  lemma ImprintedWithout(bs: seq<Blk>, mem: seq<Byte>, rec: Records, base: nat, e: nat)
    requires Imprinted(bs, mem, rec, base)
    ensures Imprinted(bs, mem, rec - {e}, base)
  {
    hide Printed, PayloadOf;
  }

  /** Writing to the fields of a record. */
  lemma ImprintedRewritten(bs: seq<Blk>, mem: seq<Byte>, rec: Records, base: nat, e: nat, x: Entry)
    requires Imprinted(bs, mem, rec, base) && e in rec && x.key == rec[e].key && x.memSize == rec[e].memSize
    requires x.val == rec[e].val || x.val.Long?
    ensures Imprinted(bs, mem, rec[e := x], base)
  {
    hide PayloadOf;
  }

  // ---- writing and reading a value

  lemma WriteElsewhere(mem: seq<Byte>, o: nat, image: seq<Byte>, b: Blk)
    requires o + |image| <= |mem| && (b.off + b.used <= o || o + |image| <= b.off + BLOCK)
    ensures PayloadOf(WriteBytes(mem, o, image), b) == PayloadOf(mem, b)
  {
  }

  lemma WriteHere(mem: seq<Byte>, b: Blk, x: Entry)
    requires b.used == RealSize(x.memSize) && b.off + b.used <= |mem| && Fitting(x) && x.val.Image?
    ensures b.off + BLOCK + x.memSize <= |mem|
    ensures Printed(x, PayloadOf(WriteBytes(mem, b.off + BLOCK + EntryBytes(|x.key|), x.val.bytes), b))
  {
    hide EntryBytes;
    var mem' := WriteBytes(mem, b.off + BLOCK + EntryBytes(|x.key|), x.val.bytes);
    assert PayloadOf(mem', b)[EntryBytes(|x.key|)..x.memSize] ==
      mem'[b.off + BLOCK + EntryBytes(|x.key|)..b.off + BLOCK + x.memSize];
  }

  /** The image of x is written into its block, whose bytes begin at o. */
  function Stamped(mem: seq<Byte>, o: nat, x: Entry): (mem': seq<Byte>)
    requires Fitting(x) && o + x.memSize <= |mem|
    ensures |mem'| == |mem|
  {
    if x.val.Image? then WriteBytes(mem, o + EntryBytes(|x.key|), x.val.bytes) else mem
  }

  lemma StampedElsewhere(mem: seq<Byte>, o: nat, x: Entry, b: Blk)
    requires Fitting(x) && o + x.memSize <= |mem| && BLOCK <= o
    requires (b.off + b.used <= o - BLOCK || o + x.memSize <= b.off + BLOCK)
    ensures PayloadOf(Stamped(mem, o, x), b) == PayloadOf(mem, b)
  {
    hide EntryBytes, PayloadOf, WriteBytes;
    if x.val.Image? {
      WriteElsewhere(mem, o + EntryBytes(|x.key|), x.val.bytes, b);
    }
  }

  lemma StampedHere(mem: seq<Byte>, b: Blk, x: Entry)
    requires b.used == RealSize(x.memSize) && b.off + b.used <= |mem| && Fitting(x)
    ensures b.off + BLOCK + x.memSize <= |mem|
    ensures Printed(x, PayloadOf(Stamped(mem, b.off + BLOCK, x), b))
  {
    hide EntryBytes;
    if x.val.Image? {
      WriteHere(mem, b, x);
    }
  }

  lemma RealSizeRoom(n: nat)
    ensures BLOCK + n <= RealSize(n)
  {
  }

  /** A new entry is written into its block, and the others keep theirs. */
  lemma ImprintedNew(bs: seq<Blk>, b: Blk, minBlock: nat, lo: nat, hi: nat, mem: seq<Byte>, rec: Records, base: nat,
                     x: Entry)
    requires Tiles(bs, lo, hi) && b in bs && RealSize(x.memSize) <= b.size && hi <= |mem| && base <= b.off + BLOCK
    requires Imprinted(bs, mem, rec, base) && Fitting(x)
    ensures b.off + BLOCK + x.memSize <= |mem|
    ensures Imprinted(Allocated(bs, b, RealSize(x.memSize), minBlock), Stamped(mem, b.off + BLOCK, x),
                      rec[b.off + BLOCK - base := x], base)
  {
    hide Tiles, Allocated, PayloadOf, Printed, Stamped, RealSize, Fitting;
    var r := RealSize(x.memSize);
    RealSizeRoom(x.memSize);
    AllocatedLive(bs, b, r, minBlock, lo, hi);
    var mem', rec' := Stamped(mem, b.off + BLOCK, x), rec[b.off + BLOCK - base := x];
    forall c | c in Allocated(bs, b, r, minBlock) && !c.free && c.off + BLOCK >= base && c.off + BLOCK - base in rec'
      ensures Printed(rec'[c.off + BLOCK - base], PayloadOf(mem', c))
    {
      if c.off == b.off {
        StampedHere(mem, c, x);
      } else {
        StampedElsewhere(mem, b.off + BLOCK, x, c);
      }
    }
  }

  /** An entry's value is read from its block. */
  lemma PrintedIn(bs: seq<Blk>, mem: seq<Byte>, rec: Records, base: nat, e: nat, b: Blk)
    requires Imprinted(bs, mem, rec, base) && b in bs && !b.free && b.off + BLOCK == base + e
    requires e in rec && rec[e].memSize > 0 && rec[e].val.Image?
    ensures EntryBytes(|rec[e].key|) <= rec[e].memSize && base + e + rec[e].memSize <= |mem|
    ensures mem[base + e + EntryBytes(|rec[e].key|)..base + e + rec[e].memSize] == rec[e].val.bytes
  {
    hide EntryBytes, PayloadOf, Printed;
    assert Printed(rec[b.off + BLOCK - base], PayloadOf(mem, b));
    PrintedAt(mem, b, rec[e]);
  }

  lemma PrintedAt(mem: seq<Byte>, b: Blk, x: Entry)
    requires Printed(x, PayloadOf(mem, b)) && x.memSize > 0 && x.val.Image?
    ensures EntryBytes(|x.key|) <= x.memSize && b.off + BLOCK + x.memSize <= |mem|
    ensures mem[b.off + BLOCK + EntryBytes(|x.key|)..b.off + BLOCK + x.memSize] == x.val.bytes
  {
    hide EntryBytes, RealSize;
    assert PayloadOf(mem, b) == mem[b.off + BLOCK..b.off + b.used] && EntryBytes(|x.key|) <= x.memSize;
    SliceOfSlice(mem, b.off + BLOCK, b.off + b.used, EntryBytes(|x.key|), x.memSize);
  }

  lemma SliceOfSlice(s: seq<Byte>, i: nat, j: nat, m: nat, n: nat)
    requires i <= j <= |s| && m <= n <= j - i
    ensures s[i..j][m..n] == s[i + m..i + n]
  {
    assert |s[i..j][m..n]| == |s[i + m..i + n]|;
    forall k | 0 <= k < n - m ensures s[i..j][m..n][k] == s[i + m..i + n][k] {
    }
  }
}
