/** The bytes that the allocated blocks of the segment hold, and the memmove of apc_sma_defrag. */
module Payload {
  import opened Basics
  import opened Blocks
  import opened Compaction

  /** The used bytes of block b behind its header. */
  function PayloadOf(mem: seq<Byte>, b: Blk): seq<Byte> {
    if BLOCK <= b.used && b.off + b.used <= |mem| then mem[b.off + BLOCK..b.off + b.used] else []
  }

  /** What the allocated blocks hold, in order. */
  function Payloads(mem: seq<Byte>, bs: seq<Blk>): seq<seq<Byte>> {
    if bs == [] then []
    else if bs[0].free then Payloads(mem, bs[1..])
    else [PayloadOf(mem, bs[0])] + Payloads(mem, bs[1..])
  }

  /** memmove(cur, nxt, size) behind the headers. */
  function MoveBytes(mem: seq<Byte>, cur: nat, nxt: nat, size: nat): seq<Byte>
    requires BLOCK <= size && cur <= nxt && nxt + size <= |mem|
  {
    mem[..cur + BLOCK] + mem[nxt + BLOCK..nxt + size] + mem[cur + size..]
  }

  /** The bytes image are written to offset o. */
  function WriteBytes(mem: seq<Byte>, o: nat, image: seq<Byte>): (mem': seq<Byte>)
    requires o + |image| <= |mem|
    ensures |mem'| == |mem|
  {
    mem[..o] + image + mem[o + |image|..]
  }

  lemma {:induction false} PayloadsConcat(mem: seq<Byte>, a: seq<Blk>, b: seq<Blk>)
    ensures Payloads(mem, a + b) == Payloads(mem, a) + Payloads(mem, b)
  {
    if a == [] {
      assert a + b == b;
    } else {
      assert (a + b)[0] == a[0] && (a + b)[1..] == a[1..] + b;
      PayloadsConcat(mem, a[1..], b);
    }
  }

  lemma {:induction false} PayloadsFrame(mem: seq<Byte>, mem': seq<Byte>, bs: seq<Blk>)
    requires forall b :: b in bs && !b.free ==> PayloadOf(mem', b) == PayloadOf(mem, b)
    ensures Payloads(mem', bs) == Payloads(mem, bs)
  {
    if bs != [] {
      assert forall b :: b in bs[1..] ==> b in bs;
      PayloadsFrame(mem, mem', bs[1..]);
    }
  }

  /** Outside the target area the memmove changes nothing, and the moved bytes arrive. */
  lemma MoveBytesEffect(mem: seq<Byte>, f: Blk, n: Blk, b: Blk)
    requires Sound(n) && !n.free && f.off + f.size == n.off && n.off + n.size <= |mem|
    ensures |MoveBytes(mem, f.off, n.off, n.used)| == |mem|
    ensures PayloadOf(MoveBytes(mem, f.off, n.off, n.used), Moved(f, n)) == PayloadOf(mem, n)
    ensures Sound(b) && !b.free && b.off + b.used <= |mem| && (b.off + b.size <= f.off || f.off + n.used <= b.off) ==>
      PayloadOf(MoveBytes(mem, f.off, n.off, n.used), b) == PayloadOf(mem, b)
  {
    var mem' := MoveBytes(mem, f.off, n.off, n.used);
    assert PayloadOf(mem', Moved(f, n)) == mem'[f.off + BLOCK..f.off + n.used] == mem[n.off + BLOCK..n.off + n.used];
  }

  /** A block outside the target area is where it was. */
  lemma SlideFrame(mem: seq<Byte>, f: Blk, n: Blk, bs: seq<Blk>, lo: nat, hi: nat)
    requires Sound(n) && !n.free && f.off + f.size == n.off && n.off + n.size <= |mem|
    requires Tiles(bs, lo, hi) && hi <= |mem| && (hi <= f.off || f.off + n.used <= lo)
    ensures Payloads(MoveBytes(mem, f.off, n.off, n.used), bs) == Payloads(mem, bs)
  {
    TilesRange(bs, lo, hi);
    var mem' := MoveBytes(mem, f.off, n.off, n.used);
    hide Tiles, MoveBytes, Payloads;
    forall b | b in bs && !b.free ensures PayloadOf(mem', b) == PayloadOf(mem, b) {
      MoveBytesEffect(mem, f, n, b);
    }
    PayloadsFrame(mem, mem', bs);
  }

  /** Sliding a block over the free block before it keeps what every allocated block holds. */
  lemma SlidePayloads(mem: seq<Byte>, pre: seq<Blk>, tail: seq<Blk>, lo: nat, hi: nat)
    requires Tiles(pre, lo, End(pre, lo)) && Tiles(tail, End(pre, lo), hi) && hi <= |mem|
    requires |tail| >= 2 && tail[0].free && Sound(tail[1]) && !tail[1].free
    ensures tail[1].off + tail[1].used <= |mem| && tail[0].off <= tail[1].off
    ensures var mem' := MoveBytes(mem, tail[0].off, tail[1].off, tail[1].used);
            |mem'| == |mem| &&
            Payloads(mem', pre + [Moved(tail[0], tail[1])] + Slide(tail)) == Payloads(mem, pre + tail)
  {
    var f, n, rest := tail[0], tail[1], tail[1..][1..];
    assert n == tail[1..][0];
    assert f.off == End(pre, lo) && n.off == f.off + f.size;
    assert Tiles(rest, n.off + n.size, hi);
    assert n.off + n.size <= hi by { TilesRange(rest, n.off + n.size, hi); }
    hide Tiles, Slide, Payloads;
    SlideFrame(mem, f, n, pre, lo, f.off);
    SlideFrame(mem, f, n, rest, n.off + n.size, hi);
    MoveBytesEffect(mem, f, n, n);
    SlidePayloadsSplit(mem, MoveBytes(mem, f.off, n.off, n.used), pre, f, n, rest, tail);
  }

  lemma SlidePayloadsSplit(mem: seq<Byte>, mem': seq<Byte>, pre: seq<Blk>, f: Blk, n: Blk, rest: seq<Blk>,
                           tail: seq<Blk>)
    requires |tail| >= 2 && f == tail[0] && n == tail[1] && rest == tail[1..][1..] && f.free && !n.free
    requires n.used <= n.size
    requires Payloads(mem', pre) == Payloads(mem, pre) && Payloads(mem', rest) == Payloads(mem, rest)
    requires PayloadOf(mem', Moved(f, n)) == PayloadOf(mem, n)
    ensures Payloads(mem', pre + [Moved(f, n)] + Slide(tail)) == Payloads(mem, pre + tail)
  {
    var mv, xs := Moved(f, n), Slide(tail);
    assert Payloads(mem', xs) == Payloads(mem, rest) by {
    }
    assert tail == [f] + ([n] + rest);
    hide Slide, Payloads, PayloadOf;
    Assoc(pre, [mv], xs);
    PayloadsConcat(mem', pre, [mv] + xs);
    PayloadsConcat(mem, pre, tail);
  }
}
