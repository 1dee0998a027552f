/** A value in the cache from end to end: it is persisted, its image is stored in the shared memory, moved
    around there by any number of defragmentations, read from there, and unpersisted. */
module Lifecycle {
  import opened Basics
  import opened Blocks
  import opened Cache
  import opened CopyPass
  import opened Effects
  import opened Entries
  import opened Graph
  import opened Imprint
  import opened Isomorphism
  import opened Owner
  import opened Persist
  import SharedMemory
  import opened Unpersist
  import RoundTrip

  /** What the structures of an image look like as n bytes is the compiler's business; bytes tells that, if n
      bytes are enough for it, and parse is its inverse. */
  ghost predicate Layouts(bytes: (IVal, Image, nat) -> Option<seq<Byte>>, parse: seq<Byte> -> (IVal, Image)) {
    forall v, image, n :: bytes(v, image, n).Some? ==>
      |bytes(v, image, n).value| == n && parse(bytes(v, image, n).value) == (v, image)
  }

  /** A name for a reference that nobody holds. */
  method Unused(rec: Records) returns (h: nat)
    ensures forall o :: o in rec ==> h !in rec[o].holders
  {
    var all := set o, g | o in rec && g in rec[o].holders :: g;
    var rest := all;
    h := 0;
    while rest != {}
      invariant rest <= all && forall g :: g in all && g !in rest ==> g < h
    {
      var g :| g in rest;
      h := if g >= h then g + 1 else h;
      rest := rest - {g};
    }
    forall o | o in rec ensures h !in rec[o].holders {
      assert forall g :: g in rec[o].holders ==> g in all;
    }
  }

  /** Any number of defragmentations. */
  method DefragmentTimes(c: Cache, k: string, nows: seq<int>)
    requires c.Valid() && k in c.at && c.at[k] in c.rec
    modifies c, c.sma
    ensures c.Valid() && k in c.at && c.at[k] in c.rec && c.rec[c.at[k]] == old(c.rec[c.at[k]]) && c.last == old(c.last)
  {
    hide SharedMemory.Sma.Valid, Consistent, Recorded, Owned, Imprinted, Upheld, SameRecords, Idle, Holdings;
    for i := 0 to |nows|
      invariant c.Valid() && k in c.at && c.at[k] in c.rec && c.rec[c.at[k]] == old(c.rec[c.at[k]])
      invariant c.last == old(c.last)
    {
      c.Defragment(nows[i]);
    }
  }

  /** What is fetched at time t' is isomorphic to what was stored at time t, if it was stored. */
  method StoreDefragmentFetch(c: Cache, heap: Heap, v: Val, k: string, ttl: int, t: int, now: int, rivals: seq<nat>,
                              granted: bool, locked: bool, nows: seq<int>, t': int,
                              bytes: (IVal, Image, nat) -> Option<seq<Byte>>, parse: seq<Byte> -> (IVal, Image))
    returns (stored: bool, fetched: bool, v': Val, heap': Heap, ghost f: map<Addr, Addr>)
    requires c.Valid() && Closed(heap) && Points(heap, v) && (v.At? ==> !heap[v.a].Ref?) && Layouts(bytes, parse)
    modifies c, c.sma
    ensures c.Valid() && (stored ==> Visit(heap, v, {}).Done?)
    ensures fetched <==> stored && (ttl == 0 || t' <= t + ttl)
    ensures fetched ==> Isomorphic(heap, v, heap', v', f)
  {
    hide SharedMemory.Sma.Valid, Consistent, Recorded, Owned, Imprinted, Effects.Held, OthersKept, Visit, Closed,
      Points, Isomorphic, Readable, Reading, SoundVal;
    stored, fetched, v', heap', f := false, false, v, heap, map[];
    var r;
    ghost var f0;
    r, f0 := RoundTrip.Store(heap, |k|, v, false, None);
    if !r.Copied? {
      return;
    }
    var image := bytes(r.val, r.image, r.memSize - EntryBytes(|k|));
    if image.None? {
      return;
    }
    stored := c.Store(k, Image(image.value), ttl, r.memSize, false, t, now, 0, rivals, granted, locked);
    if !stored {
      return;
    }
    DefragmentTimes(c, k, nows);
    var h := Unused(c.rec);
    var found := c.Fetch(k, t', h);
    fetched := found.Some?;
    if fetched {
      var (val, stored') := parse(found.value.bytes);
      var refs;
      ghost var g, met;
      v', heap', refs, g, met := RoundTrip.Fetch(val, stored', r.memSize);
      IsomorphicTrans(heap, v, Reading(r.image), AsVal(r.val), heap', v', f0, g);
      f := Composed(f0, g);
    }
  }
}
