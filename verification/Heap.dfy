/**
 The headers of the segment of apc_sma.c, by offset: they describe the blocks that tile the
 segment between the two zero-size sentinels, and thread the free list through them. The class
 in Sma.dfy keeps them in a field; the facts its methods need are lemmas here.
 */
module Heap {
  import opened Blocks

  /** block_t. size_t offsets; 0 is never the offset of a block. */
  datatype Header = Header(size: nat, prevSize: nat, fnext: nat, fprev: nat)

  type Mem = map<nat, Header>

  predicate Describes(h: Header, b: Blk, tag: nat) {
    && h.size == b.size
    && h.prevSize == tag
    && (h.fnext != 0 <==> b.free)
    && (!b.free ==> h.fprev == b.used)
  }

  /** The blocks bs lie one after the other from lo on, as the headers in m say; tag is what the
      block before lo leaves. No two neighbours are both free. */
  ghost predicate Run(m: Mem, bs: seq<Blk>, lo: nat, tag: nat) {
    bs == [] ||
    (&& bs[0].off == lo && Sound(bs[0])
     && lo in m && Describes(m[lo], bs[0], tag)
     && !(tag != 0 && bs[0].free)
     && Run(m, bs[1..], lo + bs[0].size, Tag(bs[0])))
  }

  /** The zero-size block that ends the segment. */
  ghost predicate Sentinel(m: Mem, hi: nat, tag: nat) {
    hi in m && m[hi].size == 0 && m[hi].prevSize == tag && m[hi].fnext == 0
  }

  ghost predicate RunToEnd(m: Mem, bs: seq<Blk>, lo: nat, tag: nat, hi: nat) {
    Run(m, bs, lo, tag) && End(bs, lo) == hi && Sentinel(m, hi, TagAfter(bs, tag))
  }

  /** The offsets of the free blocks. */
  ghost function FreeOffs(bs: seq<Blk>): set<nat> {
    set b | b in bs && b.free :: b.off
  }

  // ------------------------------------------------------------------- concatenation

  lemma {:induction false} Concat(m: Mem, a: seq<Blk>, b: seq<Blk>, lo: nat, tag: nat)
    ensures Run(m, a + b, lo, tag) <==> Run(m, a, lo, tag) && Run(m, b, End(a, lo), TagAfter(a, tag))
    ensures End(a + b, lo) == End(b, End(a, lo))
    ensures TagAfter(a + b, tag) == TagAfter(b, TagAfter(a, tag))
  {
    if a == [] {
      assert a + b == b;
    } else {
      assert (a + b)[1..] == a[1..] + b && (a + b)[0] == a[0];
      Concat(m, a[1..], b, lo + a[0].size, Tag(a[0]));
    }
  }

  lemma {:induction false} RunRange(m: Mem, bs: seq<Blk>, lo: nat, tag: nat, b: Blk)
    requires Run(m, bs, lo, tag) && b in bs
    ensures lo <= b.off && b.off + b.size <= End(bs, lo) && Sound(b)
    ensures b.off in m && m[b.off].size == b.size && (m[b.off].fnext != 0 <==> b.free)
    ensures !b.free ==> m[b.off].fprev == b.used
  {
    if b != bs[0] {
      RunRange(m, bs[1..], lo + bs[0].size, Tag(bs[0]), b);
    } else {
      EndGrows(m, bs[1..], lo + bs[0].size, Tag(bs[0]));
    }
  }

  lemma {:induction false} EndGrows(m: Mem, bs: seq<Blk>, lo: nat, tag: nat)
    requires Run(m, bs, lo, tag)
    ensures End(bs, lo) >= lo && (bs != [] ==> End(bs, lo) > lo)
  {
    if bs != [] {
      EndGrows(m, bs[1..], lo + bs[0].size, Tag(bs[0]));
    }
  }

  /** Distinct blocks have distinct offsets. */
  lemma {:induction false} OffsetsDiffer(m: Mem, bs: seq<Blk>, lo: nat, tag: nat, b: Blk, c: Blk)
    requires Run(m, bs, lo, tag) && b in bs && c in bs && b.off == c.off
    ensures b == c
  {
    if b in bs[1..] {
      RunRange(m, bs[1..], lo + bs[0].size, Tag(bs[0]), b);
    }
    if c in bs[1..] {
      RunRange(m, bs[1..], lo + bs[0].size, Tag(bs[0]), c);
    }
    if b in bs[1..] && c in bs[1..] {
      OffsetsDiffer(m, bs[1..], lo + bs[0].size, Tag(bs[0]), b, c);
    }
  }

  // ------------------------------------------------------------------- frames

  /** h' may differ from h only in the list links, and is in the free list iff h is. */
  predicate SameBlock(h: Header, h': Header) {
    h.size == h'.size && h.prevSize == h'.prevSize && (h.fnext == 0 <==> h'.fnext == 0)
  }

  ghost predicate Agree(m: Mem, m': Mem, bs: seq<Blk>) {
    forall b :: b in bs && b.off in m ==>
      b.off in m' && SameBlock(m[b.off], m'[b.off]) && (!b.free ==> m'[b.off].fprev == m[b.off].fprev)
  }

  lemma {:induction false} RunFrame(m: Mem, m': Mem, bs: seq<Blk>, lo: nat, tag: nat)
    requires Run(m, bs, lo, tag) && Agree(m, m', bs)
    ensures Run(m', bs, lo, tag)
  {
    if bs != [] {
      assert bs[0] in bs && forall b :: b in bs[1..] ==> b in bs;
      RunFrame(m, m', bs[1..], lo + bs[0].size, Tag(bs[0]));
    }
  }

  /** Changing the back tag at lo, where the neighbour before lo has just changed. */
  lemma Retag(m: Mem, m': Mem, bs: seq<Blk>, lo: nat, tag: nat, tag': nat, hi: nat)
    requires RunToEnd(m, bs, lo, tag, hi)
    requires bs != [] && bs[0].free ==> tag' == 0
    requires lo in m && lo in m' && SameBlock(m[lo].(prevSize := tag'), m'[lo])
    requires bs != [] && !bs[0].free ==> m'[lo].fprev == m[lo].fprev
    requires forall b :: b in bs && b.off != lo && b.off in m ==>
      b.off in m' && SameBlock(m[b.off], m'[b.off]) && (!b.free ==> m'[b.off].fprev == m[b.off].fprev)
    requires hi != lo ==> hi in m' && SameBlock(m[hi], m'[hi])
    ensures RunToEnd(m', bs, lo, tag', hi)
  {
    if bs != [] {
      forall b | b in bs[1..] ensures b.off != lo {
        RunRange(m, bs[1..], lo + bs[0].size, Tag(bs[0]), b);
      }
      EndGrows(m, bs, lo, tag);
      RunFrame(m, m', bs[1..], lo + bs[0].size, Tag(bs[0]));
    }
  }

  // ------------------------------------------------------------------- the free list

  /** l is the doubly linked list through fnext and fprev, from the first sentinel to the last. */
  ghost predicate Linked(m: Mem, l: seq<nat>) {
    && |l| >= 2
    && (forall i :: 0 <= i < |l| ==> l[i] != 0 && l[i] in m)
    && (forall i, j :: 0 <= i < j < |l| ==> l[i] != l[j])
    && (forall i :: 0 <= i < |l| - 1 ==> m[l[i]].fnext == l[i + 1])
    && (forall i :: 0 < i < |l| ==> m[l[i]].fprev == l[i - 1])
    && m[l[|l| - 1]].fnext == 0
  }

  /** unlink_free_block */
  function Unlink(m: Mem, o: nat): Mem
    requires o in m && m[o].fprev in m && m[o].fnext in m
  {
    var m1 := m[m[o].fprev := m[m[o].fprev].(fnext := m[o].fnext)];
    m1[m1[o].fnext := m1[m1[o].fnext].(fprev := m1[o].fprev)]
  }

  /** link_free_block_at_start */
  function LinkAtStart(m: Mem, first: nat, o: nat): Mem
    requires o in m && first in m && m[first].fnext in m
  {
    var m1 := m[o := m[o].(fnext := m[first].fnext, fprev := first)];
    var m2 := m1[first := m1[first].(fnext := o)];
    m2[m2[o].fnext := m2[m2[o].fnext].(fprev := m2[first].fnext)]
  }

  /** m' differs from m only in the links of members of l. */
  ghost predicate OnlyLinks(m: Mem, m': Mem, l: set<nat>) {
    && m'.Keys == m.Keys
    && (forall o :: o in m && o !in l ==> m'[o] == m[o])
    && (forall o :: o in m && o in l ==> SameBlock(m[o], m'[o]))
  }

  lemma DropFromList(m: Mem, l: seq<nat>, k: nat, m': Mem)
    requires Linked(m, l) && 0 < k < |l| - 1
    requires m' == m[l[k - 1] := m[l[k - 1]].(fnext := l[k + 1])][l[k + 1] := m[l[k + 1]].(fprev := l[k - 1])]
    ensures Linked(m', l[..k] + l[k + 1..])
  {
    var l' := l[..k] + l[k + 1..];
    assert forall i :: 0 <= i < |l'| ==> l'[i] == l[if i < k then i else i + 1];
    forall i | 0 <= i < |l'| - 1
      ensures m'[l'[i]].fnext == l'[i + 1]
    {
      assert i < k ==> m[l[i]].fnext == l[i + 1];
      assert i >= k ==> m[l[i + 1]].fnext == l[i + 2];
    }
    forall i | 0 < i < |l'|
      ensures m'[l'[i]].fprev == l'[i - 1]
    {
      assert i < k ==> m[l[i]].fprev == l[i - 1];
      assert i >= k ==> m[l[i + 1]].fprev == l[i];
    }
  }

  lemma ListedAt(m: Mem, l: seq<nat>, i: nat)
    requires Linked(m, l) && 0 < i < |l| - 1
    ensures l[i] in m && m[l[i]].fprev in m && m[l[i]].fnext in m
  {
    assert m[l[i]].fprev == l[i - 1] && m[l[i]].fnext == l[i + 1];
  }

  lemma UnlinkKeepsList(m: Mem, l: seq<nat>, k: nat)
    requires Linked(m, l) && 0 < k < |l| - 1
    ensures m[l[k]].fprev in m && m[l[k]].fnext in m
    ensures Linked(Unlink(m, l[k]), l[..k] + l[k + 1..])
    ensures OnlyLinks(m, Unlink(m, l[k]), set o | o in l)
    ensures Unlink(m, l[k])[l[k]] == m[l[k]]
  {
    assert m[l[k]].fprev == l[k - 1] && m[l[k]].fnext == l[k + 1];
    assert l[k - 1] in m && l[k + 1] in m && l[k + 1] != 0;
    var m' := Unlink(m, l[k]);
    assert m' == m[l[k - 1] := m[l[k - 1]].(fnext := l[k + 1])][l[k + 1] := m[l[k + 1]].(fprev := l[k - 1])];
    assert m[l[k - 1]].fnext == l[k];
    DropFromList(m, l, k, m');
    hide Linked, Unlink;
  }

  lemma LinkKeepsList(m: Mem, l: seq<nat>, o: nat)
    requires Linked(m, l) && o != 0 && o in m && o !in l
    ensures m[l[0]].fnext in m
    ensures Linked(LinkAtStart(m, l[0], o), [l[0], o] + l[1..])
    ensures OnlyLinks(m[o := LinkAtStart(m, l[0], o)[o]], LinkAtStart(m, l[0], o), set x | x in l)
    ensures var h := LinkAtStart(m, l[0], o)[o]; h.size == m[o].size && h.prevSize == m[o].prevSize && h.fnext != 0
  {
    assert m[l[0]].fnext == l[1] && l[1] in m;
    var m' := LinkAtStart(m, l[0], o);
    var m1 := m[o := m[o].(fnext := l[1], fprev := l[0])][l[0] := m[l[0]].(fnext := o)];
    assert m' == m1[l[1] := m1[l[1]].(fprev := o)];
    var l' := [l[0], o] + l[1..];
    forall i | 2 <= i < |l'|
      ensures l'[i] == l[i - 1]
    {
    }
  }

  lemma LinkedFrame(m: Mem, m': Mem, l: seq<nat>)
    requires Linked(m, l)
    requires forall o :: o in l && o in m ==> o in m' && m'[o].fnext == m[o].fnext && m'[o].fprev == m[o].fprev
    ensures Linked(m', l)
  {
    assert forall i :: 0 <= i < |l| ==> l[i] in l && l[i] in m;
  }

  /** fl is the free list between the sentinels and holds exactly the offsets fs. */
  ghost predicate FreeList(m: Mem, fs: set<nat>, fl: seq<nat>, first: nat, hi: nat) {
    Linked(m, [first] + fl + [hi]) && forall o :: o in fl <==> o in fs
  }

  function Drop(fl: seq<nat>, k: nat): seq<nat>
    requires k < |fl|
  {
    fl[..k] + fl[k + 1..]
  }

  lemma ListDistinct(m: Mem, fl: seq<nat>, first: nat, hi: nat)
    requires Linked(m, [first] + fl + [hi])
    ensures forall i, j :: 0 <= i < j < |fl| ==> fl[i] != fl[j]
    ensures first !in fl && hi !in fl && first != hi && first != 0
  {
    var l := [first] + fl + [hi];
    assert l[0] == first && l[|fl| + 1] == hi && forall i :: 0 <= i < |fl| ==> l[i + 1] == fl[i];
  }

  lemma Without(fl: seq<nat>, k: nat)
    requires k < |fl| && forall i, j :: 0 <= i < j < |fl| ==> fl[i] != fl[j]
    ensures forall o :: o in Drop(fl, k) <==> o in fl && o != fl[k]
  {
    forall o | o in fl && o != fl[k] ensures o in Drop(fl, k) {
      var i :| 0 <= i < |fl| && fl[i] == o;
      assert if i < k then fl[..k][i] == o else fl[k + 1..][i - k - 1] == o;
    }
  }

  lemma ListElements(fs: set<nat>, fl: seq<nat>, first: nat, hi: nat)
    requires forall o :: o in fl <==> o in fs
    ensures (set o | o in [first] + fl + [hi]) == fs + {first, hi}
  {
  }

  lemma UnlinkFree(m: Mem, fs: set<nat>, fl: seq<nat>, k: nat, first: nat, hi: nat)
    requires FreeList(m, fs, fl, first, hi) && k < |fl|
    ensures fl[k] in m && m[fl[k]].fprev in m && m[fl[k]].fnext in m
    ensures FreeList(Unlink(m, fl[k]), fs - {fl[k]}, Drop(fl, k), first, hi)
    ensures OnlyLinks(m, Unlink(m, fl[k]), fs + {first, hi})
    ensures Unlink(m, fl[k])[fl[k]] == m[fl[k]]
  {
    hide Linked, Unlink;
    var l := [first] + fl + [hi];
    assert l[k + 1] == fl[k];
    ListedAt(m, l, k + 1);
    ListDistinct(m, fl, first, hi);
    UnlinkKeepsList(m, l, k + 1);
    ListElements(fs, fl, first, hi);
    assert l[..k + 1] + l[k + 2..] == [first] + Drop(fl, k) + [hi];
    Without(fl, k);
  }

  lemma LinkFree(m: Mem, fs: set<nat>, fl: seq<nat>, o: nat, first: nat, hi: nat)
    requires FreeList(m, fs, fl, first, hi) && o in m && o != 0 && o !in [first] + fl + [hi]
    ensures first in m && m[first].fnext in m
    ensures var m' := LinkAtStart(m, first, o);
            && FreeList(m', fs + {o}, [o] + fl, first, hi)
            && o in m' && OnlyLinks(m[o := m'[o]], m', fs + {first, hi})
            && m'[o].size == m[o].size && m'[o].prevSize == m[o].prevSize && m'[o].fnext != 0
  {
    var l := [first] + fl + [hi];
    assert l[0] == first;
    LinkKeepsList(m, l, o);
    assert (set x | x in l) == fs + {first, hi};
    hide Linked, LinkAtStart;
    assert [first, o] + l[1..] == [first] + ([o] + fl) + [hi];
  }

  // ------------------------------------------------------------------- the whole heap

  /** The heap invariant: bs tiles the segment between the sentinels, and fl lists exactly its
      free blocks. */
  ghost predicate HeapOk(m: Mem, bs: seq<Blk>, fl: seq<nat>, first: nat, hi: nat) {
    RunToEnd(m, bs, first + BLOCK, 0, hi) && FreeList(m, FreeOffs(bs), fl, first, hi)
  }

  /** Looking at one block of a tiling: what lies before it, at it and after it. */
  lemma Focus(m: Mem, pre: seq<Blk>, b: Blk, post: seq<Blk>, lo: nat, hi: nat)
    requires RunToEnd(m, pre + [b] + post, lo, 0, hi)
    ensures Run(m, pre, lo, 0) && End(pre, lo) == b.off
    ensures b.off in m && Describes(m[b.off], b, TagAfter(pre, 0)) && Sound(b)
    ensures !(TagAfter(pre, 0) != 0 && b.free)
    ensures RunToEnd(m, post, b.off + b.size, Tag(b), hi)
    ensures b.off + b.size in m
  {
    assert pre + [b] + post == pre + ([b] + post);
    Concat(m, pre, [b] + post, lo, 0);
    FocusFirst(m, b, post, End(pre, lo), TagAfter(pre, 0), hi);
    hide Run, End, RunToEnd, TagAfter;
  }

  lemma FocusFirst(m: Mem, b: Blk, post: seq<Blk>, at: nat, tag: nat, hi: nat)
    requires RunToEnd(m, [b] + post, at, tag, hi)
    ensures at == b.off && b.off in m && Describes(m[b.off], b, tag) && Sound(b) && !(tag != 0 && b.free)
    ensures RunToEnd(m, post, b.off + b.size, Tag(b), hi) && b.off + b.size in m
  {
    assert ([b] + post)[1..] == post && ([b] + post)[0] == b;
  }

  lemma Assemble(m: Mem, pre: seq<Blk>, mid: seq<Blk>, post: seq<Blk>, lo: nat, hi: nat)
    requires Run(m, pre, lo, 0)
    requires Run(m, mid, End(pre, lo), TagAfter(pre, 0))
    requires RunToEnd(m, post, End(mid, End(pre, lo)), TagAfter(mid, TagAfter(pre, 0)), hi)
    ensures RunToEnd(m, pre + mid + post, lo, 0, hi)
  {
    Concat(m, pre, mid, lo, 0);
    Concat(m, pre + mid, post, lo, 0);
  }

  // ------------------------------------------------------------------- one block in hand

  /** Block c is in hand: it lies between pre and post and is not in the free list, and its
      successor still carries some earlier tag. Allocation takes a block in hand and settles
      it as used, deallocation widens the block in hand and settles it as free. */
  ghost predicate Gap(m: Mem, pre: seq<Blk>, c: Blk, post: seq<Blk>, tag: nat, lo: nat, hi: nat) {
    && Run(m, pre, lo, 0) && End(pre, lo) == c.off
    && c.off in m && m[c.off].size == c.size && m[c.off].prevSize == TagAfter(pre, 0) && BLOCK <= c.size
    && c.off + c.size in m && RunToEnd(m, post, c.off + c.size, tag, hi)
  }

  ghost predicate InHand(m: Mem, pre: seq<Blk>, c: Blk, post: seq<Blk>, tag: nat, fl: seq<nat>, first: nat, hi: nat) {
    Gap(m, pre, c, post, tag, first + BLOCK, hi) && FreeList(m, FreeOffs(pre) + FreeOffs(post), fl, first, hi)
  }

  lemma Around(m: Mem, pre: seq<Blk>, c: Blk, post: seq<Blk>, tag: nat, lo: nat, hi: nat)
    requires Gap(m, pre, c, post, tag, lo, hi)
    ensures lo <= c.off && c.off + c.size <= hi
    ensures forall b :: b in pre ==> lo <= b.off && b.off + b.size <= c.off && BLOCK <= b.size
    ensures forall b :: b in post ==> c.off + c.size <= b.off && b.off + b.size <= hi && BLOCK <= b.size
  {
    EndGrows(m, pre, lo, 0);
    EndGrows(m, post, c.off + c.size, tag);
    forall b | b in pre ensures lo <= b.off && b.off + b.size <= c.off && BLOCK <= b.size {
      RunRange(m, pre, lo, 0, b);
    }
    forall b | b in post ensures c.off + c.size <= b.off && b.off + b.size <= hi && BLOCK <= b.size {
      RunRange(m, post, c.off + c.size, tag, b);
    }
  }

  /** Nothing in the free list lies inside the block in hand. */
  lemma GapUnlisted(m: Mem, pre: seq<Blk>, c: Blk, post: seq<Blk>, tag: nat, fs: set<nat>, fl: seq<nat>, first: nat,
                    hi: nat, o: nat)
    requires Gap(m, pre, c, post, tag, first + BLOCK, hi) && c.off <= o < c.off + c.size
    requires FreeList(m, fs, fl, first, hi) && fs <= FreeOffs(pre) + FreeOffs(post)
    ensures o !in [first] + fl + [hi] && o != 0
  {
    Around(m, pre, c, post, tag, first + BLOCK, hi);
  }

  lemma InHandUnlisted(m: Mem, pre: seq<Blk>, c: Blk, post: seq<Blk>, tag: nat, fl: seq<nat>, first: nat, hi: nat,
                       o: nat)
    requires InHand(m, pre, c, post, tag, fl, first, hi) && c.off <= o < c.off + c.size
    ensures o !in [first] + fl + [hi] && o != 0
  {
    GapUnlisted(m, pre, c, post, tag, FreeOffs(pre) + FreeOffs(post), fl, first, hi, o);
  }

  /** Neither do allocated blocks. */
  lemma UsedIsUnlisted(m: Mem, pre: seq<Blk>, c: Blk, post: seq<Blk>, tag: nat, lo: nat, hi: nat, b: Blk)
    requires Gap(m, pre, c, post, tag, lo, hi) && (b in pre || b in post) && !b.free
    ensures b.off !in FreeOffs(pre) + FreeOffs(post) + {c.off, hi}
  {
    Around(m, pre, c, post, tag, lo, hi);
    if d :| d in pre && d.free && d.off == b.off {
      OffsetsDiffer(m, pre, lo, 0, b, d);
    }
    if d :| d in post && d.free && d.off == b.off {
      OffsetsDiffer(m, post, c.off + c.size, tag, b, d);
    }
  }

  /** When only links change, everything around the block in hand stays as it is. */
  lemma GapLinks(m: Mem, m': Mem, pre: seq<Blk>, c: Blk, post: seq<Blk>, tag: nat, fs: set<nat>, first: nat, hi: nat)
    requires Gap(m, pre, c, post, tag, first + BLOCK, hi) && m.Keys == m'.Keys && m'[c.off] == m[c.off]
    requires fs <= FreeOffs(pre) + FreeOffs(post) + {c.off} && OnlyLinks(m, m', fs + {first, hi})
    ensures Gap(m', pre, c, post, tag, first + BLOCK, hi)
  {
    Around(m, pre, c, post, tag, first + BLOCK, hi);
    forall b | (b in pre || b in post) && b.off in m
      ensures SameBlock(m[b.off], m'[b.off]) && (!b.free ==> m'[b.off].fprev == m[b.off].fprev)
    {
      if !b.free {
        UsedIsUnlisted(m, pre, c, post, tag, first + BLOCK, hi, b);
      }
    }
    hide OnlyLinks;
    RunFrame(m, m', pre, first + BLOCK, 0);
    RunFrame(m, m', post, c.off + c.size, tag);
  }

  /** Headers inside the gap between pre and post do not matter to either. */
  lemma GapFrame(m: Mem, m': Mem, pre: seq<Blk>, post: seq<Blk>, lo: nat, x: nat, y: nat, tag: nat, hi: nat)
    requires Run(m, pre, lo, 0) && End(pre, lo) == x <= y && RunToEnd(m, post, y, tag, hi)
    requires forall o :: o in m && (o < x || y <= o) ==> o in m' && m'[o] == m[o]
    ensures Run(m', pre, lo, 0) && RunToEnd(m', post, y, tag, hi)
  {
    forall b | b in pre ensures b.off < x { RunRange(m, pre, lo, 0, b); }
    forall b | b in post ensures y <= b.off { RunRange(m, post, y, tag, b); }
    EndGrows(m, post, y, tag);
    RunFrame(m, m', pre, lo, 0);
    RunFrame(m, m', post, y, tag);
  }

  // ---- taking a block in hand

  lemma Hold(m: Mem, pre: seq<Blk>, b: Blk, post: seq<Blk>, lo: nat, hi: nat)
    requires RunToEnd(m, pre + [b] + post, lo, 0, hi)
    ensures Gap(m, pre, b, post, Tag(b), lo, hi)
    ensures FreeOffs(pre + [b] + post) == FreeOffs(pre) + FreeOffs(post) + if b.free then {b.off} else {}
    ensures b.off !in FreeOffs(pre) + FreeOffs(post)
    ensures b.free ==> TagAfter(pre, 0) == 0 && (post != [] ==> !post[0].free)
  {
    Focus(m, pre, b, post, lo, hi);
    Around(m, pre, b, post, Tag(b), lo, hi);
  }

  /** An allocated block can be taken in hand as it is. */
  lemma HoldUsed(m: Mem, pre: seq<Blk>, b: Blk, post: seq<Blk>, fl: seq<nat>, first: nat, hi: nat)
    requires HeapOk(m, pre + [b] + post, fl, first, hi) && !b.free
    ensures InHand(m, pre, b, post, 0, fl, first, hi)
  {
    Hold(m, pre, b, post, first + BLOCK, hi);
  }

  /** A free block is taken in hand by unlinking it. */
  lemma HoldFree(m: Mem, pre: seq<Blk>, b: Blk, post: seq<Blk>, fl: seq<nat>, k: nat, first: nat, hi: nat)
    requires HeapOk(m, pre + [b] + post, fl, first, hi) && b.free && k < |fl| && fl[k] == b.off
    ensures b.off in m && m[b.off].fprev in m && m[b.off].fnext in m && m[b.off].size == b.size
    ensures Unlink(m, b.off).Keys == m.Keys && Unlink(m, b.off)[b.off] == m[b.off]
    ensures InHand(Unlink(m, b.off), pre, b, post, b.size, Drop(fl, k), first, hi)
    ensures TagAfter(pre, 0) == 0 && (post != [] ==> !post[0].free)
  {
    Hold(m, pre, b, post, first + BLOCK, hi);
    var fs := FreeOffs(pre + [b] + post);
    UnlinkFree(m, fs, fl, k, first, hi);
    hide Unlink, Gap;
    GapLinks(m, Unlink(m, b.off), pre, b, post, b.size, fs, first, hi);
    hide OnlyLinks;
    assert fs - {b.off} == FreeOffs(pre) + FreeOffs(post);
  }

  // ---- widening it

  lemma GapJoinLeft(m: Mem, pre: seq<Blk>, p: Blk, c: Blk, post: seq<Blk>, tag: nat, lo: nat, hi: nat)
    requires Gap(m, pre + [p], c, post, tag, lo, hi) && p.free
    ensures p.off in m && m[p.off].size == p.size && m[c.off].prevSize == p.size && p.off + p.size == c.off
    ensures Gap(m[p.off := m[p.off].(size := p.size + c.size)], pre, Free(p.off, p.size + c.size), post, tag, lo, hi)
    ensures TagAfter(pre, 0) == 0
  {
    Concat(m, pre, [p], lo, 0);
    var m' := m[p.off := m[p.off].(size := p.size + c.size)];
    GapFrame(m, m', pre, post, lo, p.off, c.off + c.size, tag, hi);
  }

  lemma GapJoinLeftOffs(m: Mem, pre: seq<Blk>, p: Blk, c: Blk, post: seq<Blk>, tag: nat, lo: nat, hi: nat)
    requires Gap(m, pre + [p], c, post, tag, lo, hi) && p.free
    ensures FreeOffs(pre + [p]) + FreeOffs(post) - {p.off} == FreeOffs(pre) + FreeOffs(post)
  {
    Around(m, pre + [p], c, post, tag, lo, hi);
    assert pre + [p] + [] == pre + [p] && p in pre + [p];
    Concat(m, pre, [p], lo, 0);
    EndGrows(m, pre, lo, 0);
    forall b | b in pre ensures b.off < p.off { RunRange(m, pre, lo, 0, b); }
  }

  /** The block before the one in hand is free, so it is unlinked and the two are joined. */
  lemma JoinLeft(m: Mem, pre: seq<Blk>, p: Blk, c: Blk, post: seq<Blk>, tag: nat, fl: seq<nat>, k: nat, first: nat,
                 hi: nat)
    requires InHand(m, pre + [p], c, post, tag, fl, first, hi) && p.free && k < |fl| && fl[k] == p.off
    ensures c.off in m && m[c.off].prevSize == p.size && p.off + p.size == c.off
    ensures p.off in m && m[p.off].fprev in m && m[p.off].fnext in m
    ensures var m1 := Unlink(m, p.off);
            && p.off in m1 && c.off in m1 && m1[c.off] == m[c.off] && m1[p.off].size == p.size
            && InHand(m1[p.off := m1[p.off].(size := p.size + c.size)],
                      pre, Free(p.off, p.size + c.size), post, tag, Drop(fl, k), first, hi)
            && TagAfter(pre, 0) == 0
  {
    var fs := FreeOffs(pre + [p]) + FreeOffs(post);
    UnlinkFree(m, fs, fl, k, first, hi);
    InHandUnlisted(m, pre + [p], c, post, tag, fl, first, hi, c.off);
    hide Unlink, Drop, Linked;
    var m1 := Unlink(m, p.off);
    GapLinks(m, m1, pre + [p], c, post, tag, fs, first, hi);
    GapJoinLeftOffs(m, pre, p, c, post, tag, first + BLOCK, hi);
    hide OnlyLinks, FreeOffs;
    GapJoinLeft(m, pre, p, c, post, tag, first + BLOCK, hi);
    GapJoinLeft(m1, pre, p, c, post, tag, first + BLOCK, hi);
    hide Gap;
    LinkedFrame(m1, m1[p.off := m1[p.off].(size := p.size + c.size)], [first] + Drop(fl, k) + [hi]);
  }

  lemma GapJoinRight(m: Mem, pre: seq<Blk>, c: Blk, n: Blk, post: seq<Blk>, tag: nat, lo: nat, hi: nat)
    requires Gap(m, pre, c, [n] + post, tag, lo, hi) && n.free
    ensures n.off == c.off + c.size && n.off in m && m[n.off].size == n.size && c.off in m && n.off + n.size in m
    ensures Gap(m[c.off := m[c.off].(size := c.size + n.size)], pre, Free(c.off, c.size + n.size), post, n.size, lo, hi)
    ensures post != [] ==> !post[0].free
    ensures FreeOffs(pre) + FreeOffs([n] + post) - {n.off} == FreeOffs(pre) + FreeOffs(post)
  {
    Around(m, pre, c, [n] + post, tag, lo, hi);
    assert ([n] + post)[1..] == post && ([n] + post)[0] == n;
    var m' := m[c.off := m[c.off].(size := c.size + n.size)];
    GapFrame(m, m', pre, post, lo, c.off, n.off + n.size, n.size, hi);
    assert [] + [n] + post == [n] + post && n in [n] + post;
    forall b | b in post ensures n.off < b.off { RunRange(m, post, n.off + n.size, n.size, b); }
  }

  /** The block after the one in hand is free, so it is unlinked and the two are joined. */
  lemma JoinRight(m: Mem, pre: seq<Blk>, c: Blk, n: Blk, post: seq<Blk>, tag: nat, fl: seq<nat>, k: nat, first: nat,
                  hi: nat)
    requires InHand(m, pre, c, [n] + post, tag, fl, first, hi) && n.free && k < |fl| && fl[k] == n.off
    ensures n.off == c.off + c.size && n.off in m && m[n.off].size == n.size && n.off + n.size in m
    ensures m[n.off].fprev in m && m[n.off].fnext in m
    ensures post != [] ==> !post[0].free
    ensures var m1 := Unlink(m, n.off);
            && n.off in m1 && c.off in m1 && m1[n.off] == m[n.off] && m1[c.off] == m[c.off] && n.off + n.size in m1
            && InHand(m1[c.off := m1[c.off].(size := c.size + n.size)],
                      pre, Free(c.off, c.size + n.size), post, n.size, Drop(fl, k), first, hi)
  {
    var fs := FreeOffs(pre) + FreeOffs([n] + post);
    UnlinkFree(m, fs, fl, k, first, hi);
    InHandUnlisted(m, pre, c, [n] + post, tag, fl, first, hi, c.off);
    hide Unlink, Drop, Linked;
    var m1 := Unlink(m, n.off);
    GapLinks(m, m1, pre, c, [n] + post, tag, fs, first, hi);
    hide OnlyLinks, FreeOffs;
    GapJoinRight(m, pre, c, n, post, tag, first + BLOCK, hi);
    GapJoinRight(m1, pre, c, n, post, tag, first + BLOCK, hi);
    hide Gap;
    LinkedFrame(m1, m1[c.off := m1[c.off].(size := c.size + n.size)], [first] + Drop(fl, k) + [hi]);
  }

  // ---- settling it

  /** The tag in the successor of the block in hand is corrected. */
  lemma GapRetag(m: Mem, pre: seq<Blk>, c: Blk, post: seq<Blk>, tag: nat, tag': nat, lo: nat, hi: nat)
    requires Gap(m, pre, c, post, tag, lo, hi) && (post != [] && post[0].free ==> tag' == 0)
    ensures Gap(m[c.off + c.size := m[c.off + c.size].(prevSize := tag')], pre, c, post, tag', lo, hi)
  {
    var nx := c.off + c.size;
    var m' := m[nx := m[nx].(prevSize := tag')];
    Around(m, pre, c, post, tag, lo, hi);
    RunFrame(m, m', pre, lo, 0);
    Retag(m, m', post, nx, tag, tag', hi);
  }

  lemma GapClose(m: Mem, pre: seq<Blk>, c: Blk, post: seq<Blk>, lo: nat, hi: nat)
    requires Gap(m, pre, c, post, Tag(c), lo, hi) && Sound(c) && Describes(m[c.off], c, TagAfter(pre, 0))
    requires !(TagAfter(pre, 0) != 0 && c.free)
    ensures RunToEnd(m, pre + [c] + post, lo, 0, hi)
  {
    Assemble(m, pre, [c], post, lo, hi);
  }

  /** The block in hand is put at the head of the free list, which holds the free blocks around
      it or some of them. */
  lemma SettleFree(m: Mem, pre: seq<Blk>, c: Blk, post: seq<Blk>, tag: nat, fs: set<nat>, fl: seq<nat>, first: nat,
                   hi: nat)
    requires Gap(m, pre, c, post, tag, first + BLOCK, hi)
    requires FreeList(m, fs, fl, first, hi) && fs <= FreeOffs(pre) + FreeOffs(post)
    requires TagAfter(pre, 0) == 0 && (post != [] ==> !post[0].free)
    ensures c.off in m && c.off + c.size in m && first in m
    ensures var m1 := m[c.off + c.size := m[c.off + c.size].(prevSize := c.size)];
            && first in m1 && m1[first].fnext in m1
            && RunToEnd(LinkAtStart(m1, first, c.off), pre + [Free(c.off, c.size)] + post, first + BLOCK, 0, hi)
            && FreeList(LinkAtStart(m1, first, c.off), fs + {c.off}, [c.off] + fl, first, hi)
  {
    var m1 := m[c.off + c.size := m[c.off + c.size].(prevSize := c.size)];
    GapUnlisted(m, pre, c, post, tag, fs, fl, first, hi, c.off);
    GapRetag(m, pre, c, post, tag, c.size, first + BLOCK, hi);
    LinkedFrame(m, m1, [first] + fl + [hi]);
    LinkFree(m1, fs, fl, c.off, first, hi);
    var m' := LinkAtStart(m1, first, c.off);
    hide LinkAtStart, Linked;
    SettleFreeBlocks(m1, m', pre, c, post, fs, first, hi);
  }

  lemma SettleFreeBlocks(m1: Mem, m': Mem, pre: seq<Blk>, c: Blk, post: seq<Blk>, fs: set<nat>, first: nat, hi: nat)
    requires Gap(m1, pre, c, post, c.size, first + BLOCK, hi) && TagAfter(pre, 0) == 0
    requires c.off in m' && OnlyLinks(m1[c.off := m'[c.off]], m', fs + {first, hi})
    requires fs <= FreeOffs(pre) + FreeOffs(post)
    requires m'[c.off].size == m1[c.off].size && m'[c.off].prevSize == m1[c.off].prevSize && m'[c.off].fnext != 0
    ensures RunToEnd(m', pre + [Free(c.off, c.size)] + post, first + BLOCK, 0, hi)
  {
    var m2 := m1[c.off := m'[c.off]];
    var f := Free(c.off, c.size);
    GapFrame(m1, m2, pre, post, first + BLOCK, c.off, c.off + c.size, c.size, hi);
    GapLinks(m2, m', pre, f, post, c.size, fs, first, hi);
    GapClose(m', pre, f, post, first + BLOCK, hi);
  }

  /** The block in hand is marked allocated, with r bytes of it used. */
  lemma SettleUsed(m: Mem, pre: seq<Blk>, c: Blk, post: seq<Blk>, tag: nat, fl: seq<nat>, r: nat, first: nat, hi: nat)
    requires InHand(m, pre, c, post, tag, fl, first, hi) && BLOCK <= r <= c.size
    ensures c.off in m && c.off + c.size in m
    ensures var m1 := m[c.off + c.size := m[c.off + c.size].(prevSize := 0)];
            HeapOk(m1[c.off := m1[c.off].(fnext := 0, fprev := r)], pre + [Blk(c.off, c.size, false, r)] + post, fl,
              first, hi)
  {
    var m1 := m[c.off + c.size := m[c.off + c.size].(prevSize := 0)];
    var m' := m1[c.off := m1[c.off].(fnext := 0, fprev := r)];
    var u := Blk(c.off, c.size, false, r);
    InHandUnlisted(m, pre, c, post, tag, fl, first, hi, c.off);
    LinkedFrame(m, m', [first] + fl + [hi]);
    hide Linked;
    GapRetag(m, pre, c, post, tag, 0, first + BLOCK, hi);
    GapFrame(m1, m', pre, post, first + BLOCK, c.off, c.off + c.size, 0, hi);
    GapClose(m', pre, u, post, first + BLOCK, hi);
  }

  /** The first r bytes of the block in hand are marked allocated; the rest stays in hand. */
  lemma SplitOff(m: Mem, pre: seq<Blk>, c: Blk, post: seq<Blk>, tag: nat, fl: seq<nat>, r: nat, first: nat, hi: nat)
    requires InHand(m, pre, c, post, tag, fl, first, hi) && BLOCK <= r && r + BLOCK <= c.size
    ensures c.off in m
    ensures var u := Blk(c.off, r, false, r);
            var m1 := m[c.off := m[c.off].(size := r, fnext := 0, fprev := r)];
            InHand(m1[c.off + r := Header(c.size - r, 0, 0, 0)], pre + [u], Free(c.off + r, c.size - r), post, tag, fl,
              first, hi)
    ensures TagAfter(pre + [Blk(c.off, r, false, r)], 0) == 0
  {
    hide FreeOffs, RunToEnd, Linked;
    var u := Blk(c.off, r, false, r);
    var m1 := m[c.off := m[c.off].(size := r, fnext := 0, fprev := r)];
    var m' := m1[c.off + r := Header(c.size - r, 0, 0, 0)];
    InHandUnlisted(m, pre, c, post, tag, fl, first, hi, c.off);
    InHandUnlisted(m, pre, c, post, tag, fl, first, hi, c.off + r);
    LinkedFrame(m, m', [first] + fl + [hi]);
    GapFrame(m, m', pre, post, first + BLOCK, c.off, c.off + c.size, tag, hi);
    Concat(m', pre, [u], first + BLOCK, 0);
    UsedListsNothing(pre, u);
  }

  lemma UsedListsNothing(pre: seq<Blk>, u: Blk)
    requires !u.free
    ensures FreeOffs(pre + [u]) == FreeOffs(pre)
  {
  }

  /** Settling the block in hand as free restores the heap invariant. */
  lemma SettleFreeHeap(m: Mem, pre: seq<Blk>, c: Blk, post: seq<Blk>, tag: nat, fl: seq<nat>, first: nat, hi: nat)
    requires InHand(m, pre, c, post, tag, fl, first, hi)
    requires TagAfter(pre, 0) == 0 && (post != [] ==> !post[0].free)
    ensures c.off in m && c.off + c.size in m && first in m
    ensures var m1 := m[c.off + c.size := m[c.off + c.size].(prevSize := c.size)];
            && first in m1 && m1[first].fnext in m1
            && HeapOk(LinkAtStart(m1, first, c.off), pre + [Free(c.off, c.size)] + post, [c.off] + fl, first, hi)
  {
    SettleFree(m, pre, c, post, tag, FreeOffs(pre) + FreeOffs(post), fl, first, hi);
    hide LinkAtStart, RunToEnd, FreeList;
    assert FreeOffs([Free(c.off, c.size)]) == {c.off};
  }

  // ------------------------------------------------------------------- the blocks of a heap

  lemma {:induction false} RunTiles(m: Mem, bs: seq<Blk>, lo: nat, tag: nat)
    requires Run(m, bs, lo, tag)
    ensures Tiles(bs, lo, End(bs, lo)) && Separated(bs)
  {
    if bs != [] {
      RunTiles(m, bs[1..], lo + bs[0].size, Tag(bs[0]));
    }
  }
}
