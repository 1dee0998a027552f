/**
 What the second pass of apc_persist.c has done so far: which nodes have been allocated where, and
 what the image holds. The class in CopyPass.dfy keeps the parts of a state in fields.
 */
module Copy {
  import opened Blocks
  import opened Graph
  import opened Persist

  /** What takes memory: a node, the bucket array of an array, the string key of its bucket i. */
  datatype Part = Own(a: Addr) | Data(a: Addr) | KeyOf(a: Addr, i: nat)

  /** A piece of the allocation, and what it was handed out for. */
  datatype Chunk = Chunk(off: nat, size: nat, part: Part)

  /** The position in the allocation, the memo, the image, the chunks handed out, and the nodes
      that have been met. */
  datatype State = State(cur: nat, alloc: map<Addr, nat>, image: Image, chunks: seq<Chunk>, known: set<Addr>)

  /** Chunk after chunk from lo to hi. */
  ghost predicate Tiled(chunks: seq<Chunk>, lo: nat, hi: nat) {
    if chunks == [] then lo == hi
    else
      && chunks[0].off == lo && chunks[0].size > 0 && chunks[0].size % 8 == 0
      && Tiled(chunks[1..], lo + chunks[0].size, hi)
  }

  /** Offset 0 is the entry itself, and stands for the empty array. */
  predicate ValCopied(heap: Heap, s: State, v: Val, iv: IVal) {
    match v
    case Plain(n) => iv == IPlain(n)
    case EmptyArray => iv == IOff(0)
    case At(a) => if IsEmptyArray(heap, a) then iv == IOff(0) else a in s.alloc && iv == IOff(s.alloc[a])
  }

  predicate KeyCopied(s: State, k: Key, ik: IKey, p: Part) {
    match k
    case Int(n) => ik == IInt(n)
    case Name(name) =>
      ik.IName? && ik.o in s.image && s.image[ik.o] == IStr(name) && Chunk(ik.o, StringBytes(|name|), p) in s.chunks
  }

  predicate BucketCopied(heap: Heap, s: State, b: Bucket, ib: IBucket, p: Part) {
    if b.Hole? then ib.IHole? else ib.IBucket? && KeyCopied(s, b.key, ib.key, p) && ValCopied(heap, s, b.val, ib.val)
  }

  ghost predicate BucketsCopied(heap: Heap, s: State, a: Addr, bs: seq<Bucket>, ibs: seq<IBucket>) {
    |ibs| == |bs| && forall i :: 0 <= i < |bs| ==> BucketCopied(heap, s, bs[i], ibs[i], KeyOf(a, i))
  }

  /** The next free integer key, as the copy loop finds it: one above the largest integer key, and
      at least 0. */
  function NextFree(bs: seq<Bucket>): int {
    if bs == [] then 0
    else
      var n, b := NextFree(bs[..|bs| - 1]), bs[|bs| - 1];
      if b.Bucket? && b.key.Int? && b.key.n >= n then b.key.n + 1 else n
  }

  /** The first bucket that is no hole; |bs| stands for HT_INVALID_IDX. */
  function FirstUsed(bs: seq<Bucket>): nat {
    if bs == [] then 0 else if bs[0].Bucket? then 0 else 1 + FirstUsed(bs[1..])
  }

  predicate HasKey(bs: seq<Bucket>, i: nat, n: int) {
    i < |bs| && bs[i].Bucket? && bs[i].key == Int(n)
  }

  /** No integer key is as large, and the next smaller one is in use, or negative. */
  lemma {:induction false} NextFreeIs(bs: seq<Bucket>)
    ensures NextFree(bs) >= 0 && forall i: nat, n :: HasKey(bs, i, n) ==> n < NextFree(bs)
    ensures NextFree(bs) > 0 ==> exists i: nat, n :: HasKey(bs, i, n) && n == NextFree(bs) - 1
  {
    if bs != [] {
      var l := |bs| - 1;
      NextFreeIs(bs[..l]);
      assert forall i: nat, n :: HasKey(bs, i, n) ==> i == l || HasKey(bs[..l], i, n);
      if NextFree(bs) == NextFree(bs[..l]) {
        if NextFree(bs) > 0 {
          var i: nat :| HasKey(bs[..l], i, NextFree(bs) - 1);
          assert HasKey(bs, i, NextFree(bs) - 1);
        }
      } else {
        assert HasKey(bs, l, NextFree(bs) - 1);
      }
    }
  }

  /** All buckets before it are holes, and it is none. */
  lemma {:induction false} FirstUsedIs(bs: seq<Bucket>)
    ensures FirstUsed(bs) <= |bs| && forall i :: 0 <= i < FirstUsed(bs) ==> bs[i].Hole?
    ensures FirstUsed(bs) < |bs| ==> bs[FirstUsed(bs)].Bucket?
  {
    if bs != [] && bs[0].Hole? {
      FirstUsedIs(bs[1..]);
    }
  }

  /** Node a has been copied, and so have the keys of its buckets; the nodes that it points to have
      been allocated. */
  ghost predicate NodeCopied(heap: Heap, s: State, a: Addr) {
    && a in heap && a in s.alloc && s.alloc[a] in s.image
    && var o, i := s.alloc[a], s.image[s.alloc[a]];
    match heap[a]
    case Str(str) => i == IStr(str) && Chunk(o, StringBytes(|str|), Own(a)) in s.chunks
    case Ref(v) => i.IRef? && ValCopied(heap, s, v, i.val) && Chunk(o, AlignWord(REFERENCE), Own(a)) in s.chunks
    case Arr(bs, packed, slots, _, _) =>
      && i.IArr? && BucketsCopied(heap, s, a, bs, i.buckets) && i.packed == packed && i.slots == slots
      && i.nextFree == NextFree(bs) && i.cursor == FirstUsed(bs)
      && Chunk(o, AlignWord(HASHTABLE), Own(a)) in s.chunks && Chunk(i.data, DataBytes(heap[a]), Data(a)) in s.chunks
    case Obj => false
    case Res => false
  }

  /** Every node of l that takes memory has been copied. */
  ghost predicate AllCopied(heap: Heap, s: State, l: seq<Addr>) {
    forall a :: a in l && !IsEmptyArray(heap, a) ==> NodeCopied(heap, s, a)
  }

  /** The memo holds the nodes that have been met, at different offsets inside the allocation. */
  ghost predicate Orderly(heap: Heap, s: State, lo: nat) {
    && 0 < lo && Tiled(s.chunks, lo, s.cur)
    && (forall a :: a in s.alloc ==>
          a in s.known && a in heap && !IsEmptyArray(heap, a) && lo <= s.alloc[a] < s.cur && s.alloc[a] in s.image)
    && Apart(s.alloc)
    && (forall a :: a in s.known ==> a in s.alloc || IsEmptyArray(heap, a))
    && (forall o :: o in s.image ==> lo <= o < s.cur) && Rooted(s.alloc, s.image)
  }

  /** Different nodes have different offsets. */
  ghost predicate Apart(alloc: map<Addr, nat>) {
    forall a, b :: a in alloc && b in alloc && a != b ==> alloc[a] != alloc[b]
  }

  lemma ApartMemo(alloc: map<Addr, nat>, a: Addr, o: nat)
    requires Apart(alloc) && a !in alloc && forall b :: b in alloc ==> alloc[b] != o
    ensures Apart(alloc[a := o])
  {
  }

  /** The image holds nothing but nodes from the memo and strings. */
  ghost predicate Rooted(alloc: map<Addr, nat>, image: Image) {
    forall o :: o in image ==> image[o].IStr? || o in alloc.Values
  }

  lemma RootedMemo(alloc: map<Addr, nat>, image: Image, a: Addr, o: nat, i: INode)
    requires Rooted(alloc, image) && a !in alloc
    ensures Rooted(alloc[a := o], image) && Rooted(alloc[a := o], image[o := i])
  {
    var alloc' := alloc[a := o];
    assert a in alloc' && alloc'[a] == o;
    forall p | p in image && !image[p].IStr? ensures p in alloc'.Values {
      var b :| b in alloc && alloc[b] == p;
      assert b in alloc' && alloc'[b] == p;
    }
  }

  /** What was allocated, copied and met before is so still. */
  ghost predicate Grown(s: State, s': State) {
    && s.cur <= s'.cur && s.known <= s'.known && s.chunks <= s'.chunks
    && (forall a :: a in s.alloc ==> a in s'.alloc && s'.alloc[a] == s.alloc[a])
    && (forall o :: o in s.image ==> o in s'.image && s'.image[o] == s.image[o])
  }

  /** The same, except that the node at o, which is no string, has been worked on. */
  ghost predicate GrownBut(s: State, s': State, o: nat) {
    && s.cur <= s'.cur && s.known <= s'.known && s.chunks <= s'.chunks
    && (forall a :: a in s.alloc ==> a in s'.alloc && s'.alloc[a] == s.alloc[a])
    && (forall p :: p in s.image && p != o ==> p in s'.image && s'.image[p] == s.image[p])
    && (o in s.image ==> !s.image[o].IStr?)
  }

  lemma GrownButTrans(s: State, s': State, s'': State, o: nat)
    requires GrownBut(s, s', o) && GrownBut(s', s'', o)
    ensures GrownBut(s, s'', o)
  {
  }

  /** What is worked on was not there in the beginning. */
  lemma GrownAround(s: State, s': State, s'': State, o: nat)
    requires Grown(s, s') && GrownBut(s', s'', o) && o !in s.image
    ensures Grown(s, s'')
  {
  }

  lemma GrownTrans(s: State, s': State, s'': State)
    requires Grown(s, s') && Grown(s', s'')
    ensures Grown(s, s'')
  {
  }

  lemma AllGrown(heap: Heap, s: State, s': State, l: seq<Addr>, o: nat)
    requires AllCopied(heap, s, l) && GrownBut(s, s', o) && forall a :: a in l && a in s.alloc ==> s.alloc[a] != o
    ensures AllCopied(heap, s', l)
  {
    forall a | a in l && !IsEmptyArray(heap, a) ensures NodeCopied(heap, s', a) {
    }
  }

  lemma AllConcat(heap: Heap, s: State, l: seq<Addr>, l': seq<Addr>)
    requires AllCopied(heap, s, l) && AllCopied(heap, s, l')
    ensures AllCopied(heap, s, l + l')
  {
  }

  lemma {:induction false} TiledSnoc(chunks: seq<Chunk>, lo: nat, hi: nat, n: nat, p: Part)
    requires Tiled(chunks, lo, hi) && n > 0 && n % 8 == 0
    ensures Tiled(chunks + [Chunk(hi, n, p)], lo, hi + n)
  {
    if chunks == [] {
      assert [Chunk(hi, n, p)][1..] == [];
      assert chunks + [Chunk(hi, n, p)] == [Chunk(hi, n, p)];
    } else {
      assert (chunks + [Chunk(hi, n, p)])[0] == chunks[0] && (chunks + [Chunk(hi, n, p)])[1..] ==
        chunks[1..] + [Chunk(hi, n, p)];
      TiledSnoc(chunks[1..], lo + chunks[0].size, hi, n, p);
    }
  }

  /** Chunks do not overlap. */
  lemma {:induction false} ChunksApart(chunks: seq<Chunk>, lo: nat, hi: nat, i: nat, j: nat)
    requires Tiled(chunks, lo, hi) && i < j < |chunks|
    ensures lo <= chunks[i].off && chunks[i].off + chunks[i].size <= chunks[j].off
    ensures chunks[j].off + chunks[j].size <= hi
  {
    if i == 0 {
      ChunkInside(chunks[1..], lo + chunks[0].size, hi, j - 1);
    } else {
      ChunksApart(chunks[1..], lo + chunks[0].size, hi, i - 1, j - 1);
    }
  }

  lemma {:induction false} ChunkInside(chunks: seq<Chunk>, lo: nat, hi: nat, i: nat)
    requires Tiled(chunks, lo, hi) && i < |chunks|
    ensures lo <= chunks[i].off && chunks[i].off + chunks[i].size <= hi
    ensures lo % 8 == 0 ==> chunks[i].off % 8 == 0
  {
    TiledGrows(chunks[1..], lo + chunks[0].size, hi);
    if i > 0 {
      ChunkInside(chunks[1..], lo + chunks[0].size, hi, i - 1);
    }
  }

  lemma {:induction false} TiledGrows(chunks: seq<Chunk>, lo: nat, hi: nat)
    requires Tiled(chunks, lo, hi)
    ensures lo <= hi
  {
    if chunks != [] {
      TiledGrows(chunks[1..], lo + chunks[0].size, hi);
    }
  }

  // ---- allocating

  function Alloc(s: State, n: nat, p: Part): State {
    s.(cur := s.cur + n, chunks := s.chunks + [Chunk(s.cur, n, p)])
  }

  lemma AllocOrderly(heap: Heap, s: State, lo: nat, n: nat, p: Part)
    requires Orderly(heap, s, lo) && n > 0 && n % 8 == 0
    ensures Orderly(heap, Alloc(s, n, p), lo) && Grown(s, Alloc(s, n, p)) && Chunk(s.cur, n, p) in Alloc(s, n, p).chunks
    ensures s.cur !in s.image && s.cur > 0
  {
    TiledSnoc(s.chunks, lo, s.cur, n, p);
    TiledGrows(s.chunks, lo, s.cur);
  }

  /** A chunk o is filled with i. */
  function Put(s: State, o: nat, i: INode): State {
    s.(image := s.image[o := i])
  }

  lemma PutOrderly(heap: Heap, s: State, lo: nat, o: nat, i: INode)
    requires Orderly(heap, s, lo) && lo <= o < s.cur && (i.IStr? || o in s.alloc.Values)
    ensures Orderly(heap, Put(s, o, i), lo)
    ensures o !in s.image ==> Grown(s, Put(s, o, i))
    ensures (o in s.image ==> !s.image[o].IStr?) ==> GrownBut(s, Put(s, o, i), o)
  {
  }

  /** Node a is entered into the memo. */
  function Memoize(s: State, a: Addr, o: nat): State {
    s.(alloc := s.alloc[a := o], known := s.known + {a})
  }

  lemma MemoizeOrderly(heap: Heap, s: State, lo: nat, a: Addr, o: nat)
    requires Orderly(heap, s, lo) && a in heap && !IsEmptyArray(heap, a) && a !in s.alloc && o in s.image
    requires forall b :: b in s.alloc ==> s.alloc[b] != o
    ensures Orderly(heap, Memoize(s, a, o), lo) && Grown(s, Memoize(s, a, o))
  {
    hide Rooted, Apart, Tiled;
    RootedMemo(s.alloc, s.image, a, o, s.image[o]);
    ApartMemo(s.alloc, a, o);
  }

  /** A node is put into its chunk and entered into the memo. */
  lemma BeginOrderly(heap: Heap, s: State, lo: nat, a: Addr, o: nat, i: INode)
    requires Orderly(heap, s, lo) && lo <= o < s.cur && a in heap && !IsEmptyArray(heap, a) && a !in s.known
    requires o !in s.image
    ensures Orderly(heap, Memoize(Put(s, o, i), a, o), lo) && Grown(s, Memoize(Put(s, o, i), a, o))
  {
    hide Rooted, Apart, Tiled, IsEmptyArray, Put, Memoize;
    var s' := s.(image := s.image[o := i], alloc := s.alloc[a := o], known := s.known + {a});
    RootedMemo(s.alloc, s.image, a, o, i);
    ApartMemo(s.alloc, a, o);
    assert Orderly(heap, s', lo) && Grown(s, s');
    BeginIs(s, a, o, i);
  }

  lemma BeginIs(s: State, a: Addr, o: nat, i: INode)
    ensures Memoize(Put(s, o, i), a, o) ==
      s.(image := s.image[o := i], alloc := s.alloc[a := o], known := s.known + {a})
  {
  }

  // ---- filling an array

  function RawKey(k: Key): IKey {
    match k
    case Int(n) => IInt(n)
    case Name(_) => IName(0)
  }

  /** A bucket as it is when the bucket array has just been copied: with pointers of the process. */
  function RawBucket(b: Bucket): IBucket {
    if b.Hole? then IHole else IBucket(RawKey(b.key), IRaw(b.val))
  }

  /** The first idx buckets of the array at o have been copied. */
  ghost predicate Filling(heap: Heap, s: State, a: Addr, o: nat, idx: nat) {
    && a in heap && heap[a].Arr? && a in s.alloc && s.alloc[a] == o && o in s.image && s.image[o].IArr?
    && var node, i := heap[a], s.image[o];
    && i.packed == node.packed && i.slots == node.slots && |i.buckets| == |node.buckets| && idx <= |node.buckets|
    && (forall j :: 0 <= j < idx ==> BucketCopied(heap, s, node.buckets[j], i.buckets[j], KeyOf(a, j)))
    && (forall j :: idx <= j < |node.buckets| ==> i.buckets[j] == RawBucket(node.buckets[j]))
    && i.nextFree == NextFree(node.buckets[..idx])
    && i.cursor == (if FirstUsed(node.buckets[..idx]) < idx then FirstUsed(node.buckets[..idx]) else |node.buckets|)
    && Chunk(o, AlignWord(HASHTABLE), Own(a)) in s.chunks && Chunk(i.data, DataBytes(node), Data(a)) in s.chunks
  }

  lemma {:induction false} FirstUsedNext(bs: seq<Bucket>, idx: nat)
    requires idx < |bs|
    ensures FirstUsed(bs[..idx]) <= idx
    ensures FirstUsed(bs[..idx + 1]) ==
      if FirstUsed(bs[..idx]) < idx then FirstUsed(bs[..idx]) else if bs[idx].Bucket? then idx else idx + 1
  {
    if idx == 0 {
      assert bs[..1] == [bs[0]] && [bs[0]][1..] == [];
    } else {
      assert bs[..idx][1..] == bs[1..][..idx - 1] && bs[..idx + 1][1..] == bs[1..][..idx];
      assert bs[1..][idx - 1] == bs[idx];
      FirstUsedNext(bs[1..], idx - 1);
    }
  }

  lemma NextFreeNext(bs: seq<Bucket>, idx: nat)
    requires idx < |bs|
    ensures NextFree(bs[..idx + 1]) ==
      if bs[idx].Bucket? && bs[idx].key.Int? && bs[idx].key.n >= NextFree(bs[..idx]) then bs[idx].key.n + 1
      else NextFree(bs[..idx])
  {
    assert bs[..idx + 1][..idx] == bs[..idx] && bs[..idx + 1][idx] == bs[idx];
  }

  /** All buckets are copied, so the array is. */
  lemma Filled(heap: Heap, s: State, a: Addr, o: nat)
    requires a in heap && heap[a].Arr? && Filling(heap, s, a, o, |heap[a].buckets|)
    ensures NodeCopied(heap, s, a)
  {
    var bs := heap[a].buckets;
    assert bs[..|bs|] == bs;
    if bs != [] {
      FirstUsedNext(bs, |bs| - 1);
    }
  }

  /** Filling goes on while other nodes are copied. */
  lemma FillingGrown(heap: Heap, s: State, s': State, a: Addr, o: nat, idx: nat)
    requires Filling(heap, s, a, o, idx) && Grown(s, s')
    ensures Filling(heap, s', a, o, idx)
  {
    assert forall c :: c in s.chunks ==> c in s'.chunks;
    forall j | 0 <= j < idx ensures BucketCopied(heap, s', heap[a].buckets[j], s'.image[o].buckets[j], KeyOf(a, j)) {
    }
  }

  /** A hole stays a hole. */
  lemma FillHole(heap: Heap, s: State, a: Addr, o: nat, idx: nat)
    requires Filling(heap, s, a, o, idx) && idx < |heap[a].buckets| && heap[a].buckets[idx].Hole?
    ensures Filling(heap, s, a, o, idx + 1)
  {
    FirstUsedNext(heap[a].buckets, idx);
    NextFreeNext(heap[a].buckets, idx);
    hide NextFree, FirstUsed;
  }

  /** The array node after bucket idx has been rewritten. */
  function WithBucket(i: INode, idx: nat, b: Bucket, ib: IBucket): INode
    requires i.IArr? && idx < |i.buckets| && b.Bucket?
  {
    i.(buckets := i.buckets[idx := ib],
       nextFree := if b.key.Int? && b.key.n >= i.nextFree then b.key.n + 1 else i.nextFree,
       cursor := if i.cursor == |i.buckets| then idx else i.cursor)
  }

  lemma FillBucket(heap: Heap, s: State, a: Addr, o: nat, idx: nat, ib: IBucket)
    requires Filling(heap, s, a, o, idx) && idx < |heap[a].buckets| && heap[a].buckets[idx].Bucket?
    requires BucketCopied(heap, s, heap[a].buckets[idx], ib, KeyOf(a, idx))
    ensures Filling(heap, Put(s, o, WithBucket(s.image[o], idx, heap[a].buckets[idx], ib)), a, o, idx + 1)
  {
    var bs := heap[a].buckets;
    var s' := Put(s, o, WithBucket(s.image[o], idx, bs[idx], ib));
    FirstUsedNext(bs, idx);
    NextFreeNext(bs, idx);
    hide NextFree, FirstUsed;
    forall j | 0 <= j < idx + 1 ensures BucketCopied(heap, s', bs[j], s'.image[o].buckets[j], KeyOf(a, j)) {
    }
  }

  // ---- what is copied does not overlap

  /** The string header, the characters, and a null byte. */
  function StringContent(str: string): nat {
    24 + |str| + 1
  }

  /** What the fixed part of a node holds. */
  function OwnContent(node: Node): nat {
    match node
    case Str(s) => StringContent(s)
    case Ref(_) => 32
    case Arr(_, _, _, _, _) => 56
    case Obj => 0
    case Res => 0
  }

  /** A bucket array holds a zval for each bucket of a packed array, behind its two hash slots, else all hash
      slots and the buckets. */
  function DataContent(node: Node): nat
    requires node.Arr?
  {
    if node.packed then 8 + 16 * |node.buckets| else 4 * node.slots + 32 * |node.buckets|
  }

  /** The copy of part p is in the image from o on and holds n bytes. */
  ghost predicate PartAt(heap: Heap, alloc: map<Addr, nat>, image: Image, p: Part, o: nat, n: nat) {
    && p.a in heap && p.a in alloc && alloc[p.a] in image
    && var node, i := heap[p.a], image[alloc[p.a]];
    match p
    case Own(a) => o == alloc[a] && n == OwnContent(node)
    case Data(_) => node.Arr? && i.IArr? && o == i.data && n == DataContent(node)
    case KeyOf(_, j) =>
      && node.Arr? && i.IArr? && j < |node.buckets| && j < |i.buckets| && node.buckets[j].Bucket?
      && i.buckets[j].IBucket?
      && node.buckets[j].key.Name? && i.buckets[j].key.IName? && o == i.buckets[j].key.o
      && n == StringContent(node.buckets[j].key.s)
  }

  /** The copies of all nodes of l, of their bucket arrays and of their string keys lie between lo
      and hi, at word boundaries, and no two of them overlap. */
  ghost predicate NoOverlap(heap: Heap, alloc: map<Addr, nat>, image: Image, l: seq<Addr>, lo: nat, hi: nat) {
    && (forall p: Part, o: nat, n: nat :: p.a in l && PartAt(heap, alloc, image, p, o, n) ==>
          lo <= o && o + n <= hi && o % 8 == 0)
    && (forall p: Part, o: nat, n: nat, p': Part, o': nat, n': nat ::
          (p != p' && p.a in l && p'.a in l
           && PartAt(heap, alloc, image, p, o, n) && PartAt(heap, alloc, image, p', o', n'))
          ==> o + n <= o' || o' + n' <= o)
  }

  lemma PartChunk(heap: Heap, s: State, lo: nat, p: Part, o: nat, n: nat) returns (size: nat)
    requires Orderly(heap, s, lo) && NodeCopied(heap, s, p.a) && PartAt(heap, s.alloc, s.image, p, o, n)
    ensures Chunk(o, size, p) in s.chunks && n <= size
  {
    match p
    case Own(a) => size := NodeSize(heap[a]);
    case Data(a) => size := DataBytes(heap[a]);
    case KeyOf(a, i) =>
      assert BucketCopied(heap, s, heap[a].buckets[i], s.image[s.alloc[a]].buckets[i], p);
      size := StringBytes(|heap[a].buckets[i].key.s|);
  }

  /** The size of the chunk for the fixed part of a node. */
  function NodeSize(node: Node): nat {
    if node.Str? then StringBytes(|node.s|) else if node.Ref? then AlignWord(REFERENCE) else AlignWord(HASHTABLE)
  }

  lemma ChunksDisjoint(chunks: seq<Chunk>, lo: nat, hi: nat, c: Chunk, d: Chunk)
    requires Tiled(chunks, lo, hi) && c in chunks && d in chunks && lo % 8 == 0
    ensures lo <= c.off && c.off + c.size <= hi && c.off % 8 == 0
    ensures c != d ==> c.off + c.size <= d.off || d.off + d.size <= c.off
  {
    var i :| 0 <= i < |chunks| && chunks[i] == c;
    var j :| 0 <= j < |chunks| && chunks[j] == d;
    ChunkInside(chunks, lo, hi, i);
    if i < j {
      ChunksApart(chunks, lo, hi, i, j);
    } else if j < i {
      ChunksApart(chunks, lo, hi, j, i);
    }
  }

  /** Whatever has been copied does not overlap, and lies inside the allocation. */
  lemma NodesApart(heap: Heap, s: State, lo: nat, l: seq<Addr>)
    requires Orderly(heap, s, lo) && AllCopied(heap, s, l) && lo % 8 == 0
    ensures NoOverlap(heap, s.alloc, s.image, l, lo, s.cur)
  {
    assert Tiled(s.chunks, lo, s.cur) && forall a :: a in s.alloc ==> !IsEmptyArray(heap, a);
    assert forall a :: a in l && a in s.alloc ==> NodeCopied(heap, s, a);
    hide NodeCopied, Orderly, AllCopied, IsEmptyArray;
    forall p: Part, o: nat, n: nat | p.a in l && PartAt(heap, s.alloc, s.image, p, o, n)
      ensures lo <= o && o + n <= s.cur && o % 8 == 0
    {
      var size := InChunk(heap, s, lo, p, o, n);
    }
    forall p: Part, o: nat, n: nat, p': Part, o': nat, n': nat | p != p' && p.a in l && p'.a in l
      && PartAt(heap, s.alloc, s.image, p, o, n) && PartAt(heap, s.alloc, s.image, p', o', n')
      ensures o + n <= o' || o' + n' <= o
    {
      var size := InChunk(heap, s, lo, p, o, n);
      var size' := InChunk(heap, s, lo, p', o', n');
      ChunksDisjoint(s.chunks, lo, s.cur, Chunk(o, size, p), Chunk(o', size', p'));
    }
  }

  lemma InChunk(heap: Heap, s: State, lo: nat, p: Part, o: nat, n: nat) returns (size: nat)
    requires Orderly(heap, s, lo) && (p.a in s.alloc ==> NodeCopied(heap, s, p.a)) && lo % 8 == 0
    requires PartAt(heap, s.alloc, s.image, p, o, n)
    ensures Chunk(o, size, p) in s.chunks && lo <= o && n <= size && o + size <= s.cur && o % 8 == 0
  {
    hide NodeCopied;
    assert p.a in s.alloc;
    size := PartChunk(heap, s, lo, p, o, n);
    ChunksDisjoint(s.chunks, lo, s.cur, Chunk(o, size, p), Chunk(o, size, p));
  }

  // ---- how much that is

  function KeysContent(bs: seq<Bucket>): nat {
    if bs == [] then 0
    else (if bs[0].Bucket? && bs[0].key.Name? then StringContent(bs[0].key.s) else 0) + KeysContent(bs[1..])
  }

  /** What all parts of a node hold. An array without elements takes nothing. */
  function Content(node: Node): nat {
    if node.Arr? && NoElements(node.buckets) then 0
    else if node.Arr? then OwnContent(node) + DataContent(node) + KeysContent(node.buckets)
    else OwnContent(node)
  }

  function StringKeys(bs: seq<Bucket>): nat {
    if bs == [] then 0 else (if bs[0].Bucket? && bs[0].key.Name? then 1 else 0) + StringKeys(bs[1..])
  }

  /** How many parts a node has. */
  function Parts(node: Node): nat {
    if node.Arr? then (if NoElements(node.buckets) then 0 else 2 + StringKeys(node.buckets)) else 1
  }

  function ContentSum(heap: Heap, l: seq<Addr>): nat {
    if l == [] then 0 else (if l[0] in heap then Content(heap[l[0]]) else 0) + ContentSum(heap, l[1..])
  }

  function PartSum(heap: Heap, l: seq<Addr>): nat {
    if l == [] then 0 else (if l[0] in heap then Parts(heap[l[0]]) else 0) + PartSum(heap, l[1..])
  }

  lemma {:induction false} KeysHeld(bs: seq<Bucket>)
    ensures KeysContent(bs) <= KeysBytes(bs) <= KeysContent(bs) + 7 * StringKeys(bs)
  {
    if bs != [] {
      KeysHeld(bs[1..]);
    }
  }

  /** What is counted is what the parts hold, each rounded up to the next word. */
  lemma {:induction false} BytesHold(heap: Heap, l: seq<Addr>)
    ensures ContentSum(heap, l) <= Bytes(heap, l) <= ContentSum(heap, l) + 7 * PartSum(heap, l)
  {
    if l != [] {
      BytesHold(heap, l[1..]);
      if l[0] in heap && heap[l[0]].Arr? {
        KeysHeld(heap[l[0]].buckets);
      }
    }
  }
}
