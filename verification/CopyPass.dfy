/**
 The second pass of apc_persist.c: copying into the allocation.

 The class keeps the state of the pass: the cursor, the chunks handed out so far, the image
 written into them, and the memo that tells where each node went. Its methods are proved against
 the first pass: they meet the same nodes in the same order and hand out exactly the bytes that
 were counted for them. The lemmas say what one step of a method adds to that, for a string, a
 reference, and an array bucket by bucket.
 */
module CopyPass {
  import opened Basics
  import opened Blocks
  import opened Copy
  import opened Graph
  import opened Persist

  /** A pointer of a value leads to a node. */
  predicate Points(heap: Heap, v: Val) {
    v.At? ==> v.a in heap
  }

  ghost predicate PointsAll(heap: Heap, bs: seq<Bucket>) {
    forall i :: 0 <= i < |bs| && bs[i].Bucket? ==> Points(heap, bs[i].val)
  }

  ghost predicate Closed(heap: Heap) {
    forall a :: a in heap ==>
      && (heap[a].Arr? ==> PointsAll(heap, heap[a].buckets))
      && (heap[a].Ref? ==> Points(heap, heap[a].val))
  }

  /** What a call that walks w has done. */
  ghost predicate Walked(heap: Heap, s: State, s': State, lo: nat, w: Walk) {
    && w.Done? && Orderly(heap, s', lo) && Grown(s, s') && s'.known == s.known + Set(w.met)
    && s'.cur == s.cur + Bytes(heap, w.met) && AllCopied(heap, s', w.met)
  }

  lemma WalkedNothing(heap: Heap, s: State, lo: nat)
    requires Orderly(heap, s, lo)
    ensures Walked(heap, s, s, lo, Done([]))
  {
    assert s.known + Set([]) == s.known;
  }

  class Copying {
    const heap: Heap
    const lo: nat         // the entry with its key takes the bytes before lo
    const size: nat       // what the first pass has counted
    var cur: nat
    var alloc: map<Addr, nat>
    var image: Image
    ghost var chunks: seq<Chunk>
    ghost var known: set<Addr>

    ghost function S(): State
      reads this
    {
      State(cur, alloc, image, chunks, known)
    }

    constructor (heap: Heap, lo: nat, size: nat)
      requires lo > 0
      ensures this.heap == heap && this.lo == lo && this.size == size
      ensures cur == lo && known == {} && Orderly(heap, S(), lo)
    {
      this.heap, this.lo, this.size, cur, alloc, image, chunks, known := heap, lo, size, lo, map[], map[], [], {};
    }

    /** apc_persist_alloc. The assertion in it never fails. */
    method Allocate(n: nat, ghost p: Part) returns (o: nat)
      requires Orderly(heap, S(), lo) && n > 0 && n % 8 == 0 && cur + n <= size
      modifies this`cur, this`chunks
      ensures S() == Alloc(old(S()), n, p) && o == old(cur)
      ensures Orderly(heap, S(), lo) && Grown(old(S()), S()) && Chunk(o, n, p) in chunks && o !in image && o > 0
    {
      AllocOrderly(heap, S(), lo, n, p);
      o := cur;
      chunks := chunks + [Chunk(cur, n, p)];
      cur := cur + n;
      assert cur <= size;
    }

    /** apc_persist_copy_cstr */
    method CopyStr(str: string, ghost p: Part) returns (o: nat)
      requires Orderly(heap, S(), lo) && cur + StringBytes(|str|) <= size
      modifies this`cur, this`chunks, this`image
      ensures Orderly(heap, S(), lo) && Grown(old(S()), S()) && lo <= o < cur && o !in old(image)
      ensures o in image && image[o] == IStr(str) && Chunk(o, StringBytes(|str|), p) in chunks
      ensures cur == old(cur) + StringBytes(|str|) && image == old(image)[o := IStr(str)]
    {
      hide Orderly, Grown;
      ghost var s := S();
      o := Allocate(StringBytes(|str|), p);
      ghost var s1 := S();
      InAllocation(heap, s, lo);
      PutOrderly(heap, s1, lo, o, IStr(str));
      image := image[o := IStr(str)];
      assert S() == Put(s1, o, IStr(str));
      GrownTrans(s, s1, S());
    }

    /** apc_persist_copy_zval: the value is copied unless that has been done before, and its pointer
        becomes an offset inside the allocation. */
    method CopyVal(v: Val) returns (iv: IVal)
      requires Orderly(heap, S(), lo) && Closed(heap) && Points(heap, v) && lo <= size
      requires Visit(heap, v, known).Done? && cur + Bytes(heap, Visit(heap, v, known).met) <= size
      modifies this
      ensures Walked(heap, old(S()), S(), lo, Visit(heap, v, old(known))) && ValCopied(heap, S(), v, iv)
      ensures iv.IOff? ==> iv.o < size
      decreases heap.Keys - known, 1
    {
      hide Orderly, Grown, Closed, Walked, NodeCopied, AllCopied;
      ghost var s := S();
      WalkedNothing(heap, s, lo);
      InAllocation(heap, s, lo);
      match v
      case Plain(n) => iv := IPlain(n);
      case EmptyArray => iv := IOff(0);
      case At(a) =>
        if a in alloc {
          AllocatedIs(heap, s, lo, a);
          iv := IOff(alloc[a]);
          return;
        }
        Unallocated(heap, s, lo, a);
        var o: nat;
        match heap[a] {
          case Str(str) => o := CopyZstr(a);
          case Arr(_, _, _, _, _) => o := CopyHt(a);
          case Ref(_) => o := CopyRef(a);
        }
        assert o < size;  // apc_persist_compute_offset
        iv := IOff(o);
    }

    /** apc_persist_copy_ref */
    method CopyRef(a: Addr) returns (o: nat)
      requires Orderly(heap, S(), lo) && Closed(heap) && lo <= size && a in heap && heap[a].Ref? && a !in known
      requires Visit(heap, At(a), known).Done? && cur + Bytes(heap, Visit(heap, At(a), known).met) <= size
      modifies this
      ensures Walked(heap, old(S()), S(), lo, Visit(heap, At(a), old(known))) && a in alloc && alloc[a] == o && o < size
      decreases heap.Keys - known, 0
    {
      hide Orderly, Grown, GrownBut, Closed, Walked, NodeCopied, AllCopied;
      ghost var s := S();
      var w := heap[a].val;
      ghost var inner := Visit(heap, w, known + {a});
      RefWalk(heap, a, known);
      o := Begin(a, AlignWord(REFERENCE), IRef(IRaw(w)));
      ghost var s1 := S();
      var iv := CopyVal(w);
      ghost var s2 := S();
      image := image[o := IRef(iv)];
      assert S() == Put(s2, o, IRef(iv));
      RefDone(heap, s, s1, s2, S(), lo, a, o, iv, inner);
    }

    /** A node that leads further is allocated and entered into the memo before its contents are
        copied, so that cycles end. */
    method Begin(a: Addr, n: nat, raw: INode) returns (o: nat)
      requires Orderly(heap, S(), lo) && a in heap && !IsEmptyArray(heap, a) && a !in known
      requires n > 0 && n % 8 == 0 && cur + n <= size
      modifies this
      ensures Orderly(heap, S(), lo) && Grown(old(S()), S()) && o !in old(image) && o > 0 && o < size
      ensures S() == Memoize(Put(Alloc(old(S()), n, Own(a)), o, raw), a, o) && Chunk(o, n, Own(a)) in chunks
      ensures o == old(cur)
    {
      hide Orderly, Grown;
      ghost var s := S();
      InAllocation(heap, s, lo);
      o := Allocate(n, Own(a));
      ghost var s1 := S();
      BeginOrderly(heap, s1, lo, a, o, raw);
      image := image[o := raw];
      alloc, known := alloc[a := o], known + {a};
      assert S() == Memoize(Put(s1, o, raw), a, o);
      GrownTrans(s, s1, S());
    }

    /** apc_persist_copy_ht; offset 0 stands for an array without elements. */
    method CopyHt(a: Addr) returns (o: nat)
      requires Orderly(heap, S(), lo) && Closed(heap) && lo <= size && a in heap && heap[a].Arr? && a !in alloc
      requires Visit(heap, At(a), known).Done? && cur + Bytes(heap, Visit(heap, At(a), known).met) <= size
      modifies this
      ensures Walked(heap, old(S()), S(), lo, Visit(heap, At(a), old(known)))
      ensures if IsEmptyArray(heap, a) then o == 0 else a in alloc && alloc[a] == o && o < size
      decreases heap.Keys - known, 0
    {
      hide Orderly, Grown, GrownBut, Closed, Walked, NodeCopied, AllCopied, Filling, IsEmptyArray;
      ghost var s := S();
      var node := heap[a];
      if NoElements(node.buckets) {
        EmptyWalk(heap, s, lo, a);
        known := known + {a};
        return 0;
      }
      FullWalk(heap, s, lo, a);
      ghost var inner := VisitAll(heap, node.buckets, known + {a});
      o := Begin(a, AlignWord(HASHTABLE), RawArray(node, 0));
      ghost var s1 := S();
      var data := Allocate(DataBytes(node), Data(a));
      ghost var s2 := S();
      image := image[o := RawArray(node, data)];
      ghost var s3 := S();
      Opened(heap, s, s1, s2, s3, lo, a, o, data);
      FillAll(a, o);
      HtDone(heap, s, s3, S(), lo, a, o, inner);
    }

    /** Its loop over the buckets. */
    method FillAll(a: Addr, o: nat)
      requires Orderly(heap, S(), lo) && Closed(heap) && lo <= size && a in heap && heap[a].Arr? && a in known
      requires Filling(heap, S(), a, o, 0)
      requires var w := VisitAll(heap, heap[a].buckets, known);
               w.Done? && cur + KeysBytes(heap[a].buckets) + Bytes(heap, w.met) <= size
      modifies this
      ensures Orderly(heap, S(), lo) && GrownBut(old(S()), S(), o) && Filling(heap, S(), a, o, |heap[a].buckets|)
      ensures var w := VisitAll(heap, heap[a].buckets, old(known));
              && known == old(known) + Set(w.met) && cur == old(cur) + KeysBytes(heap[a].buckets) + Bytes(heap, w.met)
              && AllCopied(heap, S(), w.met)
      decreases heap.Keys - known, 3
    {
      hide Orderly, Grown, GrownBut, Closed, NodeCopied, AllCopied, Filling, Midway, FreshNodes;
      ghost var s0, bs, met := S(), heap[a].buckets, [];
      ghost var sum := cur + KeysBytes(bs);
      FillStart(heap, s0, a, o);
      MidwayStart(heap, bs, known);
      VisitAllFresh(heap, bs, known);
      assert bs[0..] == bs && known + Set([]) == known;
      for idx := 0 to |heap[a].buckets|
        invariant Orderly(heap, S(), lo) && GrownBut(s0, S(), o) && Filling(heap, S(), a, o, idx)
        invariant Midway(heap, bs, s0.known, met, bs[idx..]) && known == s0.known + Set(met)
        invariant cur + KeysBytes(bs[idx..]) == sum + Bytes(heap, met)
        invariant AllCopied(heap, S(), met)
      {
        ghost var s, rest := S(), bs[idx..];
        assert rest[0] == bs[idx] && rest[1..] == bs[idx + 1..];
        MidwayBudget(heap, bs, s0.known, met, rest);
        MidwayStep(heap, bs, s0.known, met, rest);
        ghost var w := VisitBucket(heap, rest[0], known);
        FillOne(a, o, idx);
        FillingIs(heap, s, a, o, idx);
        MetApart(heap, s, lo, a, o, bs, s0.known, met, rest);
        AllGrown(heap, s, S(), met, o);
        AllConcat(heap, S(), met, w.met);
        GrownButTrans(s0, s, S(), o);
        met := met + w.met;
      }
      assert bs[|bs|..] == [];
      MidwayEnd(heap, bs, s0.known, met);
    }

    /** One round of it. */
    method FillOne(a: Addr, o: nat, idx: nat)
      requires Orderly(heap, S(), lo) && Closed(heap) && lo <= size && a in heap && heap[a].Arr?
      requires idx < |heap[a].buckets|
      requires Filling(heap, S(), a, o, idx) && a in known
      requires var w := VisitBucket(heap, heap[a].buckets[idx], known);
               w.Done? && cur + KeyBytes(heap[a].buckets[idx]) + Bytes(heap, w.met) <= size
      modifies this
      ensures Orderly(heap, S(), lo) && GrownBut(old(S()), S(), o) && Filling(heap, S(), a, o, idx + 1)
      ensures var w := VisitBucket(heap, heap[a].buckets[idx], old(known));
              && known == old(known) + Set(w.met)
              && cur == old(cur) + KeyBytes(heap[a].buckets[idx]) + Bytes(heap, w.met)
              && AllCopied(heap, S(), w.met)
      decreases heap.Keys - known, 2
    {
      hide Orderly, Grown, GrownBut, Closed, NodeCopied, AllCopied, Filling, Walked, KeyCopied, ValCopied;
      ghost var s := S();
      var b := heap[a].buckets[idx];
      FillingIs(heap, s, a, o, idx);
      if b.Hole? {
        HoleWalked(heap, s, o);
        FillHole(heap, s, a, o, idx);
        return;
      }
      ClosedAt(heap, a, idx);
      var ik := CopyKey(b.key, KeyOf(a, idx));
      ghost var s1 := S();
      FillingGrown(heap, s, s1, a, o, idx);
      var iv := CopyVal(b.val);
      ghost var s2, w := S(), VisitBucket(heap, b, s.known);
      FillRound(heap, s, s1, s2, lo, a, o, idx, ik, iv, w);
      image := image[o := WithBucket(image[o], idx, b, IBucket(ik, iv))];
      assert S() == Put(s2, o, WithBucket(s2.image[o], idx, b, IBucket(ik, iv)));
    }

    method CopyKey(k: Key, ghost p: Part) returns (ik: IKey)
      requires Orderly(heap, S(), lo) && cur + KeyBytes(Bucket(k, Plain(0))) <= size
      modifies this`cur, this`chunks, this`image
      ensures Orderly(heap, S(), lo) && Grown(old(S()), S()) && KeyCopied(S(), k, ik, p)
      ensures cur == old(cur) + KeyBytes(Bucket(k, Plain(0)))
    {
      hide Orderly, Grown;
      match k
      case Int(n) =>
        GrownRefl(S());
        ik := IInt(n);
      case Name(name) =>
        var o := CopyStr(name, p);
        ik := IName(o);
    }

    /** apc_persist_copy_zstr */
    method CopyZstr(a: Addr) returns (o: nat)
      requires Orderly(heap, S(), lo) && a in heap && heap[a].Str? && a !in known
      requires cur + Bytes(heap, [a]) <= size
      modifies this
      ensures Walked(heap, old(S()), S(), lo, Done([a])) && a in alloc && alloc[a] == o && o < size
    {
      hide Orderly, Grown;
      ghost var s := S();
      o := CopyStr(heap[a].s, Own(a));
      ghost var s1 := S();
      MemoReady(heap, s, s1, lo, a, o);
      MemoizeOrderly(heap, s1, lo, a, o);
      alloc, known := alloc[a := o], known + {a};
      assert S() == Memoize(s1, a, o);
      GrownTrans(s, s1, S());
      assert Set([a]) == {a};
    }
  }

  lemma InAllocation(heap: Heap, s: State, lo: nat)
    requires Orderly(heap, s, lo)
    ensures lo <= s.cur && 0 < lo
  {
    TiledGrows(s.chunks, lo, s.cur);
  }

  /** A node that has been allocated is found in the memo. */
  lemma AllocatedIs(heap: Heap, s: State, lo: nat, a: Addr)
    requires Orderly(heap, s, lo) && a in s.alloc
    ensures a in s.known && s.alloc[a] < s.cur && a in heap
    ensures !IsEmptyArray(heap, a)
  {
  }

  lemma Unallocated(heap: Heap, s: State, lo: nat, a: Addr)
    requires Orderly(heap, s, lo) && a in heap && a !in s.alloc
    ensures a in s.known ==> IsEmptyArray(heap, a)
  {
  }

  lemma MemoReady(heap: Heap, s: State, s': State, lo: nat, a: Addr, o: nat)
    requires Orderly(heap, s, lo) && a !in s.known && s'.alloc == s.alloc && o !in s.image
    ensures a !in s'.alloc && forall b :: b in s'.alloc ==> s'.alloc[b] != o
  {
  }

  lemma RefWalk(heap: Heap, a: Addr, known: set<Addr>)
    requires a in heap && heap[a].Ref? && a !in known && Visit(heap, At(a), known).Done? && Closed(heap)
    ensures var inner := Visit(heap, heap[a].val, known + {a});
            && inner.Done? && Visit(heap, At(a), known) == Done([a] + inner.met) && Points(heap, heap[a].val)
            && Bytes(heap, [a] + inner.met) == AlignWord(REFERENCE) + Bytes(heap, inner.met)
  {
    BytesConcat(heap, [a], Visit(heap, heap[a].val, known + {a}).met);
  }

  /** A reference is complete when its value is. */
  lemma RefDone(heap: Heap, s: State, s1: State, s2: State, s3: State, lo: nat, a: Addr, o: nat, iv: IVal, inner: Walk)
    requires a in heap && heap[a].Ref? && o !in s.image && Grown(s, s1) && Orderly(heap, s1, lo) && o > 0
    requires s1 == Memoize(Put(Alloc(s, AlignWord(REFERENCE), Own(a)), o, IRef(IRaw(heap[a].val))), a, o)
    requires Chunk(o, AlignWord(REFERENCE), Own(a)) in s1.chunks
    requires Walked(heap, s1, s2, lo, inner) && ValCopied(heap, s2, heap[a].val, iv) && s3 == Put(s2, o, IRef(iv))
    requires inner == Visit(heap, heap[a].val, s.known + {a}) && a !in s.known
    requires Bytes(heap, [a] + inner.met) == AlignWord(REFERENCE) + Bytes(heap, inner.met)
    ensures Walked(heap, s, s3, lo, Done([a] + inner.met)) && a in s3.alloc && s3.alloc[a] == o && o < s3.cur
  {
    hide NodeCopied, Orderly, Grown, GrownBut, FreshNodes;
    VisitFresh(heap, heap[a].val, s.known + {a});
    PutDone(heap, s, s1, s2, s3, lo, a, o, IRef(iv), inner.met);
    RefCopied(heap, s1, s2, s3, a, o, iv);
    assert Set([a] + inner.met) == {a} + Set(inner.met);
    assert s.known + {a} + Set(inner.met) == s.known + Set([a] + inner.met);
  }

  lemma RefCopied(heap: Heap, s1: State, s2: State, s3: State, a: Addr, o: nat, iv: IVal)
    requires a in heap && heap[a].Ref? && Grown(s1, s2) && ValCopied(heap, s2, heap[a].val, iv)
    requires s3 == Put(s2, o, IRef(iv))
    requires a in s1.alloc && s1.alloc[a] == o && Chunk(o, AlignWord(REFERENCE), Own(a)) in s1.chunks
    ensures NodeCopied(heap, s3, a) && a in s3.alloc && s3.alloc[a] == o
  {
    assert ValCopied(heap, s3, heap[a].val, iv);
    assert Chunk(o, AlignWord(REFERENCE), Own(a)) in s2.chunks;
  }

  /** Completing the node at o leaves the others as they are. */
  lemma PutDone(heap: Heap, s: State, s1: State, s2: State, s3: State, lo: nat, a: Addr, o: nat, i: INode,
                met: seq<Addr>)
    requires Orderly(heap, s1, lo) && Grown(s, s1) && o !in s.image && a in s1.alloc && s1.alloc[a] == o
    requires o in s1.image && !s1.image[o].IStr?
    requires Orderly(heap, s2, lo) && Grown(s1, s2) && AllCopied(heap, s2, met) && s3 == Put(s2, o, i) && a !in met
    ensures Orderly(heap, s3, lo) && Grown(s, s3) && AllCopied(heap, s3, met) && lo <= o < s3.cur
  {
    assert lo <= o < s2.cur && o in s2.image && s2.image[o] == s1.image[o] && a in s2.alloc && s2.alloc[a] == o;
    PutOrderly(heap, s2, lo, o, i);
    assert forall b :: b in met && b in s2.alloc ==> s2.alloc[b] != o;
    hide Orderly, NodeCopied;
    AllGrown(heap, s2, s3, met, o);
    GrownTrans(s, s1, s2);
    GrownAround(s, s2, s3, o);
  }

  lemma GrownRefl(s: State)
    ensures Grown(s, s)
  {
  }

  lemma FillingIs(heap: Heap, s: State, a: Addr, o: nat, idx: nat)
    requires Filling(heap, s, a, o, idx)
    ensures a in heap && heap[a].Arr? && o in s.image && s.image[o].IArr? && |s.image[o].buckets| == |heap[a].buckets|
    ensures a in s.alloc && s.alloc[a] == o
  {
  }

  lemma HoleWalked(heap: Heap, s: State, o: nat)
    requires o in s.image && !s.image[o].IStr?
    ensures GrownBut(s, s, o) && s.known + Set([]) == s.known && AllCopied(heap, s, [])
  {
  }

  lemma ClosedAt(heap: Heap, a: Addr, idx: nat)
    requires Closed(heap) && a in heap && heap[a].Arr? && idx < |heap[a].buckets| && heap[a].buckets[idx].Bucket?
    ensures Points(heap, heap[a].buckets[idx].val)
  {
  }

  /** The nodes that were met inside an array are not the array. */
  lemma MetApart(heap: Heap, s: State, lo: nat, a: Addr, o: nat, bs: seq<Bucket>, seen: set<Addr>, met: seq<Addr>,
                 rest: seq<Bucket>)
    requires Orderly(heap, s, lo) && a in s.alloc && s.alloc[a] == o && a in seen
    requires Midway(heap, bs, seen, met, rest) && VisitAll(heap, bs, seen).Done?
    requires FreshNodes(heap, VisitAll(heap, bs, seen).met, seen)
    ensures forall b :: b in met && b in s.alloc ==> s.alloc[b] != o
  {
    hide Distinct;
    assert forall b :: b in met ==> b in VisitAll(heap, bs, seen).met;
  }

  lemma MidwayBudget(heap: Heap, bs: seq<Bucket>, seen0: set<Addr>, l: seq<Addr>, rest: seq<Bucket>)
    requires Midway(heap, bs, seen0, l, rest) && rest != [] && VisitAll(heap, bs, seen0).Done?
    ensures var w := VisitBucket(heap, rest[0], seen0 + Set(l));
            w.Done? && Bytes(heap, l) + Bytes(heap, w.met) <= Bytes(heap, VisitAll(heap, bs, seen0).met)
  {
    var w := VisitBucket(heap, rest[0], seen0 + Set(l));
    var z := VisitAll(heap, rest[1..], seen0 + Set(l) + Set(w.met));
    assert VisitAll(heap, bs, seen0).met == l + (w.met + z.met);
    BytesConcat(heap, l, w.met + z.met);
    BytesConcat(heap, w.met, z.met);
  }

  /** The round is complete once the bucket is rewritten. */
  lemma FillRound(heap: Heap, s: State, s1: State, s2: State, lo: nat, a: Addr, o: nat, idx: nat, ik: IKey, iv: IVal,
                  w: Walk)
    requires Filling(heap, s1, a, o, idx) && idx < |heap[a].buckets| && heap[a].buckets[idx].Bucket? && a in s.known
    requires o in s.image && !s.image[o].IStr? && a in heap && heap[a].Arr?
    requires Orderly(heap, s1, lo) && Grown(s, s1) && KeyCopied(s1, heap[a].buckets[idx].key, ik, KeyOf(a, idx))
    requires s1.known == s.known
    requires Walked(heap, s1, s2, lo, w) && ValCopied(heap, s2, heap[a].buckets[idx].val, iv)
    requires w == Visit(heap, heap[a].buckets[idx].val, s.known)
    ensures o in s2.image && s2.image[o].IArr? && |s2.image[o].buckets| == |heap[a].buckets|
    ensures var b := heap[a].buckets[idx];
            var s3 := Put(s2, o, WithBucket(s2.image[o], idx, b, IBucket(ik, iv)));
            && Orderly(heap, s3, lo) && GrownBut(s, s3, o) && Filling(heap, s3, a, o, idx + 1)
            && AllCopied(heap, s3, w.met)
            && s2.known == s.known + Set(w.met) && s2.cur == s1.cur + Bytes(heap, w.met)
  {
    hide Orderly, Grown, GrownBut, NodeCopied, AllCopied, Filling, KeyCopied, ValCopied, FreshNodes;
    var b := heap[a].buckets[idx];
    FillingGrown(heap, s1, s2, a, o, idx);
    FillingIs(heap, s2, a, o, idx);
    KeyGrown(s1, s2, b.key, ik, KeyOf(a, idx));
    FillBucket(heap, s2, a, o, idx, IBucket(ik, iv));
    var s3 := Put(s2, o, WithBucket(s2.image[o], idx, b, IBucket(ik, iv)));
    OffsetInside(heap, s2, lo, a);
    PutOrderly(heap, s2, lo, o, s3.image[o]);
    VisitFresh(heap, b.val, s.known);
    OthersElsewhere(heap, s2, lo, a, o, w.met, s.known);
    AllGrown(heap, s2, s3, w.met, o);
    GrownTrans(s, s1, s2);
    GrownButTrans(s, s2, s3, o);
  }

  lemma KeyGrown(s: State, s': State, k: Key, ik: IKey, p: Part)
    requires KeyCopied(s, k, ik, p) && Grown(s, s')
    ensures KeyCopied(s', k, ik, p)
  {
    assert forall c :: c in s.chunks ==> c in s'.chunks;
  }

  lemma OffsetInside(heap: Heap, s: State, lo: nat, a: Addr)
    requires Orderly(heap, s, lo) && a in s.alloc
    ensures lo <= s.alloc[a] < s.cur
  {
  }

  lemma OthersElsewhere(heap: Heap, s: State, lo: nat, a: Addr, o: nat, met: seq<Addr>, seen: set<Addr>)
    requires Orderly(heap, s, lo) && a in s.alloc && s.alloc[a] == o && a in seen && FreshNodes(heap, met, seen)
    ensures forall b :: b in met && b in s.alloc ==> s.alloc[b] != o
  {
    hide Distinct;
  }

  /** The array node after the memcpy of its two parts. */
  function RawArray(node: Node, data: nat): INode
    requires node.Arr?
  {
    IArr(seq(|node.buckets|, i requires 0 <= i < |node.buckets| => RawBucket(node.buckets[i])),
         node.packed, node.slots, 0, |node.buckets|, data)
  }

  lemma FillStart(heap: Heap, s: State, a: Addr, o: nat)
    requires Filling(heap, s, a, o, 0)
    ensures GrownBut(s, s, o) && AllCopied(heap, s, [])
  {
  }

  lemma EmptyWalk(heap: Heap, s: State, lo: nat, a: Addr)
    requires Orderly(heap, s, lo) && a in heap && heap[a].Arr? && NoElements(heap[a].buckets)
    ensures Walked(heap, s, s.(known := s.known + {a}), lo, Visit(heap, At(a), s.known)) && IsEmptyArray(heap, a)
  {
    NothingInside(heap, heap[a].buckets, s.known + {a});
    assert s.known + Set([]) == s.known && Set([a]) == {a} && [a] + [] == [a];
    assert a in s.known ==> s.known + {a} == s.known;
  }

  lemma FullWalk(heap: Heap, s: State, lo: nat, a: Addr)
    requires Orderly(heap, s, lo) && a in heap && heap[a].Arr? && !NoElements(heap[a].buckets) && a !in s.alloc
    requires Visit(heap, At(a), s.known).Done?
    ensures a !in s.known && !IsEmptyArray(heap, a)
    ensures var inner := VisitAll(heap, heap[a].buckets, s.known + {a});
            && inner.Done? && Visit(heap, At(a), s.known) == Done([a] + inner.met)
            && Bytes(heap, [a] + inner.met) ==
                 AlignWord(HASHTABLE) + DataBytes(heap[a]) + KeysBytes(heap[a].buckets) + Bytes(heap, inner.met)
            && DataBytes(heap[a]) > 0
  {
    BytesConcat(heap, [a], VisitAll(heap, heap[a].buckets, s.known + {a}).met);
    assert heap[a].buckets != [];
  }

  /** The memory of the array is there, and its buckets are still raw. */
  lemma Opened(heap: Heap, s: State, s1: State, s2: State, s3: State, lo: nat, a: Addr, o: nat, data: nat)
    requires a in heap && heap[a].Arr? && o !in s.image && o > 0 && Grown(s, s1)
    requires s1 == Memoize(Put(Alloc(s, AlignWord(HASHTABLE), Own(a)), o, RawArray(heap[a], 0)), a, o)
    requires Chunk(o, AlignWord(HASHTABLE), Own(a)) in s1.chunks
    requires s2 == Alloc(s1, DataBytes(heap[a]), Data(a)) && Orderly(heap, s2, lo) && Grown(s1, s2)
    requires Chunk(data, DataBytes(heap[a]), Data(a)) in s2.chunks
    requires s3 == Put(s2, o, RawArray(heap[a], data)) && o in s1.image && s1.image[o].IArr?
    ensures Orderly(heap, s3, lo) && Grown(s, s3) && Filling(heap, s3, a, o, 0)
    ensures s3.known == s.known + {a} && s3.cur == s.cur + AlignWord(HASHTABLE) + DataBytes(heap[a])
  {
    hide Orderly, Grown, GrownBut, Filling, RawArray;
    OffsetInside(heap, s2, lo, a);
    PutOrderly(heap, s2, lo, o, s3.image[o]);
    GrownTrans(s, s1, s2);
    GrownAround(s, s2, s3, o);
    OpenedFilling(heap, s1, s2, s3, a, o, data);
  }

  lemma OpenedFilling(heap: Heap, s1: State, s2: State, s3: State, a: Addr, o: nat, data: nat)
    requires a in heap && heap[a].Arr? && Chunk(o, AlignWord(HASHTABLE), Own(a)) in s1.chunks && Grown(s1, s2)
    requires Chunk(data, DataBytes(heap[a]), Data(a)) in s2.chunks && s3 == Put(s2, o, RawArray(heap[a], data))
    requires a in s2.alloc && s2.alloc[a] == o
    ensures Filling(heap, s3, a, o, 0)
  {
    assert Chunk(o, AlignWord(HASHTABLE), Own(a)) in s2.chunks;
    assert heap[a].buckets[..0] == [];
  }

  /** The array is complete when all its buckets are. */
  lemma HtDone(heap: Heap, s: State, s3: State, s4: State, lo: nat, a: Addr, o: nat, inner: Walk)
    requires a in heap && heap[a].Arr? && o !in s.image && Grown(s, s3)
    requires s3.known == s.known + {a} && s3.cur == s.cur + AlignWord(HASHTABLE) + DataBytes(heap[a])
    requires Orderly(heap, s4, lo) && GrownBut(s3, s4, o) && Filling(heap, s4, a, o, |heap[a].buckets|)
    requires inner.Done? && s4.known == s3.known + Set(inner.met) && AllCopied(heap, s4, inner.met)
    requires s4.cur == s3.cur + KeysBytes(heap[a].buckets) + Bytes(heap, inner.met)
    requires Bytes(heap, [a] + inner.met) ==
      AlignWord(HASHTABLE) + DataBytes(heap[a]) + KeysBytes(heap[a].buckets) + Bytes(heap, inner.met)
    ensures Walked(heap, s, s4, lo, Done([a] + inner.met)) && a in s4.alloc && s4.alloc[a] == o && o < s4.cur
  {
    hide Orderly, NodeCopied, Grown, GrownBut, Filling;
    FillingIs(heap, s4, a, o, |heap[a].buckets|);
    OffsetInside(heap, s4, lo, a);
    Filled(heap, s4, a, o);
    GrownAround(s, s3, s4, o);
    assert Set([a] + inner.met) == {a} + Set(inner.met);
    assert s.known + {a} + Set(inner.met) == s.known + Set([a] + inner.met);
  }
}
