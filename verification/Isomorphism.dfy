/** When two value graphs are the same up to addresses. */
module Isomorphism {
  import opened Copy
  import opened Graph

  /** f is defined where v leads. */
  predicate Leads(h: Heap, f: map<Addr, Addr>, v: Val) {
    v.At? ==> IsEmptyArray(h, v.a) || v.a in f
  }

  /** The value v of h, translated by f. Arrays without elements become the shared empty array. */
  function MapVal(h: Heap, f: map<Addr, Addr>, v: Val): Val
    requires Leads(h, f, v)
  {
    if !v.At? then v else if IsEmptyArray(h, v.a) then EmptyArray else At(f[v.a])
  }

  predicate BucketMaps(h: Heap, f: map<Addr, Addr>, b: Bucket, b': Bucket) {
    if b.Hole? then b'.Hole? else b'.Bucket? && b'.key == b.key && Leads(h, f, b.val) && b'.val == MapVal(h, f, b.val)
  }

  ghost predicate BucketsMap(h: Heap, f: map<Addr, Addr>, bs: seq<Bucket>, bs': seq<Bucket>) {
    |bs'| == |bs| && forall i :: 0 <= i < |bs| ==> BucketMaps(h, f, bs[i], bs'[i])
  }

  /** Node f[a] of h' is node a of h, with the same keys in the same order. The next free key and the
      internal pointer of an array are those of a fresh array with its elements. */
  ghost predicate NodeMaps(h: Heap, h': Heap, f: map<Addr, Addr>, a: Addr) {
    && a in h && a in f && f[a] in h'
    && match h[a]
       case Str(s) => h'[f[a]] == Str(s)
       case Ref(v) => Leads(h, f, v) && h'[f[a]] == Ref(MapVal(h, f, v))
       case Arr(bs, packed, slots, _, _) =>
         && !NoElements(bs) && h'[f[a]].Arr? && BucketsMap(h, f, bs, h'[f[a]].buckets)
         && h'[f[a]].packed == packed && h'[f[a]].slots == slots
         && h'[f[a]].nextFree == NextFree(bs) && h'[f[a]].cursor == FirstUsed(bs)
       case Obj => false
       case Res => false
  }

  ghost predicate Injective(f: map<Addr, Addr>) {
    forall a, b :: a in f && b in f && a != b ==> f[a] != f[b]
  }

  /** The value v' in h' is the value v in h: f relates their nodes one to one, and sharing and cycles
      are the same. */
  ghost predicate Isomorphic(h: Heap, v: Val, h': Heap, v': Val, f: map<Addr, Addr>) {
    Injective(f) && Leads(h, f, v) && v' == MapVal(h, f, v) && forall a :: a in f ==> NodeMaps(h, h', f, a)
  }

  // ---- composition

  function Composed(f: map<Addr, Addr>, g: map<Addr, Addr>): map<Addr, Addr> {
    map a | a in f && f[a] in g :: g[f[a]]
  }

  lemma {:induction false} SameElements(h: Heap, f: map<Addr, Addr>, bs: seq<Bucket>, bs': seq<Bucket>)
    requires BucketsMap(h, f, bs, bs')
    ensures NoElements(bs') == NoElements(bs) && NextFree(bs') == NextFree(bs) && FirstUsed(bs') == FirstUsed(bs)
  {
    if |bs| > 0 {
      forall i | 0 <= i < |bs| ensures bs'[i].Hole? == bs[i].Hole? {
        assert BucketMaps(h, f, bs[i], bs'[i]);
      }
      SameNextFree(h, f, bs, bs');
      SameFirstUsed(h, f, bs, bs');
    }
  }

  lemma {:induction false} SameNextFree(h: Heap, f: map<Addr, Addr>, bs: seq<Bucket>, bs': seq<Bucket>)
    requires BucketsMap(h, f, bs, bs')
    ensures NextFree(bs') == NextFree(bs)
  {
    if |bs| > 0 {
      var n := |bs| - 1;
      assert BucketMaps(h, f, bs[n], bs'[n]);
      SameNextFree(h, f, bs[..n], bs'[..n]);
    }
  }

  lemma {:induction false} SameFirstUsed(h: Heap, f: map<Addr, Addr>, bs: seq<Bucket>, bs': seq<Bucket>)
    requires BucketsMap(h, f, bs, bs')
    ensures FirstUsed(bs') == FirstUsed(bs)
  {
    if |bs| > 0 {
      assert BucketMaps(h, f, bs[0], bs'[0]);
      SameFirstUsed(h, f, bs[1..], bs'[1..]);
    }
  }

  /** Values that f maps are no empty arrays on the other side. */
  lemma ValComposed(h: Heap, h': Heap, f: map<Addr, Addr>, g: map<Addr, Addr>, v: Val)
    requires Leads(h, f, v) && (v.At? && !IsEmptyArray(h, v.a) ==> NodeMaps(h, h', f, v.a))
    requires Leads(h', g, MapVal(h, f, v))
    ensures Leads(h, Composed(f, g), v) && MapVal(h, Composed(f, g), v) == MapVal(h', g, MapVal(h, f, v))
  {
    if v.At? && !IsEmptyArray(h, v.a) {
    }
  }

  lemma NodeComposed(h: Heap, h': Heap, h'': Heap, f: map<Addr, Addr>, g: map<Addr, Addr>, a: Addr)
    requires NodeMaps(h, h', f, a) && NodeMaps(h', h'', g, f[a])
    requires forall b :: b in f ==> NodeMaps(h, h', f, b)
    ensures NodeMaps(h, h'', Composed(f, g), a)
  {
    var node := h[a];
    if node.Ref? {
      ValComposed(h, h', f, g, node.val);
    } else if node.Arr? {
      var bs, bs', bs'' := node.buckets, h'[f[a]].buckets, h''[g[f[a]]].buckets;
      SameElements(h, f, bs, bs');
      forall i | 0 <= i < |bs| ensures BucketMaps(h, Composed(f, g), bs[i], bs''[i]) {
        assert BucketMaps(h, f, bs[i], bs'[i]) && BucketMaps(h', g, bs'[i], bs''[i]);
        if bs[i].Bucket? {
          ValComposed(h, h', f, g, bs[i].val);
        }
      }
    }
  }

  /** Two isomorphisms make one. */
  lemma IsomorphicTrans(h: Heap, v: Val, h': Heap, v': Val, h'': Heap, v'': Val, f: map<Addr, Addr>, g: map<Addr, Addr>)
    requires Isomorphic(h, v, h', v', f) && Isomorphic(h', v', h'', v'', g)
    ensures Isomorphic(h, v, h'', v'', Composed(f, g))
  {
    ValComposed(h, h', f, g, v);
    hide NodeMaps, Injective, IsEmptyArray;
    forall a | a in Composed(f, g) ensures NodeMaps(h, h'', Composed(f, g), a) {
      NodeComposed(h, h', h'', f, g, a);
    }
  }
}
