/**
 The unpersist half of apc_persist.c: a value is copied out of the image of an entry into the memory
 of a process. Offsets become pointers on the way, so it does not matter where the image lies.
 */
module Unpersist {
  import opened Copy
  import opened Graph
  import opened Isomorphism
  import opened Persist

  // ---- the image as a graph

  function AsVal(iv: IVal): Val {
    match iv
    case IPlain(n) => Plain(n)
    case IOff(o) => if o == 0 then EmptyArray else At(o)
    case IRaw(v) => v
  }

  function AsKey(image: Image, ik: IKey): Key {
    match ik
    case IInt(n) => Int(n)
    case IName(o) => Name(if o in image && image[o].IStr? then image[o].s else "")
  }

  function AsBucket(image: Image, ib: IBucket): Bucket {
    if ib.IHole? then Hole else Bucket(AsKey(image, ib.key), AsVal(ib.val))
  }

  function AsBuckets(image: Image, ibs: seq<IBucket>): (bs: seq<Bucket>)
    ensures |bs| == |ibs| && forall i :: 0 <= i < |ibs| ==> bs[i] == AsBucket(image, ibs[i])
  {
    seq(|ibs|, i requires 0 <= i < |ibs| => AsBucket(image, ibs[i]))
  }

  function AsNode(image: Image, i: INode): Node {
    match i
    case IStr(s) => Str(s)
    case IRef(iv) => Ref(AsVal(iv))
    case IArr(ibs, packed, slots, nextFree, cursor, _) => Arr(AsBuckets(image, ibs), packed, slots, nextFree, cursor)
  }

  function Reading(image: Image): Heap {
    map o | o in image :: AsNode(image, image[o])
  }

  // ---- the image of a value is the value

  lemma NodeReads(heap: Heap, s: State, lo: nat, a: Addr)
    requires Orderly(heap, s, lo) && NodeCopied(heap, s, a)
    ensures NodeMaps(heap, Reading(s.image), s.alloc, a)
  {
    var node, i := heap[a], s.image[s.alloc[a]];
    if node.Ref? {
    } else if node.Arr? {
      forall j | 0 <= j < |node.buckets|
        ensures BucketMaps(heap, s.alloc, node.buckets[j], AsBucket(s.image, i.buckets[j]))
      {
        assert BucketCopied(heap, s, node.buckets[j], i.buckets[j], KeyOf(a, j));
      }
    }
  }

  /** What the second pass leaves is isomorphic to the value. */
  lemma ImageIsomorphic(heap: Heap, s: State, lo: nat, v: Val, iv: IVal, met: seq<Addr>)
    requires Orderly(heap, s, lo) && s.known == Set(met) && AllCopied(heap, s, met) && ValCopied(heap, s, v, iv)
    ensures Isomorphic(heap, v, Reading(s.image), AsVal(iv), s.alloc)
  {
    forall a | a in s.alloc ensures NodeMaps(heap, Reading(s.image), s.alloc, a) {
      assert a in met;
      NodeReads(heap, s, lo, a);
    }
  }

  // ---- images that can be read

  predicate SoundVal(image: Image, iv: IVal) {
    match iv
    case IPlain(_) => true
    case IOff(o) => o == 0 || o in image
    case IRaw(_) => false
  }

  ghost predicate SoundNode(image: Image, i: INode) {
    match i
    case IStr(_) => true
    case IRef(iv) => SoundVal(image, iv)
    case IArr(ibs, _, _, nextFree, cursor, _) =>
      && !NoElements(AsBuckets(image, ibs))
      && (forall j :: 0 <= j < |ibs| && ibs[j].IBucket? ==> SoundVal(image, ibs[j].val) && SoundKey(image, ibs[j].key))
      && nextFree == NextFree(AsBuckets(image, ibs)) && cursor == FirstUsed(AsBuckets(image, ibs))
  }

  predicate SoundKey(image: Image, ik: IKey) {
    ik.IName? ==> ik.o in image && image[ik.o].IStr?
  }

  /** All offsets in the image lead to nodes below memSize, and its arrays have elements. */
  ghost predicate Readable(image: Image, memSize: nat) {
    forall o :: o in image ==> 0 < o < memSize && SoundNode(image, image[o])
  }

  /** What the second pass leaves can be read. */
  lemma ImageReadable(heap: Heap, s: State, lo: nat, met: seq<Addr>)
    requires Orderly(heap, s, lo) && s.known == Set(met) && AllCopied(heap, s, met)
    ensures Readable(s.image, s.cur)
  {
    forall o | o in s.image ensures 0 < o < s.cur && SoundNode(s.image, s.image[o]) {
      if !s.image[o].IStr? {
        var a :| a in s.alloc && s.alloc[a] == o;
        assert a in met;
        CopiedSound(heap, s, lo, a);
      }
    }
  }

  lemma CopiedSound(heap: Heap, s: State, lo: nat, a: Addr)
    requires Orderly(heap, s, lo) && NodeCopied(heap, s, a)
    ensures SoundNode(s.image, s.image[s.alloc[a]])
  {
    if heap[a].Arr? {
      var bs, ibs := heap[a].buckets, s.image[s.alloc[a]].buckets;
      NodeReads(heap, s, lo, a);
      SameElements(heap, s.alloc, bs, AsBuckets(s.image, ibs));
      forall j | 0 <= j < |ibs| && ibs[j].IBucket?
        ensures SoundVal(s.image, ibs[j].val) && SoundKey(s.image, ibs[j].key)
      {
        assert BucketCopied(heap, s, bs[j], ibs[j], KeyOf(a, j));
      }
    }
  }

  // ---- counting references

  function Targets(v: Val): multiset<Addr> {
    if v.At? then multiset{v.a} else multiset{}
  }

  function BucketTargets(bs: seq<Bucket>): multiset<Addr> {
    if bs == [] then multiset{}
    else BucketTargets(bs[..|bs| - 1]) + if bs[|bs| - 1].Bucket? then Targets(bs[|bs| - 1].val) else multiset{}
  }

  /** The nodes that a node points to, as often as it does. */
  function NodeTargets(node: Node): multiset<Addr> {
    match node
    case Str(_) => multiset{}
    case Arr(bs, _, _, _, _) => BucketTargets(bs)
    case Ref(v) => Targets(v)
    case Obj => multiset{}
    case Res => multiset{}
  }

  /** What the copies of the nodes l point to. */
  function Total(heap: Heap, memo: map<nat, Addr>, l: seq<nat>): multiset<Addr> {
    if l == [] then multiset{}
    else
      (if l[0] in memo && memo[l[0]] in heap then NodeTargets(heap[memo[l[0]]]) else multiset{})
      + Total(heap, memo, l[1..])
  }

  lemma {:induction false} TotalConcat(heap: Heap, memo: map<nat, Addr>, a: seq<nat>, b: seq<nat>)
    ensures Total(heap, memo, a + b) == Total(heap, memo, a) + Total(heap, memo, b)
  {
    if a == [] {
      assert a + b == b;
    } else {
      assert (a + b)[0] == a[0] && (a + b)[1..] == a[1..] + b;
      TotalConcat(heap, memo, a[1..], b);
    }
  }

  // ---- the state of unpersisting

  datatype Progress = Progress(heap: Heap, memo: map<nat, Addr>, refs: map<Addr, nat>, links: multiset<Addr>, top: nat)

  /** The memo is one to one, and the reference count of every node is the number of pointers to it
      so far. */
  ghost predicate Counted(r: Progress) {
    && r.heap.Keys == r.memo.Values && Injective(r.memo)
    && CountsLinks(r.heap.Keys, r.refs, r.links, r.top)
  }

  ghost predicate CountsLinks(nodes: set<Addr>, refs: map<Addr, nat>, links: multiset<Addr>, top: nat) {
    && refs.Keys == nodes
    && (forall n :: n in nodes ==> n < top && refs[n] == links[n])
    && (forall n :: n in links ==> n in nodes)
  }

  /** Nodes from before are as they were, except that the one at n has been worked on. */
  ghost predicate Further(r: Progress, r': Progress, n: nat) {
    && r.top <= r'.top
    && (forall o :: o in r.memo ==> o in r'.memo && r'.memo[o] == r.memo[o])
    && (forall m :: m in r.heap && m != n ==> m in r'.heap && r'.heap[m] == r.heap[m])
  }

  /** The nodes l of g have been copied. */
  ghost predicate AllMap(g: Heap, r: Progress, l: seq<nat>) {
    forall o :: o in l ==> NodeMaps(g, r.heap, r.memo, o)
  }

  /** What a call has done that has met the nodes met. */
  ghost predicate Fetched(g: Heap, r: Progress, r': Progress, v: Val, v': Val, met: seq<nat>) {
    && Counted(r') && Further(r, r', r.top) && FreshNodes(g, met, r.memo.Keys) && r'.memo.Keys == r.memo.Keys + Set(met)
    && AllMap(g, r', met) && r'.links == r.links + Targets(v') + Total(r'.heap, r'.memo, met)
    && Leads(g, r'.memo, v) && v' == MapVal(g, r'.memo, v)
  }
}
