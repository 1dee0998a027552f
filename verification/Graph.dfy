/**
 Values as apc_persist.c sees them: a graph of reference-counted strings, arrays and references,
 possibly shared and cyclic, in the memory of one process. Visit is the order in which both
 passes of persisting go through it.
 */
module Graph {
  import opened Basics
  import opened Blocks

  type Addr = nat

  /** A zval: data of its own, or a pointer to something reference-counted; the shared immutable
      empty array is a value of its own. */
  datatype Val = Plain(n: int) | At(a: Addr) | EmptyArray

  datatype Key = Int(n: int) | Name(s: string)

  /** A bucket of an array. A hole is a bucket of type UNDEF. */
  datatype Bucket = Hole | Bucket(key: Key, val: Val)

  /** Arr has its buckets, the number of slots of its hash part, and the next free integer key and
      internal pointer of a PHP array. */
  datatype Node =
    | Str(s: string)
    | Arr(buckets: seq<Bucket>, packed: bool, slots: nat, nextFree: int, cursor: nat)
    | Ref(val: Val)
    | Obj
    | Res

  type Heap = map<Addr, Node>

  /** nNumOfElements == 0 */
  predicate NoElements(bs: seq<Bucket>) {
    forall i :: 0 <= i < |bs| ==> bs[i].Hole?
  }

  predicate IsEmptyArray(heap: Heap, a: Addr) {
    a in heap && heap[a].Arr? && NoElements(heap[a].buckets)
  }

  function Set(l: seq<Addr>): set<Addr> {
    set a | a in l
  }

  // ---- the walk

  /** The nodes that are met for the first time, in order; or what stops the walk. */
  datatype Walk = Done(met: seq<Addr>) | Object | Resource

  function Then(l: seq<Addr>, w: Walk): Walk {
    if w.Done? then Done(l + w.met) else w
  }

  function Visit(heap: Heap, v: Val, seen: set<Addr>): Walk
    decreases heap.Keys - seen, 0
  {
    if !v.At? || v.a in seen || v.a !in heap then Done([])
    else match heap[v.a]
      case Str(_) => Done([v.a])
      case Arr(bs, _, _, _, _) => Then([v.a], VisitAll(heap, bs, seen + {v.a}))
      case Ref(w) => Then([v.a], Visit(heap, w, seen + {v.a}))
      case Obj => Object
      case Res => Resource
  }

  function VisitBucket(heap: Heap, b: Bucket, seen: set<Addr>): Walk
    decreases heap.Keys - seen, 1
  {
    if b.Hole? then Done([]) else Visit(heap, b.val, seen)
  }

  function VisitAll(heap: Heap, bs: seq<Bucket>, seen: set<Addr>): Walk
    decreases heap.Keys - seen, |bs| + 2
  {
    if bs == [] then Done([])
    else
      var w := VisitBucket(heap, bs[0], seen);
      if w.Done? then
        assert heap.Keys - (seen + Set(w.met)) <= heap.Keys - seen;
        Then(w.met, VisitAll(heap, bs[1..], seen + Set(w.met)))
      else w
  }

  /** New nodes are new, and each is met once. */
  ghost predicate FreshNodes(heap: Heap, met: seq<Addr>, seen: set<Addr>) {
    Distinct(met) && forall a :: a in met ==> a in heap && a !in seen
  }

  lemma {:induction false} VisitFresh(heap: Heap, v: Val, seen: set<Addr>)
    ensures Visit(heap, v, seen).Done? ==> FreshNodes(heap, Visit(heap, v, seen).met, seen)
    decreases heap.Keys - seen, 0
  {
    if v.At? && v.a !in seen && v.a in heap {
      var node := heap[v.a];
      if node.Arr? {
        VisitAllFresh(heap, node.buckets, seen + {v.a});
      } else if node.Ref? {
        VisitFresh(heap, node.val, seen + {v.a});
      } else {
        assert [v.a][1..] == [];
      }
    }
  }

  lemma {:induction false} VisitAllFresh(heap: Heap, bs: seq<Bucket>, seen: set<Addr>)
    ensures VisitAll(heap, bs, seen).Done? ==> FreshNodes(heap, VisitAll(heap, bs, seen).met, seen)
    decreases heap.Keys - seen, |bs| + 2
  {
    if bs != [] {
      var w := VisitBucket(heap, bs[0], seen);
      if !bs[0].Hole? {
        VisitFresh(heap, bs[0].val, seen);
      }
      if w.Done? {
        assert heap.Keys - (seen + Set(w.met)) <= heap.Keys - seen;
        VisitAllFresh(heap, bs[1..], seen + Set(w.met));
        FreshAppend(heap, w.met, VisitAll(heap, bs[1..], seen + Set(w.met)), seen);
      }
    }
  }

  lemma FreshAppend(heap: Heap, l: seq<Addr>, w: Walk, seen: set<Addr>)
    requires FreshNodes(heap, l, seen) && (w.Done? ==> FreshNodes(heap, w.met, seen + Set(l)))
    ensures Then(l, w).Done? ==> FreshNodes(heap, Then(l, w).met, seen)
  {
    if w.Done? {
      DistinctConcat(l, w.met);
    }
  }

  // ---- what a node takes in the image

  const HASHTABLE: nat := 56
  const REFERENCE: nat := 32

  /** ZEND_MM_ALIGNED_SIZE(_ZSTR_STRUCT_SIZE(len)) */
  function StringBytes(len: nat): (n: nat)
    ensures len + 25 <= n < len + 33 && n % 8 == 0
  {
    AlignWord(24 + len + 1)
  }

  /** The bucket array: HT_PACKED_USED_SIZE or HT_USED_SIZE. */
  function DataBytes(node: Node): (n: nat)
    requires node.Arr?
    ensures n % 8 == 0
  {
    AlignWord(if node.packed then 8 + 16 * |node.buckets| else 4 * node.slots + 32 * |node.buckets|)
  }

  function KeyBytes(b: Bucket): nat {
    if b.Bucket? && b.key.Name? then StringBytes(|b.key.s|) else 0
  }

  function KeysBytes(bs: seq<Bucket>): nat {
    if bs == [] then 0 else KeyBytes(bs[0]) + KeysBytes(bs[1..])
  }

  /** What persisting this node alone takes, without the nodes that it points to. */
  function NodeBytes(node: Node): nat {
    match node
    case Str(s) => StringBytes(|s|)
    case Arr(bs, _, _, _, _) => if NoElements(bs) then 0 else AlignWord(HASHTABLE) + DataBytes(node) + KeysBytes(bs)
    case Ref(_) => AlignWord(REFERENCE)
    case Obj => 0
    case Res => 0
  }

  function Bytes(heap: Heap, l: seq<Addr>): nat {
    if l == [] then 0 else (if l[0] in heap then NodeBytes(heap[l[0]]) else 0) + Bytes(heap, l[1..])
  }

  lemma {:induction false} BytesConcat(heap: Heap, a: seq<Addr>, b: seq<Addr>)
    ensures Bytes(heap, a + b) == Bytes(heap, a) + Bytes(heap, b)
  {
    if a == [] {
      assert a + b == b;
    } else {
      assert (a + b)[0] == a[0] && (a + b)[1..] == a[1..] + b;
      BytesConcat(heap, a[1..], b);
    }
  }

  /** An array without elements leads nowhere. */
  lemma {:induction false} NothingInside(heap: Heap, bs: seq<Bucket>, seen: set<Addr>)
    requires NoElements(bs)
    ensures VisitAll(heap, bs, seen) == Done([]) && KeysBytes(bs) == 0
    decreases |bs|
  {
    if bs != [] {
      assert bs[0].Hole? && NoElements(bs[1..]);
      assert seen + Set([]) == seen;
      NothingInside(heap, bs[1..], seen);
    }
  }

  // ---- walking bucket after bucket

  /** The walk through bs has met l before it comes to rest, and the nodes in seen are known. */
  ghost predicate Midway(heap: Heap, bs: seq<Bucket>, seen0: set<Addr>, l: seq<Addr>, rest: seq<Bucket>) {
    VisitAll(heap, bs, seen0) == Then(l, VisitAll(heap, rest, seen0 + Set(l)))
  }

  lemma MidwayStart(heap: Heap, bs: seq<Bucket>, seen: set<Addr>)
    ensures Midway(heap, bs, seen, [], bs)
  {
    assert seen + Set([]) == seen;
    var w := VisitAll(heap, bs, seen);
    assert w.Done? ==> [] + w.met == w.met;
  }

  lemma MidwayStep(heap: Heap, bs: seq<Bucket>, seen0: set<Addr>, l: seq<Addr>, rest: seq<Bucket>)
    requires Midway(heap, bs, seen0, l, rest) && rest != []
    ensures var w := VisitBucket(heap, rest[0], seen0 + Set(l));
            if w.Done? then
              && Midway(heap, bs, seen0, l + w.met, rest[1..]) && seen0 + Set(l + w.met) == seen0 + Set(l) + Set(w.met)
              && Bytes(heap, l + w.met) == Bytes(heap, l) + Bytes(heap, w.met)
            else VisitAll(heap, bs, seen0) == w
  {
    var w := VisitBucket(heap, rest[0], seen0 + Set(l));
    if w.Done? {
      assert seen0 + Set(l + w.met) == seen0 + Set(l) + Set(w.met);
      BytesConcat(heap, l, w.met);
      var z := VisitAll(heap, rest[1..], seen0 + Set(l + w.met));
      assert z.Done? ==> l + (w.met + z.met) == l + w.met + z.met;
    }
  }

  lemma MidwayEnd(heap: Heap, bs: seq<Bucket>, seen0: set<Addr>, l: seq<Addr>)
    requires Midway(heap, bs, seen0, l, [])
    ensures VisitAll(heap, bs, seen0) == Done(l)
  {
    assert l + [] == l;
  }
}
