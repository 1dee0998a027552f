/** How many pointers lead to a node, counted place by place. */
module InDegree {
  import opened Basics
  import opened Graph
  import opened Isomorphism
  import opened Unpersist

  /** A place for a pointer: the result of a fetch, or the i-th value of node a. */
  datatype Place = Result | In(a: Addr, i: nat)

  function Width(node: Node): nat {
    match node
    case Arr(bs, _, _, _, _) => |bs|
    case Ref(_) => 1
    case _ => 0
  }

  predicate LeadsTo(node: Node, i: nat, n: Addr) {
    match node
    case Arr(bs, _, _, _, _) => i < |bs| && bs[i].Bucket? && bs[i].val == At(n)
    case Ref(v) => i == 0 && v == At(n)
    case _ => false
  }

  /** The places in the nodes at places that hold a pointer to n. */
  function PlacesIn(heap: Heap, nodes: set<Addr>, n: Addr): set<Place> {
    set a, i | a in nodes && a in heap && 0 <= i < Width(heap[a]) && LeadsTo(heap[a], i, n) :: In(a, i)
  }

  /** All places that hold a pointer to n. */
  function Places(heap: Heap, v: Val, n: Addr): set<Place> {
    (if v == At(n) then {Result} else {}) + PlacesIn(heap, heap.Keys, n)
  }

  function BucketPlaces(a: Addr, bs: seq<Bucket>, k: nat, n: Addr): set<Place>
    requires k <= |bs|
  {
    set i: nat | 0 <= i < k && bs[i].Bucket? && bs[i].val == At(n) :: In(a, i)
  }

  lemma {:induction false} BucketsCounted(a: Addr, bs: seq<Bucket>, k: nat, n: Addr)
    requires k <= |bs|
    ensures BucketTargets(bs[..k])[n] == |BucketPlaces(a, bs, k, n)|
  {
    if k > 0 {
      var l := k - 1;
      BucketsCounted(a, bs, l, n);
      assert bs[..k][..l] == bs[..l];
      assert BucketPlaces(a, bs, k, n) ==
        BucketPlaces(a, bs, l, n) + if bs[l].Bucket? && bs[l].val == At(n) then {In(a, l)} else {};
    }
  }

  lemma NodeCounted(heap: Heap, a: Addr, n: Addr)
    requires a in heap
    ensures NodeTargets(heap[a])[n] == |PlacesIn(heap, {a}, n)|
  {
    match heap[a]
    case Arr(bs, _, _, _, _) =>
      BucketsCounted(a, bs, |bs|, n);
      assert bs[..|bs|] == bs;
      assert PlacesIn(heap, {a}, n) == BucketPlaces(a, bs, |bs|, n);
    case Ref(v) =>
      assert PlacesIn(heap, {a}, n) == if v == At(n) then {In(a, 0)} else {};
    case _ =>
      assert PlacesIn(heap, {a}, n) == {};
  }

  function Copies(memo: map<nat, Addr>, l: seq<nat>): set<Addr> {
    set o | o in l && o in memo :: memo[o]
  }

  lemma {:induction false} NodesCounted(heap: Heap, memo: map<nat, Addr>, l: seq<nat>, n: Addr)
    requires Distinct(l) && Injective(memo) && forall o :: o in l ==> o in memo && memo[o] in heap
    ensures Total(heap, memo, l)[n] == |PlacesIn(heap, Copies(memo, l), n)|
  {
    if l == [] {
      assert PlacesIn(heap, Copies(memo, l), n) == {};
    } else {
      var a, rest := memo[l[0]], Copies(memo, l[1..]);
      NodesCounted(heap, memo, l[1..], n);
      NodeCounted(heap, a, n);
      assert Copies(memo, l) == {a} + rest && a !in rest;
      assert PlacesIn(heap, {a} + rest, n) == PlacesIn(heap, {a}, n) + PlacesIn(heap, rest, n);
      assert PlacesIn(heap, {a}, n) !! PlacesIn(heap, rest, n);
    }
  }

  /** The pointers of the result and of all nodes to n are as many as there are places that hold one. */
  lemma PointersCounted(heap: Heap, memo: map<nat, Addr>, met: seq<nat>, v: Val, n: Addr)
    requires Distinct(met) && Set(met) == memo.Keys && Injective(memo) && heap.Keys == memo.Values
    ensures (Targets(v) + Total(heap, memo, met))[n] == |Places(heap, v, n)|
  {
    forall o | o in met ensures o in memo && memo[o] in heap {
      assert o in Set(met);
      assert memo[o] in memo.Values;
    }
    forall o | o in memo ensures o in met {
      assert o in Set(met);
    }
    NodesCounted(heap, memo, met, n);
    assert Copies(memo, met) == memo.Values;
    assert Places(heap, v, n) == (if v == At(n) then {Result} else {}) + PlacesIn(heap, heap.Keys, n);
    assert Result !in PlacesIn(heap, heap.Keys, n);
  }
}
