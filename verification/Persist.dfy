/**
 apc_persist.c: persisting a value in two passes. The first counts the bytes, the second copies
 the value into one block of that size, in which all pointers are offsets from its start. Both
 passes remember what they have met, since a value may be shared or cyclic.
 */
module Persist {
  import opened Blocks
  import opened Graph

  /** Values in the image. While an array is being copied, it still has raw pointers. */
  datatype IVal = IPlain(n: int) | IOff(o: nat) | IRaw(v: Val)

  datatype IKey = IInt(n: int) | IName(o: nat)

  datatype IBucket = IHole | IBucket(key: IKey, val: IVal)

  datatype INode =
    | IStr(s: string)
    | IArr(buckets: seq<IBucket>, packed: bool, slots: nat, nextFree: int, cursor: nat, data: nat)
    | IRef(val: IVal)

  type Image = map<nat, INode>

  // ---- the first pass

  class Sizing {
    const heap: Heap
    var size: nat
    var counted: set<Addr>
    var useSerialization: bool

    constructor (heap: Heap)
      ensures this.heap == heap && size == 0 && counted == {} && !useSerialization
    {
      this.heap, size, counted, useSerialization := heap, 0, {}, false;
    }

    /** apc_persist_calc_zval, without serialization. It counts exactly the nodes that are met for
        the first time, and asks for serialization exactly if it comes upon an object. */
    method CalcVal(v: Val) returns (ok: bool)
      requires !useSerialization
      modifies this
      ensures ok <==> Visit(heap, v, old(counted)).Done?
      ensures useSerialization <==> Visit(heap, v, old(counted)).Object?
      ensures ok ==> counted == old(counted) + Set(Visit(heap, v, old(counted)).met)
      ensures ok ==> size == old(size) + Bytes(heap, Visit(heap, v, old(counted)).met)
      decreases heap.Keys - counted, 0
    {
      if !v.At? || v.a !in heap {
        return true;
      }
      if v.a in counted {
        return true;
      }
      ghost var seen := counted;
      counted := counted + {v.a};
      match heap[v.a]
      case Str(s) =>
        size := size + StringBytes(|s|);
        ok := true;
      case Arr(_, _, _, _, _) =>
        ok := CalcHt(v.a);
      case Ref(w) =>
        size := size + AlignWord(REFERENCE);
        ok := CalcVal(w);
      case Obj =>
        useSerialization := true;
        ok := false;
      case Res =>
        ok := false;
    }

    /** apc_persist_calc_ht */
    method CalcHt(a: Addr) returns (ok: bool)
      requires !useSerialization && a in heap && heap[a].Arr?
      modifies this
      ensures var w := VisitAll(heap, heap[a].buckets, old(counted));
              && (ok <==> w.Done?) && (useSerialization <==> w.Object?)
              && (ok ==> counted == old(counted) + Set(w.met))
              && (ok ==> size == old(size) + NodeBytes(heap[a]) + Bytes(heap, w.met))
      decreases heap.Keys - counted, |heap[a].buckets| + 2
    {
      var node := heap[a];
      if NoElements(node.buckets) {
        NothingInside(heap, node.buckets, counted);
        return true;
      }
      size := size + AlignWord(HASHTABLE);
      size := size + DataBytes(node);
      ghost var seen0, met, sum := counted, [], size + KeysBytes(node.buckets);
      MidwayStart(heap, node.buckets, counted);
      assert node.buckets[0..] == node.buckets && counted + Set([]) == counted;
      for idx := 0 to |node.buckets|
        invariant Midway(heap, node.buckets, seen0, met, node.buckets[idx..]) && !useSerialization
        invariant counted == seen0 + Set(met) && size + KeysBytes(node.buckets[idx..]) == sum + Bytes(heap, met)
      {
        ghost var rest := node.buckets[idx..];
        assert rest[0] == node.buckets[idx] && rest[1..] == node.buckets[idx + 1..];
        MidwayStep(heap, node.buckets, seen0, met, rest);
        ghost var w := VisitBucket(heap, rest[0], counted);
        ok := CalcBucket(node.buckets[idx]);
        if !ok {
          return;
        }
        met := met + w.met;
      }
      assert node.buckets[|node.buckets|..] == [];
      MidwayEnd(heap, node.buckets, seen0, met);
      return true;
    }

    /** One round of its loop. */
    method CalcBucket(b: Bucket) returns (ok: bool)
      requires !useSerialization
      modifies this
      ensures var w := VisitBucket(heap, b, old(counted));
              && (ok <==> w.Done?) && (useSerialization <==> w.Object?)
              && (ok ==> counted == old(counted) + Set(w.met) && size == old(size) + KeyBytes(b) + Bytes(heap, w.met))
      decreases heap.Keys - counted, 1
    {
      if b.Hole? {
        return true;
      }
      if b.key.Name? {
        size := size + StringBytes(|b.key.s|);
      }
      ok := CalcVal(b.val);
    }
  }
}
