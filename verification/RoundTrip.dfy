/** Storing a value and fetching it again. */
module RoundTrip {
  import opened Basics
  import opened Blocks
  import opened Copy
  import opened CopyPass
  import opened Graph
  import opened InDegree
  import opened Isomorphism
  import opened Persist
  import opened Reach
  import opened Restore
  import opened Unpersist

  /** What apc_persist leaves in the entry: a value with its image, or the string that a serializer
      made of it; or it fails. memSize is the size of the allocation. */
  datatype Stored = Failed | Serialized(bytes: seq<Byte>, memSize: nat) | Copied(val: IVal, image: Image, memSize: nat)

  /** Objects are always serialized, and arrays if a serializer is set. */
  predicate ToSerialize(heap: Heap, v: Val, serializer: bool) {
    if v.EmptyArray? then serializer else v.At? && v.a in heap && (heap[v.a].Obj? || (serializer && heap[v.a].Arr?))
  }

  /** apc_persist, with memory granted. text is what the serializer makes of the value, if it can. */
  method Store(heap: Heap, keyLength: nat, v: Val, serializer: bool, text: Option<seq<Byte>>)
    returns (r: Stored, ghost f: map<Addr, Addr>)
    requires Closed(heap) && Points(heap, v) && (v.At? ==> !heap[v.a].Ref?)
    ensures r.Copied? <==> !ToSerialize(heap, v, serializer) && Visit(heap, v, {}).Done?
    ensures r.Copied? ==> forall a :: a in Visit(heap, v, {}).met <==> Reached(heap, v, a)
    ensures r.Serialized? <==> (ToSerialize(heap, v, serializer) || Visit(heap, v, {}).Object?) && text.Some?
    ensures r.Copied? ==> Isomorphic(heap, v, Reading(r.image), AsVal(r.val), f)
    ensures r.Copied? ==> Readable(r.image, r.memSize) && SoundVal(r.image, r.val)
    ensures r.Copied? ==> r.memSize == EntryBytes(keyLength) + Bytes(heap, Visit(heap, v, {}).met)
    ensures r.Copied? ==> NoOverlap(heap, f, r.image, Visit(heap, v, {}).met, 120 + keyLength + 1, r.memSize)
    ensures r.Copied? ==>
      var met := Visit(heap, v, {}).met;
      var content := 120 + keyLength + 1 + ContentSum(heap, met);
      content <= r.memSize < content + 8 * (1 + PartSum(heap, met))
    ensures r.Serialized? ==>
      && r == Serialized(text.value, EntryBytes(keyLength) + StringBytes(|text.value|))
      && var content := 120 + keyLength + 1 + 24 + |text.value| + 1; content <= r.memSize < content + 16
  {
    hide Visit, Orderly, Closed, AllCopied, ValCopied, Isomorphic, Readable, Reading, NoOverlap, Reached;
    VisitsReachable(heap, v);
    f := map[];
    var serialize := ToSerialize(heap, v, serializer);
    if !serialize {
      var sizing := new Sizing(heap);
      sizing.size := EntryBytes(keyLength);
      var ok := sizing.CalcVal(v);
      if ok {
        r, f := CopyOut(heap, EntryBytes(keyLength), sizing.size, v);
        BytesHold(heap, Visit(heap, v, {}).met);
        MoreRoom(heap, f, r.image, Visit(heap, v, {}).met, EntryBytes(keyLength), 120 + keyLength + 1, r.memSize);
        return;
      }
      serialize := sizing.useSerialization;
    }
    if !serialize || text.None? {
      return Failed, f;
    }
    r := Serialized(text.value, EntryBytes(keyLength) + StringBytes(|text.value|));
  }

  lemma MoreRoom(heap: Heap, f: map<Addr, nat>, image: Image, l: seq<Addr>, lo: nat, lo': nat, hi: nat)
    requires NoOverlap(heap, f, image, l, lo, hi) && lo' <= lo
    ensures NoOverlap(heap, f, image, l, lo', hi)
  {
    hide PartAt;
  }

  /** apc_persist_create_entry: the second pass. It uses up exactly what the first has counted. */
  method CopyOut(heap: Heap, lo: nat, size: nat, v: Val) returns (r: Stored, ghost f: map<Addr, Addr>)
    requires Closed(heap) && Points(heap, v) && lo > 0 && lo % 8 == 0 && Visit(heap, v, {}).Done?
    requires size == lo + Bytes(heap, Visit(heap, v, {}).met)
    ensures r.Copied? && r.memSize == size && Isomorphic(heap, v, Reading(r.image), AsVal(r.val), f)
    ensures Readable(r.image, r.memSize) && SoundVal(r.image, r.val)
    ensures NoOverlap(heap, f, r.image, Visit(heap, v, {}).met, lo, size)
  {
    hide Visit, Orderly, Closed, AllCopied, ValCopied, Isomorphic, Readable, Reading, SoundVal, Grown, NoOverlap;
    ghost var met := Visit(heap, v, {}).met;
    var copying := new Copying(heap, lo, size);
    var iv := copying.CopyVal(v);
    assert copying.cur == size;  // ZEND_ASSERT(ctxt.alloc_cur == ctxt.alloc + ctxt.size)
    assert {} + Set(met) == Set(met);
    ImageIsomorphic(heap, copying.S(), lo, v, iv, met);
    ImageReadable(heap, copying.S(), lo, met);
    ValSound(heap, copying.S(), lo, v, iv);
    NodesApart(heap, copying.S(), lo, met);
    r, f := Copied(iv, copying.image, size), copying.alloc;
  }

  lemma ValSound(heap: Heap, s: State, lo: nat, v: Val, iv: IVal)
    requires Orderly(heap, s, lo) && ValCopied(heap, s, v, iv)
    ensures SoundVal(s.image, iv)
  {
  }

  /** apc_unpersist for a copied value. Every node gets as many references as there are pointers to
      it, from the result and from the nodes, each of which is counted once. */
  method Fetch(val: IVal, image: Image, memSize: nat)
    returns (v: Val, heap: Heap, refs: map<Addr, nat>, ghost g: map<Addr, Addr>, ghost met: seq<nat>)
    requires Readable(image, memSize) && SoundVal(image, val) && memSize > 0
    ensures exists f :: Isomorphic(Reading(image), AsVal(val), heap, v, f)
    ensures Isomorphic(Reading(image), AsVal(val), heap, v, g) && heap.Keys == g.Values
    ensures Distinct(met) && Set(met) == g.Keys
    ensures refs.Keys == heap.Keys
    ensures forall n :: n in heap ==> n in refs && refs[n] == |Places(heap, v, n)|
  {
    hide Readable, Reading, SoundVal, Counted, NodeMaps, Injective, Places, Targets, Total;
    var restoring := new Restoring(image, memSize);
    v, met := restoring.RestoreVal(val);
    heap, refs, g := restoring.heap, restoring.refs, restoring.memo;
    FetchDone(Reading(image), restoring.P(), AsVal(val), v, met);
    forall n | n in heap ensures refs[n] == |Places(heap, v, n)| {
      PointersCounted(heap, g, met, v, n);
    }
  }

  lemma FetchDone(g: Heap, r: Progress, v: Val, v': Val, met: seq<nat>)
    requires Counted(r) && FreshNodes(g, met, {}) && r.memo.Keys == Set(met) && AllMap(g, r, met)
    requires r.links == Targets(v') + Total(r.heap, r.memo, met) && Leads(g, r.memo, v) && v' == MapVal(g, r.memo, v)
    ensures Isomorphic(g, v, r.heap, v', r.memo) && r.heap.Keys == r.memo.Values && r.refs.Keys == r.heap.Keys
    ensures forall n :: n in r.heap ==> r.refs[n] == (Targets(v') + Total(r.heap, r.memo, met))[n]
    ensures Distinct(met)
  {
    hide NodeMaps, Total;
  }

  /** The main result: what is fetched is isomorphic to what was stored, for shared and cyclic values
      too, unless it leads to an object or a resource; and since Fetch does not change the image, the next
      fetch yields the same again. */
  method StoreThenFetch(heap: Heap, keyLength: nat, v: Val)
    returns (ok: bool, v': Val, heap': Heap, ghost f: map<Addr, Addr>)
    requires Closed(heap) && Points(heap, v) && (v.At? ==> !heap[v.a].Ref?)
    ensures ok <==> forall a :: Reached(heap, v, a) ==> !heap[a].Obj? && !heap[a].Res?
    ensures ok ==> Isomorphic(heap, v, heap', v', f)
  {
    VisitsReachable(heap, v);
    if v.At? { PathOne(heap, v.a); }
    hide Visit, Closed, Isomorphic, Readable, Reading, SoundVal, NoOverlap, Reached;
    ghost var image;
    var r;
    r, image := Store(heap, keyLength, v, false, None);
    ok, v', heap', f := r.Copied?, v, heap, map[];
    if ok {
      var refs;
      ghost var g, met;
      v', heap', refs, g, met := Fetch(r.val, r.image, r.memSize);
      IsomorphicTrans(heap, v, Reading(r.image), AsVal(r.val), heap', v', image, g);
      f := Composed(image, g);
    }
  }
}
