/**
 The functions of apc_persist.c that copy a value out of an entry.

 The class keeps the new nodes, the reference counts they have so far, and the memo that tells
 which node of the image became which. The lemmas say what one step of a method adds to that, and
 that it does not take back anything: references only become more, nodes stay what they are once
 they are complete, and the memo only grows.
 */
module Restore {
  import opened Basics
  import opened Copy
  import opened Graph
  import opened Isomorphism
  import opened Persist
  import opened Unpersist

  // ---- growth

  lemma FurtherTrans(r: Progress, r': Progress, r'': Progress, n: nat)
    requires Further(r, r', n) && Further(r', r'', n)
    ensures Further(r, r'', n)
  {
  }

  lemma NodeFurther(g: Heap, r: Progress, r': Progress, n: nat, o: nat)
    requires NodeMaps(g, r.heap, r.memo, o) && Further(r, r', n) && r.memo[o] != n
    ensures NodeMaps(g, r'.heap, r'.memo, o)
  {
    if g[o].Arr? {
      var bs, bs' := g[o].buckets, r.heap[r.memo[o]].buckets;
      forall i | 0 <= i < |bs| ensures BucketMaps(g, r'.memo, bs[i], bs'[i]) {
      }
    }
  }

  /** The copies of the nodes l are there, and none of them is n. */
  ghost predicate Clear(r: Progress, l: seq<nat>, n: nat) {
    forall o :: o in l ==> o in r.memo && r.memo[o] in r.heap && r.memo[o] != n
  }

  lemma AllFurther(g: Heap, r: Progress, r': Progress, n: nat, l: seq<nat>)
    requires AllMap(g, r, l) && Further(r, r', n) && Clear(r, l, n)
    ensures AllMap(g, r', l)
  {
    hide NodeMaps;
    forall o | o in l ensures NodeMaps(g, r'.heap, r'.memo, o) {
      assert NodeMaps(g, r.heap, r.memo, o);
      NodeFurther(g, r, r', n, o);
    }
  }

  lemma {:induction false} TotalFurther(r: Progress, r': Progress, n: nat, l: seq<nat>)
    requires Further(r, r', n) && Clear(r, l, n)
    ensures Total(r'.heap, r'.memo, l) == Total(r.heap, r.memo, l)
  {
    if l != [] {
      assert l[0] in l && forall o :: o in l[1..] ==> o in l;
      TotalFurther(r, r', n, l[1..]);
    }
  }

  // ---- the steps

  /** A new node n is the copy of o, and something points to it. */
  function Born(r: Progress, o: nat, node: Node): Progress {
    Progress(r.heap[r.top := node], r.memo[o := r.top], r.refs[r.top := 1], r.links + multiset{r.top}, r.top + 1)
  }

  lemma BornCounted(r: Progress, o: nat, node: Node)
    requires Counted(r) && o !in r.memo
    ensures Counted(Born(r, o, node)) && Further(r, Born(r, o, node), r.top) && r.top !in r.heap
  {
    hide Injective, CountsLinks;
    BornLinks(r.heap.Keys, r.refs, r.links, r.top);
    BornMemo(r.memo, o, r.top);
    assert r.heap[r.top := node].Keys == r.heap.Keys + {r.top};
  }

  lemma BornLinks(nodes: set<Addr>, refs: map<Addr, nat>, links: multiset<Addr>, n: nat)
    requires CountsLinks(nodes, refs, links, n)
    ensures n !in nodes && CountsLinks(nodes + {n}, refs[n := 1], links + multiset{n}, n + 1)
  {
    assert n in links ==> n in nodes;
  }

  lemma BornMemo(memo: map<nat, Addr>, o: nat, n: Addr)
    requires Injective(memo) && o !in memo && n !in memo.Values
    ensures Injective(memo[o := n]) && memo[o := n].Values == memo.Values + {n}
  {
    var memo' := memo[o := n];
    assert o in memo' && memo'[o] == n;
    forall x | x in memo.Values ensures x in memo'.Values {
      var p :| p in memo && memo[p] == x;
      assert p in memo' && memo'[p] == x;
    }
    assert forall p :: p in memo ==> memo[p] in memo.Values;
  }

  function Hit(r: Progress, n: Addr): Progress {
    r.(refs := r.refs[n := (if n in r.refs then r.refs[n] else 0) + 1], links := r.links + multiset{n})
  }

  /** A node that has been copied before gets one more reference. */
  lemma HitFetched(g: Heap, r: Progress, o: nat)
    requires Counted(r) && o in r.memo && o in g && !IsEmptyArray(g, o)
    ensures Fetched(g, r, Hit(r, r.memo[o]), At(o), At(r.memo[o]), [])
  {
    var r' := Hit(r, r.memo[o]);
    assert r.memo[o] in r.memo.Values;
    assert Set([]) == {};
    assert r.links + multiset{r.memo[o]} + multiset{} == r.links + multiset{r.memo[o]};
  }

  lemma NothingFetched(g: Heap, r: Progress, v: Val)
    requires Counted(r) && !v.At?
    ensures Fetched(g, r, r, v, v, [])
  {
    hide Counted, NodeMaps, IsEmptyArray;
    assert Set([]) == {};
    assert r.links + multiset{} == r.links;
  }

  lemma StrFetched(g: Heap, r: Progress, o: nat, s: string)
    requires Counted(r) && o !in r.memo && o in g && g[o] == Str(s)
    ensures Fetched(g, r, Born(r, o, Str(s)), At(o), At(r.top), [o])
  {
    hide Counted, Further, FreshNodes, AllMap, Total;
    BornCounted(r, o, Str(s));
    var r' := Born(r, o, Str(s));
    OneFresh(g, o, r.memo.Keys);
    assert r'.memo.Keys == r.memo.Keys + Set([o]);
    StrTotal(r', o, s);
    StrMaps(g, r', o, s);
    assert r.links + multiset{r.top} + multiset{} == r.links + multiset{r.top};
  }

  lemma StrTotal(r: Progress, o: nat, s: string)
    requires o in r.memo && r.memo[o] in r.heap && r.heap[r.memo[o]] == Str(s)
    ensures Total(r.heap, r.memo, [o]) == multiset{}
  {
    assert [o][1..] == [];
  }

  lemma StrMaps(g: Heap, r: Progress, o: nat, s: string)
    requires o in g && g[o] == Str(s) && o in r.memo && r.memo[o] in r.heap && r.heap[r.memo[o]] == Str(s)
    ensures AllMap(g, r, [o])
  {
  }

  lemma OneFresh(g: Heap, o: nat, seen: set<nat>)
    requires o in g && o !in seen
    ensures FreshNodes(g, [o], seen)
  {
    assert [o][1..] == [];
  }

  /** The node at n is rewritten. */
  function Rewritten(r: Progress, n: Addr, node: Node): Progress {
    r.(heap := r.heap[n := node])
  }

  lemma RewrittenCounted(r: Progress, n: Addr, node: Node)
    requires Counted(r) && n in r.heap
    ensures Counted(Rewritten(r, n, node)) && Further(r, Rewritten(r, n, node), n)
  {
  }

  /** Nodes met inside o are not o, so their copies are not n. */
  lemma InsideClear(g: Heap, r1: Progress, r2: Progress, o: nat, n: Addr, met: seq<nat>)
    requires Counted(r2) && o in r1.memo && o in r2.memo && r2.memo[o] == n && FreshNodes(g, met, r1.memo.Keys)
    requires r2.memo.Keys == r1.memo.Keys + Set(met)
    ensures Clear(r2, met, n) && o !in met
  {
    hide Distinct;
  }

  /** A node that leads further is complete once its contents are: at r1 its copy n was born with raw
      contents, at r2 the nodes inside have been met, and node is what n finally holds. */
  lemma Completed(g: Heap, r: Progress, r1: Progress, r2: Progress, o: nat, n: Addr, node: Node, met: seq<nat>)
    requires Counted(r) && o !in r.memo && o in g && !IsEmptyArray(g, o) && n == r.top
    requires o in r1.memo && r1.memo[o] == n && r1.memo.Keys == r.memo.Keys + {o} && r1.links == r.links + multiset{n}
    requires Further(r, r1, n)
    requires Counted(r2) && Further(r1, r2, n) && n in r2.heap && FreshNodes(g, met, r1.memo.Keys)
    requires r2.memo.Keys == r1.memo.Keys + Set(met) && AllMap(g, r2, met)
    requires r2.links == r1.links + NodeTargets(node) + Total(r2.heap, r2.memo, met)
    requires NodeMaps(g, Rewritten(r2, n, node).heap, r2.memo, o)
    ensures Fetched(g, r, Rewritten(r2, n, node), At(o), At(n), [o] + met)
  {
    hide NodeMaps, Counted, Further, FreshNodes, AllMap, Clear, IsEmptyArray, Total, NodeTargets;
    var r3 := Rewritten(r2, n, node);
    MemoFurther(r1, r2, n, o);
    InsideClear(g, r1, r2, o, n, met);
    RewrittenCounted(r2, n, node);
    AllFurther(g, r2, r3, n, met);
    TotalFurther(r2, r3, n, met);
    FurtherTrans(r, r1, r2, n);
    FurtherTrans(r, r2, r3, n);
    FreshFirst(g, o, met, r.memo.Keys);
    TotalFirst(r3, o, n, met);
    AllMapFirst(g, r3, o, met);
    assert Set([o] + met) == {o} + Set(met);
    assert r.memo.Keys + {o} + Set(met) == r.memo.Keys + Set([o] + met);
    assert r.links + multiset{n} + NodeTargets(node) + Total(r3.heap, r3.memo, met)
        == r.links + multiset{n} + (NodeTargets(node) + Total(r3.heap, r3.memo, met));
  }

  lemma MemoFurther(r: Progress, r': Progress, n: nat, o: nat)
    requires Further(r, r', n) && o in r.memo
    ensures o in r'.memo && r'.memo[o] == r.memo[o]
  {
  }

  lemma FreshFirst(g: Heap, o: nat, met: seq<nat>, seen: set<nat>)
    requires o in g && o !in seen && FreshNodes(g, met, seen + {o})
    ensures FreshNodes(g, [o] + met, seen)
  {
  }

  lemma TotalFirst(r: Progress, o: nat, n: Addr, met: seq<nat>)
    requires o in r.memo && r.memo[o] == n && n in r.heap
    ensures Total(r.heap, r.memo, [o] + met) == NodeTargets(r.heap[n]) + Total(r.heap, r.memo, met)
  {
    assert ([o] + met)[1..] == met;
  }

  lemma AllMapFirst(g: Heap, r: Progress, o: nat, met: seq<nat>)
    requires NodeMaps(g, r.heap, r.memo, o) && AllMap(g, r, met)
    ensures AllMap(g, r, [o] + met)
  {
  }

  // ---- loading the buckets of an array

  /** Copying has gone from r1 to r; n is being worked on, and the nodes met were found inside. */
  ghost predicate Inside(g: Heap, r1: Progress, r: Progress, n: Addr, met: seq<nat>) {
    && Counted(r) && Further(r1, r, n) && n in r.heap
    && FreshNodes(g, met, r1.memo.Keys) && r.memo.Keys == r1.memo.Keys + Set(met) && AllMap(g, r, met)
  }

  /** The first idx buckets have been restored, and the others are as in the image. */
  ghost predicate Partly(g: Heap, memo: map<nat, Addr>, bs: seq<Bucket>, bs': seq<Bucket>, idx: nat) {
    && |bs'| == |bs| && idx <= |bs|
    && (forall j :: 0 <= j < idx ==> BucketMaps(g, memo, bs[j], bs'[j]))
    && (forall j :: idx <= j < |bs| ==> bs'[j] == bs[j])
  }

  ghost predicate Loading(g: Heap, r1: Progress, r: Progress, bs: seq<Bucket>, n: Addr, idx: nat, met: seq<nat>) {
    && Inside(g, r1, r, n, met) && r.heap[n].Arr? && Partly(g, r.memo, bs, r.heap[n].buckets, idx)
    && r.links == r1.links + BucketTargets(r.heap[n].buckets[..idx]) + Total(r.heap, r.memo, met)
  }

  /** Same array apart from its buckets. */
  predicate SameArray(node: Node, node': Node) {
    node.Arr? && node'.Arr? && node' == node.(buckets := node'.buckets)
  }

  lemma TargetsNext(bs: seq<Bucket>, idx: nat)
    requires idx < |bs|
    ensures BucketTargets(bs[..idx + 1]) ==
      BucketTargets(bs[..idx]) + if bs[idx].Bucket? then Targets(bs[idx].val) else multiset{}
  {
    assert bs[..idx + 1][..idx] == bs[..idx];
  }

  lemma LoadHole(g: Heap, r1: Progress, r: Progress, bs: seq<Bucket>, n: Addr, idx: nat, met: seq<nat>)
    requires Loading(g, r1, r, bs, n, idx, met) && idx < |bs| && bs[idx].Hole?
    ensures Loading(g, r1, r, bs, n, idx + 1, met)
  {
    hide Inside, Partly, BucketTargets, Total, BucketMaps;
    LoadingIs(g, r1, r, bs, n, idx, met);
    PartlyHole(g, r.memo, bs, r.heap[n].buckets, idx);
    TargetsNext(r.heap[n].buckets, idx);
    assert BucketTargets(r.heap[n].buckets[..idx]) + multiset{} == BucketTargets(r.heap[n].buckets[..idx]);
  }

  lemma PartlyHole(g: Heap, memo: map<nat, Addr>, bs: seq<Bucket>, bs': seq<Bucket>, idx: nat)
    requires Partly(g, memo, bs, bs', idx) && idx < |bs| && bs[idx].Hole?
    ensures Partly(g, memo, bs, bs', idx + 1) && bs'[idx].Hole?
  {
  }

  lemma FetchedParts(g: Heap, r: Progress, r': Progress, v: Val, v': Val, l: seq<nat>, n: Addr)
    requires Counted(r) && Fetched(g, r, r', v, v', l) && n in r.heap
    ensures Counted(r') && Further(r, r', n) && n in r'.heap && r'.heap[n] == r.heap[n]
    ensures FreshNodes(g, l, r.memo.Keys) && r'.memo.Keys == r.memo.Keys + Set(l) && AllMap(g, r', l)
    ensures r'.links == r.links + Targets(v') + Total(r'.heap, r'.memo, l) && Leads(g, r'.memo, v)
    ensures v' == MapVal(g, r'.memo, v)
  {
  }

  lemma InsideParts(g: Heap, r1: Progress, r: Progress, o: nat, n: Addr, met: seq<nat>)
    requires Inside(g, r1, r, n, met) && o in r1.memo && r1.memo[o] == n
    ensures Counted(r) && Further(r1, r, n) && n in r.heap && o in r.memo && r.memo[o] == n
    ensures FreshNodes(g, met, r1.memo.Keys) && r.memo.Keys == r1.memo.Keys + Set(met) && AllMap(g, r, met)
  {
  }

  /** One value further inside. */
  lemma InsideStep(g: Heap, r1: Progress, r: Progress, r': Progress, o: nat, n: Addr, node: Node, met: seq<nat>,
                   v: Val, v': Val, l: seq<nat>)
    requires Inside(g, r1, r, n, met) && Fetched(g, r, r', v, v', l) && o in r1.memo && r1.memo[o] == n
    ensures Inside(g, r1, Rewritten(r', n, node), n, met + l) && Further(r, Rewritten(r', n, node), n)
    ensures n in r.heap && n in r'.heap && r'.heap[n] == r.heap[n]
    ensures Clear(r, met, n) && Clear(r', l, n)
  {
    hide Counted, Further, FreshNodes, AllMap, Clear, Fetched, Inside;
    var r'' := Rewritten(r', n, node);
    InsideParts(g, r1, r, o, n, met);
    FetchedParts(g, r, r', v, v', l, n);
    InsideClear(g, r1, r, o, n, met);
    FetchedClear(g, r, r', o, n, l);
    RewrittenCounted(r', n, node);
    FurtherTrans(r, r', r'', n);
    FurtherTrans(r1, r, r'', n);
    BothMap(g, r, r', r'', n, met, l);
    BothFresh(g, met, l, r1.memo.Keys);
    InsideIs(g, r1, r'', n, met + l);
  }

  lemma BothMap(g: Heap, r: Progress, r': Progress, r'': Progress, n: Addr, met: seq<nat>, l: seq<nat>)
    requires AllMap(g, r, met) && Further(r, r'', n) && Clear(r, met, n)
    requires AllMap(g, r', l) && Further(r', r'', n) && Clear(r', l, n)
    ensures AllMap(g, r'', met + l)
  {
    hide *;
    AllFurther(g, r, r'', n, met);
    AllFurther(g, r', r'', n, l);
    AllMapConcat(g, r'', met, l);
  }

  lemma BothFresh(g: Heap, met: seq<nat>, l: seq<nat>, seen: set<nat>)
    requires FreshNodes(g, met, seen) && FreshNodes(g, l, seen + Set(met))
    ensures FreshNodes(g, met + l, seen) && seen + Set(met) + Set(l) == seen + Set(met + l)
  {
    hide FreshNodes;
    FreshAppend(g, met, Done(l), seen);
  }

  lemma FetchedClear(g: Heap, r: Progress, r': Progress, o: nat, n: Addr, l: seq<nat>)
    requires Counted(r') && Further(r, r', n) && o in r.memo && r.memo[o] == n
    requires FreshNodes(g, l, r.memo.Keys) && r'.memo.Keys == r.memo.Keys + Set(l)
    ensures Clear(r', l, n)
  {
    MemoFurther(r, r', n, o);
    InsideClear(g, r, r', o, n, l);
  }

  lemma AllMapConcat(g: Heap, r: Progress, l: seq<nat>, l': seq<nat>)
    requires AllMap(g, r, l) && AllMap(g, r, l')
    ensures AllMap(g, r, l + l')
  {
    hide NodeMaps;
  }

  lemma InsideIs(g: Heap, r1: Progress, r: Progress, n: Addr, met: seq<nat>)
    requires Counted(r) && Further(r1, r, n) && n in r.heap
    requires FreshNodes(g, met, r1.memo.Keys) && r.memo.Keys == r1.memo.Keys + Set(met) && AllMap(g, r, met)
    ensures Inside(g, r1, r, n, met)
  {
  }

  lemma PartlyStep(g: Heap, r: Progress, r': Progress, n: Addr, bs: seq<Bucket>, bs': seq<Bucket>, idx: nat, b': Bucket)
    requires Partly(g, r.memo, bs, bs', idx) && idx < |bs| && Further(r, r', n) && BucketMaps(g, r'.memo, bs[idx], b')
    ensures Partly(g, r'.memo, bs, bs'[idx := b'], idx + 1)
  {
    forall j | 0 <= j < idx ensures BucketMaps(g, r'.memo, bs[j], bs'[j]) {
    }
  }

  lemma LinksStep(r1: Progress, r: Progress, r': Progress, n: Addr, node: Node, bs': seq<Bucket>, idx: nat, b': Bucket,
                  met: seq<nat>, l: seq<nat>)
    requires idx < |bs'| && b'.Bucket? && n in r'.heap
    requires r.links == r1.links + BucketTargets(bs'[..idx]) + Total(r.heap, r.memo, met)
    requires r'.links == r.links + Targets(b'.val) + Total(r'.heap, r'.memo, l)
    requires Further(r, Rewritten(r', n, node), n) && Clear(r, met, n) && Clear(r', l, n)
    requires Further(r', Rewritten(r', n, node), n)
    ensures var r'' := Rewritten(r', n, node);
            r''.links == r1.links + BucketTargets(bs'[idx := b'][..idx + 1]) + Total(r''.heap, r''.memo, met + l)
  {
    hide Further, Clear, BucketTargets, Total, Targets;
    var r'' := Rewritten(r', n, node);
    TotalFurther(r, r'', n, met);
    TotalFurther(r', r'', n, l);
    TotalConcat(r''.heap, r''.memo, met, l);
    TargetsNext(bs'[idx := b'], idx);
    assert bs'[idx := b'][..idx] == bs'[..idx];
  }

  /** The value of bucket idx has been restored: v is the new value, l the nodes met on the way. */
  lemma LoadBucket(g: Heap, r1: Progress, r: Progress, r': Progress, bs: seq<Bucket>, o: nat, n: Addr, idx: nat,
                   met: seq<nat>, v: Val, l: seq<nat>)
    requires Loading(g, r1, r, bs, n, idx, met) && idx < |bs| && bs[idx].Bucket? && o in r1.memo && r1.memo[o] == n
    requires Fetched(g, r, r', bs[idx].val, v, l)
    ensures n in r.heap && r.heap[n].Arr? && |r.heap[n].buckets| == |bs| && n in r'.heap && r'.heap[n] == r.heap[n]
    ensures var node := r.heap[n].(buckets := r.heap[n].buckets[idx := Bucket(bs[idx].key, v)]);
            Loading(g, r1, Rewritten(r', n, node), bs, n, idx + 1, met + l)
  {
    hide Counted, Further, FreshNodes, AllMap, Clear, Fetched, Inside, Partly, BucketTargets, Total, Targets;
    LoadingIs(g, r1, r, bs, n, idx, met);
    var b' := Bucket(bs[idx].key, v);
    var node := r.heap[n].(buckets := r.heap[n].buckets[idx := b']);
    InsideStep(g, r1, r, r', o, n, node, met, bs[idx].val, v, l);
    InsideParts(g, r1, r, o, n, met);
    FetchedParts(g, r, r', bs[idx].val, v, l, n);
    PartlyStep(g, r, Rewritten(r', n, node), n, bs, r.heap[n].buckets, idx, b');
    RewrittenCounted(r', n, node);
    LinksStep(r1, r, r', n, node, r.heap[n].buckets, idx, b', met, l);
  }

  lemma LoadingIs(g: Heap, r1: Progress, r: Progress, bs: seq<Bucket>, n: Addr, idx: nat, met: seq<nat>)
    requires Loading(g, r1, r, bs, n, idx, met)
    ensures Inside(g, r1, r, n, met) && n in r.heap && r.heap[n].Arr? && Partly(g, r.memo, bs, r.heap[n].buckets, idx)
    ensures |r.heap[n].buckets| == |bs|
    ensures r.links == r1.links + BucketTargets(r.heap[n].buckets[..idx]) + Total(r.heap, r.memo, met)
  {
  }

  /** All buckets have been restored. */
  lemma Loaded(g: Heap, r: Progress, bs: seq<Bucket>, o: nat, n: Addr)
    requires o in g && g[o].Arr? && g[o].buckets == bs && o in r.memo && r.memo[o] == n && n in r.heap
    requires !NoElements(bs)
    requires SameArray(g[o], r.heap[n]) && Partly(g, r.memo, bs, r.heap[n].buckets, |bs|)
    requires g[o].nextFree == NextFree(bs) && g[o].cursor == FirstUsed(bs)
    ensures NodeMaps(g, r.heap, r.memo, o)
  {
    hide NoElements, NextFree, FirstUsed, BucketMaps;
  }

  /** The first bucket is about to be restored. */
  lemma LoadStart(g: Heap, r1: Progress, bs: seq<Bucket>, n: Addr)
    requires Counted(r1) && n in r1.heap && r1.heap[n].Arr? && r1.heap[n].buckets == bs
    ensures Loading(g, r1, r1, bs, n, 0, [])
  {
    assert Set([]) == {} && r1.heap[n].buckets[..0] == [];
    assert r1.links + multiset{} + multiset{} == r1.links;
  }

  // ---- the class

  class Restoring {
    const image: Image
    const memSize: nat
    var heap: Heap
    var memo: map<nat, Addr>
    var refs: map<Addr, nat>
    var top: nat
    ghost var links: multiset<Addr>

    ghost function P(): Progress
      reads this
    {
      Progress(heap, memo, refs, links, top)
    }

    constructor (image: Image, memSize: nat)
      ensures this.image == image && this.memSize == memSize && Counted(P()) && memo == map[] && links == multiset{}
    {
      this.image, this.memSize, heap, memo, refs, top, links := image, memSize, map[], map[], map[], 0, multiset{};
    }

    ghost predicate Ready()
      reads this
    {
      Counted(P()) && Readable(image, memSize) && memSize > 0 && memo.Keys <= image.Keys
    }

    /** emalloc of a copy of o, with a reference count of 1. */
    method Bear(o: nat, node: Node) returns (n: Addr)
      requires Counted(P()) && o !in memo
      modifies this
      ensures P() == Born(old(P()), o, node) && n == old(top) && memo.Keys == old(memo).Keys + {o}
    {
      n := top;
      heap, memo, refs, links, top := heap[n := node], memo[o := n], refs[n := 1], links + multiset{n}, top + 1;
    }

    /** apc_unpersist_zval: the nodes met are restored, and the value is the translated one. */
    method RestoreVal(iv: IVal) returns (v: Val, ghost met: seq<nat>)
      requires Ready() && SoundVal(image, iv)
      modifies this
      ensures Ready() && Fetched(Reading(image), old(P()), P(), AsVal(iv), v, met)
      decreases image.Keys - memo.Keys, 1
    {
      hide Counted, Readable, Fetched, IsEmptyArray;
      ghost var r, g := P(), Reading(image);
      met := [];
      match iv
      case IPlain(x) =>
        NothingFetched(g, r, Plain(x));
        v := Plain(x);
      case IRaw(_) =>
        assert false;
      case IOff(o) =>
        ReadableAt(image, memSize, o);
        assert o < memSize;  // apc_unpersist_compute_pointer
        if o in memo {
          HitFetched(g, r, o);
          MemoIn(r, o);
          v := At(memo[o]);
          refs, links := refs[memo[o] := refs[memo[o]] + 1], links + multiset{memo[o]};
          return;
        }
        if o == 0 {
          NothingFetched(g, r, EmptyArray);
          v := EmptyArray;
          return;
        }
        var n: nat;
        match image[o] {
          case IStr(_) => n, met := RestoreStr(o);
          case IRef(_) => n, met := RestoreRef(o);
          case IArr(_, _, _, _, _, _) => n, met := RestoreHt(o);
        }
        v := At(n);
    }

    /** apc_unpersist_zstr */
    method RestoreStr(o: nat) returns (n: Addr, ghost met: seq<nat>)
      requires Ready() && o in image && image[o].IStr? && o !in memo
      modifies this
      ensures Ready() && Fetched(Reading(image), old(P()), P(), At(o), At(n), met)
    {
      hide Counted, Fetched;
      StrFetched(Reading(image), P(), o, image[o].s);
      BornCounted(P(), o, Str(image[o].s));
      n := Bear(o, Str(image[o].s));
      met := [o];
    }

    /** apc_unpersist_ht. The assertion that the array has elements holds. */
    method RestoreHt(o: nat) returns (n: Addr, ghost met: seq<nat>)
      requires Ready() && o in image && image[o].IArr? && o !in memo
      modifies this
      ensures Ready() && Fetched(Reading(image), old(P()), P(), At(o), At(n), met)
      decreases image.Keys - memo.Keys, 0
    {
      hide Counted, Readable, Fetched, Further, FreshNodes, AllMap, NodeMaps, Loading, Inside, Partly, BucketTargets,
        NextFree, FirstUsed,
        NoElements, IsEmptyArray, AsBucket;
      ghost var r, g := P(), Reading(image);
      SoundArray(image, memSize, o);
      var raw := AsNode(image, image[o]);
      assert !NoElements(raw.buckets);
      BornCounted(r, o, raw);
      n := Bear(o, raw);
      ghost var r1 := P();
      met := [];
      LoadStart(g, r1, raw.buckets, n);
      for idx := 0 to |image[o].buckets|
        invariant Loading(g, r1, P(), raw.buckets, n, idx, met) && n in heap && SameArray(raw, heap[n])
        invariant o in memo && r1.memo.Keys <= memo.Keys && Ready()
      {
        ghost var l := RestoreBucket(o, n, idx, r1, met);
        met := met + l;
      }
      LoadingIs(g, r1, P(), raw.buckets, n, |raw.buckets|, met);
      InsideParts(g, r1, P(), o, n, met);
      Loaded(g, P(), raw.buckets, o, n);
      WholeTargets(heap[n]);
      assert heap[n := heap[n]] == heap;
      Completed(g, r, r1, P(), o, n, heap[n], met);
      met := [o] + met;
    }

    /** One round of its loop. */
    method RestoreBucket(o: nat, n: Addr, idx: nat, ghost r1: Progress, ghost met: seq<nat>) returns (ghost l: seq<nat>)
      requires Ready() && o in image && image[o].IArr? && idx < |image[o].buckets|
      requires var raw := AsNode(image, image[o]);
               && Loading(Reading(image), r1, P(), raw.buckets, n, idx, met) && n in heap && SameArray(raw, heap[n])
               && o in r1.memo && r1.memo[o] == n && o in memo && r1.memo.Keys <= memo.Keys
      modifies this
      ensures var raw := AsNode(image, image[o]);
              && Loading(Reading(image), r1, P(), raw.buckets, n, idx + 1, met + l) && n in heap
              && SameArray(raw, heap[n])
              && o in memo && r1.memo.Keys <= memo.Keys && Ready()
      decreases image.Keys - memo.Keys, 2
    {
      hide Counted, Readable, Fetched, Further, FreshNodes, AllMap, NodeMaps, Loading, Inside, Partly, BucketTargets,
        NextFree, FirstUsed,
        NoElements, IsEmptyArray, AsKey, AsVal;
      ghost var r, g, bs := P(), Reading(image), AsNode(image, image[o]).buckets;
      var ib := image[o].buckets[idx];
      if ib.IHole? {
        LoadHole(g, r1, r, bs, n, idx, met);
        assert met + [] == met;
        l := [];
        return;
      }
      SoundAt(image, memSize, o, idx);
      var v;
      v, l := RestoreVal(ib.val);
      ghost var r2 := P();
      LoadBucket(g, r1, r, r2, bs, o, n, idx, met, v, l);
      heap := heap[n := heap[n].(buckets := heap[n].buckets[idx := Bucket(AsKey(image, ib.key), v)])];
      assert P() == Rewritten(r2, n, heap[n]);
      LoadingIs(g, r1, P(), bs, n, idx + 1, met + l);
      InsideParts(g, r1, P(), o, n, met + l);
    }

    /** apc_unpersist_ref */
    method RestoreRef(o: nat) returns (n: Addr, ghost met: seq<nat>)
      requires Ready() && o in image && image[o].IRef? && o !in memo
      modifies this
      ensures Ready() && Fetched(Reading(image), old(P()), P(), At(o), At(n), met)
      decreases image.Keys - memo.Keys, 0
    {
      hide Counted, Readable, Fetched, Further, FreshNodes, AllMap, NodeMaps, Total, Reading, IsEmptyArray, Leads,
        MapVal, Injective;
      ghost var r, g := P(), Reading(image);
      BornCounted(r, o, Ref(AsVal(image[o].val)));
      n := Bear(o, Ref(AsVal(image[o].val)));
      ghost var r1 := P();
      SoundRef(image, memSize, o);
      assert o in image.Keys - r.memo.Keys && o !in image.Keys - memo.Keys;
      var v;
      v, met := RestoreVal(image[o].val);
      ghost var r2 := P();
      heap := heap[n := Ref(v)];
      FetchedParts(g, r1, r2, AsVal(image[o].val), v, met, n);
      RewrittenCounted(r2, n, Ref(v));
      RefMaps(g, r1, r2, o, n, v);
      Completed(g, r, r1, r2, o, n, Ref(v), met);
      assert P() == Rewritten(r2, n, Ref(v));
      met := [o] + met;
    }
  }

  lemma RefMaps(g: Heap, r1: Progress, r2: Progress, o: nat, n: Addr, v: Val)
    requires o in r1.memo && r1.memo[o] == n && Further(r1, r2, n) && o in g && g[o].Ref?
    requires Leads(g, r2.memo, g[o].val) && v == MapVal(g, r2.memo, g[o].val)
    ensures NodeMaps(g, Rewritten(r2, n, Ref(v)).heap, r2.memo, o)
  {
  }

  lemma SoundRef(image: Image, memSize: nat, o: nat)
    requires Readable(image, memSize) && o in image && image[o].IRef?
    ensures SoundVal(image, image[o].val) && !IsEmptyArray(Reading(image), o)
    ensures o in Reading(image) && Reading(image)[o] == Ref(AsVal(image[o].val))
  {
  }

  lemma MemoIn(r: Progress, o: nat)
    requires Counted(r) && o in r.memo
    ensures r.memo[o] in r.heap && r.memo[o] in r.refs
  {
  }

  lemma ReadableAt(image: Image, memSize: nat, o: nat)
    requires Readable(image, memSize) && (o == 0 || o in image) && memSize > 0
    ensures o < memSize && (o in image ==> o != 0 && o in Reading(image) && !IsEmptyArray(Reading(image), o))
  {
  }

  lemma SoundArray(image: Image, memSize: nat, o: nat)
    requires Readable(image, memSize) && o in image && image[o].IArr?
    ensures var node := AsNode(image, image[o]);
            && node.Arr? && !NoElements(node.buckets) && node.nextFree == NextFree(node.buckets)
            && node.cursor == FirstUsed(node.buckets)
            && o in Reading(image) && Reading(image)[o] == node && !IsEmptyArray(Reading(image), o)
  {
  }

  lemma SoundAt(image: Image, memSize: nat, o: nat, idx: nat)
    requires Readable(image, memSize) && o in image && image[o].IArr? && idx < |image[o].buckets|
    requires image[o].buckets[idx].IBucket?
    ensures SoundVal(image, image[o].buckets[idx].val)
  {
  }

  lemma WholeTargets(node: Node)
    requires node.Arr?
    ensures BucketTargets(node.buckets[..|node.buckets|]) == NodeTargets(node)
  {
    assert node.buckets[..|node.buckets|] == node.buckets;
  }
}
