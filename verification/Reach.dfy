/** What the walk of apc_persist.c meets is what can be reached, and it stops only at what cannot be
    persisted. */
module Reach {
  import opened Basics
  import opened Graph

  predicate PointsTo(heap: Heap, a: Addr, b: Addr) {
    a in heap && match heap[a]
                 case Ref(v) => v == At(b)
                 case Arr(bs, _, _, _, _) => Among(bs, b)
                 case _ => false
  }

  predicate Among(bs: seq<Bucket>, b: Addr) {
    exists i :: 0 <= i < |bs| && bs[i].Bucket? && bs[i].val == At(b)
  }

  /** The nodes l lead from v to the last of them. */
  ghost predicate Path(heap: Heap, v: Val, l: seq<Addr>) {
    && l != [] && v == At(l[0]) && (forall i :: 0 <= i < |l| ==> l[i] in heap)
    && forall i :: 0 <= i < |l| - 1 ==> PointsTo(heap, l[i], l[i + 1])
  }

  /** Node a can be reached from v. */
  ghost predicate Reached(heap: Heap, v: Val, a: Addr) {
    exists l: seq<Addr> :: Path(heap, v, l) && l[|l| - 1] == a
  }

  lemma PathOne(heap: Heap, a: Addr)
    requires a in heap
    ensures Reached(heap, At(a), a)
  {
    assert Path(heap, At(a), [a]) && [a][|[a]| - 1] == a;
  }

  lemma PathCons(heap: Heap, a: Addr, v: Val, b: Addr)
    requires v.At? && PointsTo(heap, a, v.a) && Reached(heap, v, b)
    ensures Reached(heap, At(a), b)
  {
    var l: seq<Addr> :| Path(heap, v, l) && l[|l| - 1] == b;
    var l' := [a] + l;
    forall i | 0 <= i < |l'| - 1 ensures PointsTo(heap, l'[i], l'[i + 1]) {
      if i > 0 {
        assert PointsTo(heap, l[i - 1], l[i]);
      }
    }
    assert Path(heap, At(a), l') && l'[|l'| - 1] == b;
  }

  lemma PathVia(heap: Heap, a: Addr, i: nat, b: Addr)
    requires a in heap && heap[a].Arr? && i < |heap[a].buckets| && heap[a].buckets[i].Bucket?
    requires Reached(heap, heap[a].buckets[i].val, b)
    ensures Reached(heap, At(a), b)
  {
    var v := heap[a].buckets[i].val;
    var l: seq<Addr> :| Path(heap, v, l) && l[|l| - 1] == b;
    PathCons(heap, a, v, b);
  }

  // ---- what is met can be reached

  /** The culprit, if the walk was stopped; the nodes met, if not. */
  predicate Meets(heap: Heap, w: Walk, a: Addr) {
    a in heap && match w
                 case Done(met) => a in met
                 case Object => heap[a].Obj?
                 case Resource => heap[a].Res?
  }

  lemma {:induction false} MetReached(heap: Heap, v: Val, seen: set<Addr>, a: Addr)
    requires Visit(heap, v, seen).Done? && Meets(heap, Visit(heap, v, seen), a)
    ensures Reached(heap, v, a)
    decreases heap.Keys - seen, 0
  {
    PathOne(heap, v.a);
    if a != v.a {
      match heap[v.a]
      case Ref(w) =>
        MetReached(heap, w, seen + {v.a}, a);
        PathCons(heap, v.a, w, a);
      case Arr(bs, _, _, _, _) =>
        var i := AllMetReached(heap, bs, seen + {v.a}, a);
        PathVia(heap, v.a, i, a);
    }
  }

  lemma {:induction false} AllMetReached(heap: Heap, bs: seq<Bucket>, seen: set<Addr>, a: Addr) returns (i: nat)
    requires VisitAll(heap, bs, seen).Done? && Meets(heap, VisitAll(heap, bs, seen), a)
    ensures i < |bs| && bs[i].Bucket? && Reached(heap, bs[i].val, a)
    decreases heap.Keys - seen, |bs| + 2
  {
    var w := VisitBucket(heap, bs[0], seen);
    if a in w.met {
      MetReached(heap, bs[0].val, seen, a);
      i := 0;
    } else {
      assert heap.Keys - (seen + Set(w.met)) <= heap.Keys - seen;
      i := AllMetReached(heap, bs[1..], seen + Set(w.met), a);
      i := i + 1;
    }
  }

  /** What stops the walk can be reached. */
  lemma {:induction false} CulpritReached(heap: Heap, v: Val, seen: set<Addr>) returns (a: Addr)
    requires !Visit(heap, v, seen).Done?
    ensures Meets(heap, Visit(heap, v, seen), a) && Reached(heap, v, a)
    decreases heap.Keys - seen, 0
  {
    match heap[v.a]
    case Ref(w) =>
      a := CulpritReached(heap, w, seen + {v.a});
      PathCons(heap, v.a, w, a);
    case Arr(bs, _, _, _, _) =>
      var i;
      a, i := CulpritAmong(heap, bs, seen + {v.a});
      PathVia(heap, v.a, i, a);
    case Str(_) => assert false;
    case Obj =>
      a := v.a;
      PathOne(heap, a);
    case Res =>
      a := v.a;
      PathOne(heap, a);
  }

  lemma {:induction false} CulpritAmong(heap: Heap, bs: seq<Bucket>, seen: set<Addr>) returns (a: Addr, i: nat)
    requires !VisitAll(heap, bs, seen).Done?
    ensures Meets(heap, VisitAll(heap, bs, seen), a)
    ensures i < |bs| && bs[i].Bucket? && Reached(heap, bs[i].val, a)
    decreases heap.Keys - seen, |bs| + 2
  {
    var w := VisitBucket(heap, bs[0], seen);
    if w.Done? {
      assert heap.Keys - (seen + Set(w.met)) <= heap.Keys - seen;
      a, i := CulpritAmong(heap, bs[1..], seen + Set(w.met));
      i := i + 1;
    } else {
      a := CulpritReached(heap, bs[0].val, seen);
      i := 0;
    }
  }

  // ---- what can be reached is met

  /** The nodes in met can be persisted, and lead only to nodes in all. */
  ghost predicate ClosedIn(heap: Heap, met: seq<Addr>, all: set<Addr>) {
    forall a :: a in met ==>
      && a in heap && !heap[a].Obj? && !heap[a].Res?
      && forall b :: PointsTo(heap, a, b) && b in heap ==> b in all
  }

  lemma {:induction false} MetClosed(heap: Heap, v: Val, seen: set<Addr>)
    requires Visit(heap, v, seen).Done?
    ensures var met := Visit(heap, v, seen).met;
            ClosedIn(heap, met, seen + Set(met)) && (v.At? && v.a in heap ==> v.a in seen + Set(met))
    decreases heap.Keys - seen, 0
  {
    if v.At? && v.a !in seen && v.a in heap {
      var met := Visit(heap, v, seen).met;
      match heap[v.a]
      case Ref(w) =>
        MetClosed(heap, w, seen + {v.a});
        assert seen + {v.a} + Set(Visit(heap, w, seen + {v.a}).met) == seen + Set(met);
      case Arr(bs, _, _, _, _) =>
        AllMetClosed(heap, bs, seen + {v.a});
        assert seen + {v.a} + Set(VisitAll(heap, bs, seen + {v.a}).met) == seen + Set(met);
      case _ =>
    }
  }

  lemma {:induction false} AllMetClosed(heap: Heap, bs: seq<Bucket>, seen: set<Addr>)
    requires VisitAll(heap, bs, seen).Done?
    ensures var met := VisitAll(heap, bs, seen).met;
            && ClosedIn(heap, met, seen + Set(met))
            && forall b :: Among(bs, b) && b in heap ==> b in seen + Set(met)
    decreases heap.Keys - seen, |bs| + 2
  {
    if bs != [] {
      var w, met := VisitBucket(heap, bs[0], seen), VisitAll(heap, bs, seen).met;
      if !bs[0].Hole? {
        MetClosed(heap, bs[0].val, seen);
      }
      assert heap.Keys - (seen + Set(w.met)) <= heap.Keys - seen;
      AllMetClosed(heap, bs[1..], seen + Set(w.met));
      assert seen + Set(w.met) + Set(VisitAll(heap, bs[1..], seen + Set(w.met)).met) == seen + Set(met);
      forall b | Among(bs, b) && b in heap ensures b in seen + Set(met) {
        AmongRest(bs, b);
      }
    }
  }

  lemma AmongRest(bs: seq<Bucket>, b: Addr)
    requires Among(bs, b)
    ensures (bs[0].Bucket? && bs[0].val == At(b)) || Among(bs[1..], b)
  {
    var i :| 0 <= i < |bs| && bs[i].Bucket? && bs[i].val == At(b);
    if i > 0 {
      assert bs[1..][i - 1] == bs[i];
    }
  }

  lemma {:induction false} PathMet(heap: Heap, v: Val, l: seq<Addr>)
    requires Visit(heap, v, {}).Done? && Path(heap, v, l)
    ensures l[|l| - 1] in Visit(heap, v, {}).met
  {
    MetClosed(heap, v, {});
    var n := |l| - 1;
    if n > 0 {
      PathMet(heap, v, l[..n]);
      assert PointsTo(heap, l[n - 1], l[n]);
    }
  }

  /** The walk meets exactly the nodes that can be reached from v. It gets through exactly if neither an
      object nor a resource is among them; else one of these stopped it. */
  lemma {:induction false} VisitsReachable(heap: Heap, v: Val)
    ensures var w := Visit(heap, v, {});
            && (w.Done? <==> forall a :: Reached(heap, v, a) ==> !heap[a].Obj? && !heap[a].Res?)
            && (w.Done? ==> forall a :: a in w.met <==> Reached(heap, v, a))
            && (w.Object? ==> exists a :: Reached(heap, v, a) && heap[a].Obj?)
            && (w.Resource? ==> exists a :: Reached(heap, v, a) && heap[a].Res?)
  {
    var w := Visit(heap, v, {});
    if w.Done? {
      MetClosed(heap, v, {});
      forall a ensures a in w.met <==> Reached(heap, v, a) {
        if a in w.met { MetReached(heap, v, {}, a); }
        if Reached(heap, v, a) {
          var l: seq<Addr> :| Path(heap, v, l) && l[|l| - 1] == a;
          PathMet(heap, v, l);
        }
      }
    } else {
      var a := CulpritReached(heap, v, {});
    }
  }
}
