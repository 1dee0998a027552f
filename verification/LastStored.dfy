/** The cache as a lossy map, over whole runs: what is found under a key is what was last written there. */
module LastStored {
  import opened Basics
  import opened Cache
  import opened Effects
  import opened Entries
  import opened History
  import opened References
  import opened Table

  /** What was stored: the value, when, and with which ttl. */
  datatype Stored = Stored(val: Value, since: int, ttl: int)

  function StoredBy(x: Entry): Stored {
    Stored(x.val, x.ctime, x.ttl)
  }

  function StoredIn(s: Tab, k: string): Option<Stored> {
    if k in s.at && s.at[k] in s.rec then Some(StoredBy(s.rec[s.at[k]])) else None
  }

  /** What an operation makes of what is stored under key k: an insert that is not refused replaces it, an
      increase replaces its value, a delete and a clear take it away. */
  function Wrote(w: World, op: Op, k: string, v: Option<Stored>): Option<Stored> {
    match op
    case Insert(e, exclusive) =>
      if e in w.tab.rec && w.tab.rec[e].key == k && !Refused(w.tab, w.tab.rec[e], exclusive)
      then Some(StoredBy(w.tab.rec[e])) else v
    case Increase(j, step, t) =>
      if j == k && Found(w.tab, k, t).Some? && v.Some? && v.value.val.Long?
      then Some(v.value.(val := Long(Wrap(v.value.val.n + step)))) else v
    case Delete(j) => if j == k then None else v
    case Clear => None
    case _ => v
  }

  /** What was written last under key k in the first n operations of a run. */
  function Latest(run: seq<World>, ops: seq<Op>, k: string, n: nat): Option<Stored>
    requires n <= |ops| < |run|
  {
    if n == 0 then StoredIn(run[0].tab, k) else Wrote(run[n - 1], ops[n - 1], k, Latest(run, ops, k, n - 1))
  }

  /** If k has an entry, that is what was stored. */
  predicate Has(s: Tab, k: string, v: Option<Stored>) {
    k in s.at ==> s.at[k] in s.rec && v == Some(StoredBy(s.rec[s.at[k]]))
  }

  lemma UpdatedHas(s: Tab, d: Option<nat>, f: Entry -> Entry, k: string, v: Option<Stored>, v': Option<Stored>)
    requires Has(s, k, v)
    requires d.Some? && d.value in s.rec && k in s.at && s.at[k] == d.value ==> v' == Some(StoredBy(f(s.rec[d.value])))
    requires !(d.Some? && d.value in s.rec && k in s.at && s.at[k] == d.value) ==> v' == v
    ensures Has(Updated(s, d, f), k, v')
  {
  }

  /** Different keys have different entries, and an entry that is not inserted has no key. */
  lemma KeysApart(y: Layout, hash: string -> nat, s: Tab, k: string)
    requires Consistent(y, hash, s) && k in s.at
    ensures s.at[k] in s.rec && s.rec[s.at[k]].key == k && s.at[k] in s.home && s.home[s.at[k]] < InFlight(y)
    ensures forall j :: j in s.at && s.at[j] == s.at[k] ==> j == k
  {
    KeyHoused(y, hash, s, k);
  }

  /** The operations that write into a record. */
  lemma RecordHas(c: Config, w: World, op: Op, s': Tab, k: string, v: Option<Stored>, now: int)
    requires Does(c, w.tab, op, s', now) && Has(w.tab, k, v)
    requires op.Look? || op.FindIncref? || op.Release? || op.Increase?
    requires k in w.tab.at ==> forall j :: j in w.tab.at && w.tab.at[j] == w.tab.at[k] ==> j == k
    ensures Has(s', k, Wrote(w, op, k, v))
  {
    hide Has, Updated, HardExpired, Wrap;
    match op
    case Look(j, t) =>
      UpdatedSame(w.tab, Found(w.tab, j, t), (x: Entry) => x.(nhits := x.nhits + 1, atime := t), k, v);
    case FindIncref(j, t, h) => UpdatedSame(w.tab, Found(w.tab, j, t), x => Accessed(x, t, h), k, v);
    case Release(e, h) => UpdatedSame(w.tab, Some(e), x => Released(x, h), k, v);
    case Increase(j, step, t) => IncreasedHas(w, j, step, t, k, v);
  }

  lemma UpdatedSame(s: Tab, d: Option<nat>, f: Entry -> Entry, k: string, v: Option<Stored>)
    requires Has(s, k, v) && (d.Some? && d.value in s.rec ==> StoredBy(f(s.rec[d.value])) == StoredBy(s.rec[d.value]))
    ensures Has(Updated(s, d, f), k, v)
  {
    UpdatedHas(s, d, f, k, v, v);
  }

  lemma IncreasedHas(w: World, j: string, step: int, t: int, k: string, v: Option<Stored>)
    requires Has(w.tab, k, v) && (k in w.tab.at ==> forall i :: i in w.tab.at && w.tab.at[i] == w.tab.at[k] ==> i == k)
    ensures Has(Updated(w.tab, Found(w.tab, j, t), x => Increased(x, step, t)), k, Wrote(w, Increase(j, step, t), k, v))
  {
    hide HardExpired, Wrap;
    UpdatedHas(w.tab, Found(w.tab, j, t), x => Increased(x, step, t), k, v, Wrote(w, Increase(j, step, t), k, v));
  }

  /** The others. */
  lemma TableHas(c: Config, w: World, op: Op, s': Tab, k: string, v: Option<Stored>, now: int)
    requires Does(c, w.tab, op, s', now) && Has(w.tab, k, v)
    requires !op.Look? && !op.FindIncref? && !op.Release? && !op.Increase?
    requires op.Discard? ==> InFlightAt(c.y, w.tab, op.e)
    requires k in w.tab.at ==>
      var e := w.tab.at[k];
      e in w.tab.rec && w.tab.rec[e].key == k && e in w.tab.home && w.tab.home[e] < InFlight(c.y)
    requires op.Collect? ==> w.tab.rec.Keys == w.tab.home.Keys && s'.rec.Keys == s'.home.Keys
    requires k in w.tab.at ==> w.tab.home[w.tab.at[k]] < OnGc(c.y)
    requires w.tab.home.Keys == w.tab.rec.Keys
    ensures Has(s', k, Wrote(w, op, k, v))
  {
    hide Upheld, GcUpheld, Expired, HardExpired, SameRecords;
  }

  lemma InSlot(y: Layout, hash: string -> nat, s: Tab, k: string)
    requires Consistent(y, hash, s) && k in s.at
    ensures s.home[s.at[k]] < OnGc(y) < InFlight(y)
  {
    KeyHoused(y, hash, s, k);
  }

  lemma StepHas(c: Config, w: World, op: Op, w': World, k: string, v: Option<Stored>, now: int)
    requires Step(c, w, op, w', now) && !w'.broken && Has(w.tab, k, v)
    ensures Has(w'.tab, k, Wrote(w, op, k, v))
  {
    ConsistentParts(c.y, c.hash, w.tab);
    ConsistentParts(c.y, c.hash, w'.tab);
    if k in w.tab.at {
      KeysApart(c.y, c.hash, w.tab, k);
      InSlot(c.y, c.hash, w.tab, k);
    }
    hide Consistent, Keyed, Referenced, Does, Has, Owed, OnGc, InFlight;
    if Skipped(w, op) {
      SkippedHas(w, op, k, v);
    } else if op.Look? || op.FindIncref? || op.Release? || op.Increase? {
      RecordHas(c, w, op, w'.tab, k, v, now);
    } else {
      TableHas(c, w, op, w'.tab, k, v, now);
    }
  }

  lemma SkippedHas(w: World, op: Op, k: string, v: Option<Stored>)
    requires Skipped(w, op)
    ensures Wrote(w, op, k, v) == v
  {
  }

  /** All along a run, as long as no reference that was given up has been released: if a key has an entry,
      that has the value that the latest insert or increase of the key wrote. */
  lemma {:induction false} HoldsLatest(c: Config, run: seq<World>, ops: seq<Op>, times: seq<int>, k: string, n: nat)
    requires Run(c, run, ops, times) && n < |run| && !run[n].broken
    requires k in run[0].tab.at ==> run[0].tab.at[k] in run[0].tab.rec
    ensures Has(run[n].tab, k, Latest(run, ops, k, n)) && forall i :: 0 <= i < n ==> !run[i].broken
  {
    hide Wrote, Does, Owed, Consistent;
    if n > 0 {
      assert StepAt(c, run, ops, times, n - 1);
      assert !run[n - 1].broken;
      HoldsLatest(c, run, ops, times, k, n - 1);
      StepHas(c, run[n - 1], ops[n - 1], run[n], k, Latest(run, ops, k, n - 1), times[n - 1]);
    }
  }

  /** So what is found is what was written last. */
  lemma {:induction false} FindsLatest(c: Config, run: seq<World>, ops: seq<Op>, times: seq<int>, k: string, t: int,
                                       n: nat, e: nat)
    requires Run(c, run, ops, times) && n < |run| && !run[n].broken
    requires k in run[0].tab.at ==> run[0].tab.at[k] in run[0].tab.rec
    requires Found(run[n].tab, k, t) == Some(e)
    ensures Latest(run, ops, k, n).Some? && Latest(run, ops, k, n).value.val == run[n].tab.rec[e].val
  {
    HoldsLatest(c, run, ops, times, k, n);
  }

  /** And a key that has an entry is found exactly until the ttl has passed since the latest insert, whatever
      has been read, updated and moved in between. */
  lemma {:induction false} FoundUntil(c: Config, run: seq<World>, ops: seq<Op>, times: seq<int>, k: string, t: int,
                                      n: nat)
    requires Run(c, run, ops, times) && n < |run| && !run[n].broken
    requires k in run[0].tab.at ==> run[0].tab.at[k] in run[0].tab.rec
    requires k in run[n].tab.at
    ensures Latest(run, ops, k, n).Some?
    ensures var x := Latest(run, ops, k, n).value;
            Found(run[n].tab, k, t).Some? <==> x.ttl == 0 || t <= x.since + x.ttl
  {
    HoldsLatest(c, run, ops, times, k, n);
  }

  /** The operations that take no key its entry. */
  predicate Reads(op: Op) {
    op.Look? || op.FindIncref? || op.Release? || op.Increase?
  }

  lemma StepReads(c: Config, w: World, op: Op, w': World, now: int)
    requires Step(c, w, op, w', now) && !w.broken && !w'.broken && Reads(op)
    ensures w'.tab.at == w.tab.at
  {
    hide Consistent, Owed, HardExpired, Wrap;
  }

  /** In particular, from an insert on that is not refused, as long as there are only lookups, releases and
      increases. */
  lemma {:induction false} FoundAfterInsert(c: Config, run: seq<World>, ops: seq<Op>, times: seq<int>, i: nat,
                                            t: int, n: nat)
    requires Run(c, run, ops, times) && i < n < |run| && !run[n].broken && ops[i].Insert?
    requires forall k :: k in run[0].tab.at ==> run[0].tab.at[k] in run[0].tab.rec
    requires forall j :: i < j < n ==> Reads(ops[j])
    requires ops[i].e in run[i].tab.rec && !Refused(run[i].tab, run[i].tab.rec[ops[i].e], ops[i].exclusive)
    ensures var x := run[i].tab.rec[ops[i].e];
            Found(run[n].tab, x.key, t).Some? <==> x.ttl == 0 || t <= x.ctime + x.ttl
  {
    var x := run[i].tab.rec[ops[i].e];
    InsertedFirst(c, run, ops, times, i, n);
    FoundUntil(c, run, ops, times, x.key, t, n);
  }

  lemma {:induction false} InsertedFirst(c: Config, run: seq<World>, ops: seq<Op>, times: seq<int>, i: nat, n: nat)
    requires Run(c, run, ops, times) && i < n < |run| && !run[n].broken && ops[i].Insert?
    requires forall k :: k in run[0].tab.at ==> run[0].tab.at[k] in run[0].tab.rec
    requires forall j :: i < j < n ==> Reads(ops[j])
    requires ops[i].e in run[i].tab.rec && !Refused(run[i].tab, run[i].tab.rec[ops[i].e], ops[i].exclusive)
    ensures var x := run[i].tab.rec[ops[i].e];
            && x.key in run[n].tab.at && Latest(run, ops, x.key, n).Some?
            && Latest(run, ops, x.key, n).value.since == x.ctime && Latest(run, ops, x.key, n).value.ttl == x.ttl
  {
    hide Step, Refused, Found, Has, Wrap;
    var x := run[i].tab.rec[ops[i].e];
    assert StepAt(c, run, ops, times, n - 1);
    HoldsLatest(c, run, ops, times, x.key, n);
    assert !run[n - 1].broken;
    if n == i + 1 {
      InsertHas(c, run[i], ops[i], run[n], times[i]);
    } else {
      InsertedFirst(c, run, ops, times, i, n - 1);
      StepReads(c, run[n - 1], ops[n - 1], run[n], times[n - 1]);
    }
  }

  lemma InsertHas(c: Config, w: World, op: Op, w': World, now: int)
    requires Step(c, w, op, w', now) && !w.broken && op.Insert? && op.e in w.tab.rec
    requires !Refused(w.tab, w.tab.rec[op.e], op.exclusive)
    ensures w.tab.rec[op.e].key in w'.tab.at
  {
    hide Consistent, GcUpheld, Purged;
  }
}
