/** The linked lists of apc_cache.c. A cell is the offset of a word that holds the offset of the
    next entry: the head word of a list, or an entry itself, since next is its first field. So the
    prev of the first entry of a list is the head's offset, as if the head were an entry. */
module Chains {
  import opened Basics

  type Links = map<nat, nat>

  /** From the cell at, the words next lead through the entries l, each of which points back. */
  ghost predicate Part(next: Links, prev: Links, at: nat, l: seq<nat>)
    decreases |l|
  {
    l == [] ||
    (at in next && next[at] == l[0] && l[0] != 0 && l[0] in prev && prev[l[0]] == at && Part(next, prev, l[0], l[1..]))
  }

  /** The last of the cells at and l. */
  function Last(at: nat, l: seq<nat>): nat {
    if l == [] then at else l[|l| - 1]
  }

  predicate Ends(next: Links, at: nat) {
    at in next && next[at] == 0
  }

  /** A whole list. */
  ghost predicate Chain(next: Links, prev: Links, at: nat, l: seq<nat>) {
    Part(next, prev, at, l) && Ends(next, Last(at, l))
  }

  lemma {:induction false} PartConcat(next: Links, prev: Links, at: nat, a: seq<nat>, b: seq<nat>)
    ensures Part(next, prev, at, a + b) <==> Part(next, prev, at, a) && Part(next, prev, Last(at, a), b)
    ensures Last(at, a + b) == Last(Last(at, a), b)
    decreases |a|
  {
    if a == [] {
      assert a + b == b;
    } else {
      assert (a + b)[0] == a[0] && (a + b)[1..] == a[1..] + b;
      PartConcat(next, prev, a[0], a[1..], b);
    }
  }

  lemma {:induction false} PartFrame(next: Links, prev: Links, next': Links, prev': Links, at: nat, l: seq<nat>)
    requires Part(next, prev, at, l)
    requires l != [] && at in next ==> at in next' && next'[at] == next[at]
    requires forall e :: e in l[..if l == [] then 0 else |l| - 1] && e in next ==> e in next' && next'[e] == next[e]
    requires forall e :: e in l && e in prev ==> e in prev' && prev'[e] == prev[e]
    ensures Part(next', prev', at, l)
    decreases |l|
  {
    if l != [] {
      var r := l[1..];
      assert l[0] in l && forall e :: e in r ==> e in l;
      if r != [] {
        assert l[..|l| - 1][0] == l[0];
        assert l[..|l| - 1] == [l[0]] + r[..|r| - 1];
      }
      PartFrame(next, prev, next', prev', l[0], r);
    }
  }

  /** A list stays a list if its cells and back links stay. */
  lemma ChainFrame(next: Links, prev: Links, next': Links, prev': Links, at: nat, l: seq<nat>)
    requires Chain(next, prev, at, l)
    requires forall e :: (e == at || e in l) && e in next ==> e in next' && next'[e] == next[e]
    requires forall e :: e in l && e in prev ==> e in prev' && prev'[e] == prev[e]
    ensures Chain(next', prev', at, l)
  {
    PartFrame(next, prev, next', prev', at, l);
  }

  /** A member of a list. */
  lemma ChainAt(next: Links, prev: Links, at: nat, pre: seq<nat>, e: nat, post: seq<nat>)
    ensures Chain(next, prev, at, pre + [e] + post) <==>
      && Part(next, prev, at, pre) && Last(at, pre) in next && next[Last(at, pre)] == e && e != 0
      && e in prev && prev[e] == Last(at, pre) && Chain(next, prev, e, post)
  {
    PartConcat(next, prev, at, pre + [e], post);
    PartConcat(next, prev, at, pre, [e]);
    assert [e][1..] == [];
  }

  lemma ChainJoin(next: Links, prev: Links, at: nat, pre: seq<nat>, post: seq<nat>)
    ensures Chain(next, prev, at, pre + post) <==> Part(next, prev, at, pre) && Chain(next, prev, Last(at, pre), post)
  {
    PartConcat(next, prev, at, pre, post);
  }

  /** What a cursor at cell sees. */
  lemma ChainHead(next: Links, prev: Links, at: nat, l: seq<nat>)
    requires Chain(next, prev, at, l)
    ensures at in next && (next[at] == 0 <==> l == [])
    ensures (l != [] ==> next[at] == l[0] && l[0] in prev && prev[l[0]] == at)
    ensures l != [] ==> Chain(next, prev, l[0], l[1..])
  {
    if l != [] {
      assert Last(at, l) == Last(l[0], l[1..]);
    }
  }

  // ------------------------------------------------------------------- unlinking and linking

  function Word(links: Links, c: nat): nat {
    if c in links then links[c] else 0
  }

  /** apc_cache_wlocked_unlink_entry: the word and the back link it writes. */
  function UnlinkNext(next: Links, prev: Links, e: nat): Links {
    next[Word(prev, e) := Word(next, e)]
  }

  function UnlinkPrev(next: Links, prev: Links, e: nat): Links {
    if Word(next, e) != 0 then prev[Word(next, e) := Word(prev, e)] else prev
  }

  /** apc_cache_wlocked_link_entry */
  function LinkNext(next: Links, cell: nat, e: nat): Links {
    next[e := Word(next, cell)][cell := e]
  }

  function LinkPrev(next: Links, prev: Links, cell: nat, e: nat): Links {
    var p := prev[e := cell];
    if Word(next, cell) != 0 then p[Word(next, cell) := e] else p
  }

  /** A list that begins at another cell. */
  lemma ChainMoveHead(next: Links, prev: Links, next': Links, prev': Links, c: nat, c': nat, l: seq<nat>)
    requires Chain(next, prev, c, l) && Distinct(l)
    requires c in next && c' in next' && next'[c'] == next[c]
    requires l != [] ==> l[0] in prev' && prev'[l[0]] == c'
    requires forall e :: e in l && e in next ==> e in next' && next'[e] == next[e]
    requires forall e :: e in l[if l == [] then 0 else 1..] && e in prev ==> e in prev' && prev'[e] == prev[e]
    ensures Chain(next', prev', c', l)
  {
    if l != [] {
      var r := l[1..];
      ChainHead(next, prev, c, l);
      assert l[0] in l && forall e :: e in r ==> e in l;
      ChainFrame(next, prev, next', prev', l[0], r);
      assert Last(c', l) == Last(l[0], r);
    }
  }

  /** Unlinking takes the entry out of its list. */
  lemma UnlinkChain(next: Links, prev: Links, h: nat, pre: seq<nat>, e: nat, post: seq<nat>)
    requires Chain(next, prev, h, pre + [e] + post) && Distinct([h] + (pre + [e] + post))
    ensures Chain(UnlinkNext(next, prev, e), UnlinkPrev(next, prev, e), h, pre + post)
    ensures e in prev && prev[e] == Last(h, pre) && e in next && next[e] == if post == [] then 0 else post[0]
  {
    ChainAt(next, prev, h, pre, e, post);
    ChainHead(next, prev, e, post);
    var next', prev' := UnlinkNext(next, prev, e), UnlinkPrev(next, prev, e);
    Apart(h, pre, [e], post);
    ChainMoveHead(next, prev, next', prev', e, Last(h, pre), post);
    PartFrame(next, prev, next', prev', h, pre);
    ChainJoin(next', prev', h, pre, post);
  }

  /** The cells of a list are pairwise different. */
  lemma Apart(h: nat, pre: seq<nat>, mid: seq<nat>, post: seq<nat>)
    requires Distinct([h] + (pre + mid + post))
    ensures Distinct(pre) && Distinct(mid) && Distinct(post) && Distinct(pre + post)
    ensures forall x :: x in pre ==> x !in mid && x !in post && x != h
    ensures forall x :: x in mid ==> x !in post && x != h
    ensures h !in post
    ensures Last(h, pre) !in pre[..if pre == [] then 0 else |pre| - 1]
    ensures pre != [] ==> h != Last(h, pre)
    ensures Last(h, pre) !in post && Last(h, pre) !in mid
    ensures post != [] ==> post[0] !in post[1..]
  {
    DistinctConcat([h], pre + mid + post);
    DistinctConcat(pre + mid, post);
    DistinctConcat(pre, mid);
    DistinctConcat(pre, post);
    if pre != [] {
      var k := |pre| - 1;
      assert pre == pre[..k] + [pre[k]];
      DistinctConcat(pre[..k], [pre[k]]);
    }
  }

  /** Linking puts the entry into the list behind the cell. */
  lemma LinkChain(next: Links, prev: Links, h: nat, pre: seq<nat>, e: nat, post: seq<nat>)
    requires Chain(next, prev, h, pre + post) && Distinct([h] + (pre + [] + post))
    requires e != 0 && e != h && e !in pre && e !in post
    ensures Chain(LinkNext(next, Last(h, pre), e), LinkPrev(next, prev, Last(h, pre), e), h, pre + [e] + post)
    ensures Last(h, pre) in next && next[Last(h, pre)] == if post == [] then 0 else post[0]
  {
    var cell := Last(h, pre);
    ChainJoin(next, prev, h, pre, post);
    ChainHead(next, prev, cell, post);
    var next', prev' := LinkNext(next, cell, e), LinkPrev(next, prev, cell, e);
    Apart(h, pre, [], post);
    assert e != cell;
    ChainMoveHead(next, prev, next', prev', cell, e, post);
    PartFrame(next, prev, next', prev', h, pre);
    ChainAt(next', prev', h, pre, e, post);
  }

  // ------------------------------------------------------------------- moving an entry

  /** What apc_cache_wlocked_move_entry and the memmove after it do to the links when an entry
      moves from o to n. */
  function MoveNext(next: Links, prev: Links, o: nat, n: nat): Links {
    var m := next[Word(prev, o) := n];
    m[n := Word(m, o)]
  }

  function MovePrev(next: Links, prev: Links, o: nat, n: nat): Links {
    var m := if Word(next, o) != 0 then prev[Word(next, o) := n] else prev;
    m[n := Word(m, o)]
  }

  /** The moved entry takes the place of the old one in its list. */
  lemma MoveChain(next: Links, prev: Links, h: nat, pre: seq<nat>, o: nat, n: nat, post: seq<nat>)
    requires Chain(next, prev, h, pre + [o] + post) && Distinct([h] + (pre + [o] + post))
    requires n != 0 && n != h && n != o && n !in pre && n !in post
    ensures Chain(MoveNext(next, prev, o, n), MovePrev(next, prev, o, n), h, pre + [n] + post)
    ensures o in prev && prev[o] == Last(h, pre) && o in next && next[o] == if post == [] then 0 else post[0]
  {
    ChainAt(next, prev, h, pre, o, post);
    ChainHead(next, prev, o, post);
    var next', prev' := MoveNext(next, prev, o, n), MovePrev(next, prev, o, n);
    Apart(h, pre, [o], post);
    ChainMoveHead(next, prev, next', prev', o, n, post);
    PartFrame(next, prev, next', prev', h, pre);
    ChainAt(next', prev', h, pre, n, post);
  }

  /** Moving an entry touches nothing but its list and the new place. */
  lemma MoveTouches(next: Links, prev: Links, h: nat, pre: seq<nat>, o: nat, n: nat, post: seq<nat>)
    requires Chain(next, prev, h, pre + [o] + post)
    ensures prev.Keys <= MovePrev(next, prev, o, n).Keys && next.Keys <= MoveNext(next, prev, o, n).Keys
    ensures forall c :: c in next && c != h && c !in pre + [o] + post && c != n ==>
      MoveNext(next, prev, o, n)[c] == next[c]
    ensures forall c :: c in prev && c != h && c !in pre + [o] + post && c != n ==>
      MovePrev(next, prev, o, n)[c] == prev[c]
    ensures o in next && o in prev && prev[o] in next && (next[o] != 0 ==> next[o] in prev)
  {
    ChainAt(next, prev, h, pre, o, post);
    ChainHead(next, prev, o, post);
    assert pre != [] ==> Last(h, pre) in pre;
    assert post != [] ==> post[0] in post;
  }
}
