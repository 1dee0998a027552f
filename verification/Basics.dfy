/** What several parts of the model share. */
module Basics {
  datatype Option<+T> = None | Some(value: T)

  newtype Byte = b: int | 0 <= b < 256

  // ---- sequences without repetition

  predicate Distinct<T(==)>(l: seq<T>) {
    l == [] || (l[0] !in l[1..] && Distinct(l[1..]))
  }

  lemma {:induction false} DistinctConcat<T>(a: seq<T>, b: seq<T>)
    ensures Distinct(a + b) <==> Distinct(a) && Distinct(b) && forall e :: e in a ==> e !in b
  {
    if a == [] {
      assert a + b == b;
    } else {
      assert (a + b)[0] == a[0] && (a + b)[1..] == a[1..] + b;
      DistinctConcat(a[1..], b);
    }
  }

  // ---- zend_long arithmetic wraps around

  const RANGE: int := 0x1_0000_0000_0000_0000

  function Wrap(n: int): (r: int)
    ensures -RANGE / 2 <= r < RANGE / 2
    ensures (r - n) % RANGE == 0
  {
    (n + RANGE / 2) % RANGE - RANGE / 2
  }

  lemma ModShift(a: int, k: int)
    ensures (a + k * RANGE) % RANGE == a % RANGE
  {
  }

  lemma WrapAdd(a: int, b: int)
    ensures Wrap(Wrap(a) + b) == Wrap(a + b)
  {
    var k := (a + RANGE / 2) / RANGE;
    assert Wrap(a) == a - k * RANGE;
    ModShift(a + b + RANGE / 2, -k);
  }
}
