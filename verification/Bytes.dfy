/** Bytes, optional values and unsigned arithmetic, shared by every component. */
module Bytes {

  newtype byte = x: int | 0 <= x < 256

  datatype Option<+T> = None | Some(value: T)

  const TWO_TO_THE_64 := 0x1_0000_0000_0000_0000

  /** Subtraction of unsigned 64-bit numbers. */
  function Sub(a: nat, b: nat): int
  {
    if a >= b then a - b else a - b + TWO_TO_THE_64
  }

  /** It wraps around. */
  lemma SubWraps(a: nat, b: nat)
    requires a < TWO_TO_THE_64 && b < TWO_TO_THE_64
    ensures Sub(a, b) == (a - b) % TWO_TO_THE_64
  {
  }

  /** The parts one after the other. */
  function Concat<T>(parts: seq<seq<T>>): seq<T>
  {
    if parts == [] then [] else parts[0] + Concat(parts[1..])
  }

  lemma {:induction false} ConcatAppend<T>(a: seq<seq<T>>, b: seq<seq<T>>)
    ensures Concat(a + b) == Concat(a) + Concat(b)
  {
    if a == [] {
      assert a + b == b;
    } else {
      assert (a + b)[1..] == a[1..] + b;
      ConcatAppend(a[1..], b);
    }
  }

  lemma ConcatSnoc<T>(parts: seq<seq<T>>, part: seq<T>)
    ensures Concat(parts + [part]) == Concat(parts) + part
  {
    ConcatAppend(parts, [part]);
    assert [part][1..] == [];
    assert Concat([part]) == part + [];
  }
}
