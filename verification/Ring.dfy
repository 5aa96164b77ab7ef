/** Vectors indexed modulo their length: the sender's window and the receiver's
    reorder buffer are both addressed as `vec[seqNo % size]`. */
module Ring {

  function At<T>(ring: seq<T>, i: nat): T
    requires |ring| > 0
  {
    ring[i % |ring|]
  }

  function Put<T>(ring: seq<T>, i: nat, v: T): (r: seq<T>)
    requires |ring| > 0
    ensures |r| == |ring|
  {
    ring[i % |ring| := v]
  }

  /** A non-zero multiple of `n` is at least `n` away from zero. */
  lemma MultipleGap(n: nat, d: int)
    ensures d >= 1 ==> n * d >= n
    ensures d <= -1 ==> n * d + n <= 0
  {
  }

  /** Quotient and remainder are determined by the number. */
  lemma UniqueRemainder(n: nat, q: int, r: int, q': int, r': int)
    requires 0 <= r < n && 0 <= r' < n && n * q + r == n * q' + r'
    ensures r == r'
  {
    assert n * (q - q') == n * q - n * q';
    MultipleGap(n, q - q');
  }

  /** Two numbers less than a full turn apart never share a slot. */
  lemma DistinctSlots(i: nat, j: nat, n: nat)
    requires i < j < i + n
    ensures i % n != j % n
  {
    if i % n == j % n {
      var d := j / n - i / n;
      assert n * d == n * (j / n) - n * (i / n);
      assert n * d == j - i;
      UniqueRemainder(n, d, 0, 0, j - i);
    }
  }

  /** A number one full turn ahead shares the slot. */
  lemma SameSlot(i: nat, n: nat)
    requires n > 0
    ensures (i + n) % n == i % n
  {
    assert n * (i / n + 1) == n * (i / n) + n;
    UniqueRemainder(n, i / n + 1, i % n, (i + n) / n, (i + n) % n);
  }

  /** Writing slot `i` leaves every other number of a window that holds `i` alone. */
  lemma PutFrame<T>(ring: seq<T>, i: nat, v: T, lo: nat)
    requires lo <= i < lo + |ring|
    ensures At(Put(ring, i, v), i) == v
    ensures forall j :: lo <= j < lo + |ring| && j != i ==> At(Put(ring, i, v), j) == At(ring, j)
  {
    forall j | lo <= j < lo + |ring| && j != i
      ensures At(Put(ring, i, v), j) == At(ring, j)
    {
      if i < j {
        DistinctSlots(i, j, |ring|);
      } else {
        DistinctSlots(j, i, |ring|);
      }
    }
  }
}
