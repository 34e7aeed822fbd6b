/**
 * Cutting the ticker universe into request-sized batches: consecutive runs
 * of `size` codes from the front, the last run possibly shorter.
 */
module Batching {

  /** Concatenation of a sequence of sequences. */
  function Flatten<T>(xss: seq<seq<T>>): seq<T>
  {
    if |xss| == 0 then [] else xss[0] + Flatten(xss[1..])
  }

  lemma {:induction false} FlattenAppend<T>(a: seq<seq<T>>, b: seq<seq<T>>)
    ensures Flatten(a + b) == Flatten(a) + Flatten(b)
  {
    if |a| == 0 {
      assert a + b == b;
    } else {
      assert (a + b)[1..] == a[1..] + b;
      FlattenAppend(a[1..], b);
    }
  }

  /** The batches of `xs`, front to back: runs of `size`, the last one possibly shorter. */
  function Batches<T>(xs: seq<T>, size: nat): seq<seq<T>>
    requires size > 0
    decreases |xs|
  {
    if |xs| == 0 then []
    else if |xs| <= size then [xs]
    else [xs[..size]] + Batches(xs[size..], size)
  }

  /**
   * The batches partition `xs`: their concatenation is `xs`, each is
   * non-empty and at most `size` long, all but the last are exactly `size`
   * long, and their number `n` satisfies (n - 1) * size < |xs| <= n * size.
   */
  lemma BatchesPartition<T>(xs: seq<T>, size: nat)
    requires size > 0
    ensures Flatten(Batches(xs, size)) == xs
    ensures forall i :: 0 <= i < |Batches(xs, size)| ==> 0 < |Batches(xs, size)[i]| <= size
    ensures forall i :: 0 <= i < |Batches(xs, size)| - 1 ==> |Batches(xs, size)[i]| == size
    ensures |xs| <= |Batches(xs, size)| * size
    ensures |Batches(xs, size)| > 0 ==> (|Batches(xs, size)| - 1) * size < |xs|
  {
    BatchesFlatten(xs, size);
    BatchesSizes(xs, size);
    BatchesNumber(xs, size);
  }

  lemma {:induction false} BatchesFlatten<T>(xs: seq<T>, size: nat)
    requires size > 0
    ensures Flatten(Batches(xs, size)) == xs
    decreases |xs|
  {
    if |xs| > size {
      BatchesFlatten(xs[size..], size);
      assert xs == xs[..size] + xs[size..];
      var r := [xs[..size]] + Batches(xs[size..], size);
      assert r[1..] == Batches(xs[size..], size);
    } else if |xs| > 0 {
      assert [xs][1..] == [];
    }
  }

  lemma {:induction false} BatchesSizes<T>(xs: seq<T>, size: nat)
    requires size > 0
    ensures forall i :: 0 <= i < |Batches(xs, size)| ==> 0 < |Batches(xs, size)[i]| <= size
    ensures forall i :: 0 <= i < |Batches(xs, size)| - 1 ==> |Batches(xs, size)[i]| == size
    decreases |xs|
  {
    if |xs| > size {
      var rest := Batches(xs[size..], size);
      BatchesSizes(xs[size..], size);
      var r := [xs[..size]] + rest;
      assert Batches(xs, size) == r;
      forall i | 0 < i < |r|
        ensures r[i] == rest[i - 1]
      {
      }
    }
  }

  lemma {:induction false} BatchesNumber<T>(xs: seq<T>, size: nat)
    requires size > 0
    ensures |xs| <= |Batches(xs, size)| * size
    ensures |Batches(xs, size)| > 0 ==> (|Batches(xs, size)| - 1) * size < |xs|
    decreases |xs|
  {
    if |xs| > size {
      var rest := Batches(xs[size..], size);
      BatchesNumber(xs[size..], size);
      var n := |rest| + 1;
      assert |Batches(xs, size)| == n;
      assert n * size == size + |rest| * size;
      assert (n - 1) * size == |rest| * size;
      if |rest| > 0 {
        assert (|rest| - 1) * size == |rest| * size - size;
      }
    }
  }

  /** The batch count is `ceil(|xs| / size)`, as Python computes `len(range(0, |xs|, size))`. */
  lemma BatchCount<T>(xs: seq<T>, size: nat)
    requires size > 0
    ensures |Batches(xs, size)| == (|xs| + size - 1) / size
  {
    BatchesPartition(xs, size);
    var n := |Batches(xs, size)|;
    if n == 0 {
      assert |xs| == 0;
      DivUnique(size - 1, size, 0, size - 1);
    } else {
      var m := (n - 1) * size;
      assert n * size == m + size;
      assert m < |xs| <= m + size;
      DivUnique(|xs| + size - 1, size, n, |xs| - 1 - m);
    }
  }

  lemma MulAtLeast(k: int, d: int)
    requires k >= 1 && d > 0
    ensures k * d >= d
  {
  }

  /** Euclidean division has one quotient: `q * d + r` with `0 <= r < d` divides to `q`. */
  lemma DivUnique(m: int, d: int, q: int, r: int)
    requires d > 0 && 0 <= r < d && m == q * d + r
    ensures m / d == q
  {
    var q', r' := m / d, m % d;
    assert m == q' * d + r';
    var k := q - q';
    assert k * d == q * d - q' * d;
    assert k * d == r' - r;
    if k >= 1 {
      MulAtLeast(k, d);
    } else if k <= -1 {
      MulAtLeast(-k, d);
    }
  }
}
