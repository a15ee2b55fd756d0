/** The part of a numpy array the engine relies on: a shape and the elements in
    row-major order. */
module NdArrays {

  datatype NdArray = NdArray(shape: seq<nat>, data: seq<int>)

  function Product(xs: seq<nat>): nat
  {
    if |xs| == 0 then 1 else xs[0] * Product(xs[1..])
  }

  lemma ProductOfPair(xs: seq<nat>)
    requires |xs| == 2
    ensures Product(xs) == xs[0] * xs[1]
  {
    assert xs[1..][1..] == [];
    assert Product(xs[1..]) == xs[1] * Product(xs[1..][1..]);
  }

  lemma ProductOfSingle(xs: seq<nat>)
    requires |xs| == 1
    ensures Product(xs) == xs[0]
  {
    assert xs[1..] == [];
  }

  /** The element count agrees with the shape, as it does for every numpy array. */
  predicate WellFormed(a: NdArray)
  {
    |a.data| == Product(a.shape)
  }

  function Rank(a: NdArray): nat
  {
    |a.shape|
  }

  /** Every element is a dead (0) or alive (1) cell. */
  predicate Binary(xs: seq<int>)
  {
    forall k :: 0 <= k < |xs| ==> xs[k] == 0 || xs[k] == 1
  }

  lemma RowMajorBound(r: int, c: int, h: nat, w: nat)
    requires 0 <= r < h && 0 <= c < w
    ensures 0 <= r * w + c < h * w
  {
    assert r * w <= (h - 1) * w by {
      assert (h - 1) * w - r * w == (h - 1 - r) * w;
    }
  }

  /** Element (r, c) of a rank-2 array. */
  function At2(a: NdArray, r: int, c: int): int
    requires WellFormed(a) && Rank(a) == 2
    requires 0 <= r < a.shape[0] && 0 <= c < a.shape[1]
  {
    ProductOfPair(a.shape);
    RowMajorBound(r, c, a.shape[0], a.shape[1]);
    a.data[r * a.shape[1] + c]
  }
}
