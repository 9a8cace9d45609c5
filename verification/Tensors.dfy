/**
 Array values: canonical extents with the elements in column-major order, and coordinate lists that
 are longer or shorter than the rank, as the kernels use them.
 */
module Tensors {
  import opened MixedRadix
  import opened Shapes

  datatype Tensor<T> = Tensor(dims: seq<nat>, data: seq<T>)
  {
    predicate Valid() {
      IsCanonical(dims) && |data| == Product(dims)
    }
  }

  /** The 0-by-0 array. */
  function Nothing<T>(): Tensor<T> {
    Tensor([0, 0], [])
  }

  lemma NothingIsValid<T>()
    ensures Nothing<T>().Valid()
  {
    Encode2(0, 0, 0, 0);
  }

  /** The element at coordinates `x`. */
  function At<T>(t: Tensor<T>, x: seq<nat>): T
    requires t.Valid() && Inside(x, t.dims)
  {
    EncodeBound(x, t.dims);
    t.data[Encode(x, t.dims)]
  }

  /** Arrays with the same extents and the same elements are the same. */
  lemma SameElements<T>(a: Tensor<T>, b: Tensor<T>)
    requires a.Valid() && b.Valid() && a.dims == b.dims
    requires forall x: seq<nat> | Inside(x, a.dims) :: At(a, x) == At(b, x)
    ensures a == b
  {
    forall o | 0 <= o < |a.data| ensures a.data[o] == b.data[o] {
      var x := Decode(o, a.dims);
      EncodeDecode(o, a.dims);
      assert At(a, x) == At(b, x);
    }
  }

  /** A coordinate list cut or zero-filled to length `n`, as offset computation reads it. */
  function Fit(x: seq<nat>, n: nat): (y: seq<nat>)
    ensures |y| == n
  {
    if |x| >= n then x[..n] else x + Zeros(n - |x|)
  }

  /** The offset of a coordinate list of any length; missing coordinates count as zero. */
  function OffsetFrom(x: seq<nat>, d: seq<nat>): nat {
    Encode(Fit(x, |d|), d)
  }

  /** The running-stride loop over the extents, reading missing coordinates as zero. */
  method FindOffsetFrom(x: seq<nat>, d: seq<nat>) returns (offset: nat)
    ensures offset == OffsetFrom(x, d)
  {
    ghost var y := Fit(x, |d|);
    var stride := 1;
    offset := 0;
    for axis := 0 to |d|
      invariant stride == Product(d[..axis]) && offset == Encode(y[..axis], d[..axis])
    {
      var coordinate := if axis < |x| then x[axis] else 0;
      EncodeSnoc(y, d, axis);
      offset, stride := AddComponent(offset, coordinate, stride), stride * d[axis];
    }
    assert y[..|d|] == y && d[..|d|] == d;
  }

  lemma InsideOnes(x: seq<nat>, k: nat)
    requires Inside(x, Ones(k))
    ensures x == Zeros(k)
  {
  }

  lemma DecodeSplit(n: nat, d: seq<nat>, k: nat)
    requires n < Product(d)
    ensures n < Product(d + Ones(k))
    ensures Decode(n, d + Ones(k)) == Decode(n, d) + Zeros(k)
  {
    EncodeDecode(n, d);
    OnesAndZeros(k);
    ExtendedSameOffsets(Decode(n, d), d, k);
    DecodeEncode(Decode(n, d) + Zeros(k), d + Ones(k));
  }

  /** Coordinates over extents with extra trailing singletons address the same element. */
  lemma OffsetFromExtended(x: seq<nat>, d: seq<nat>, k: nat)
    requires Inside(x, d + Ones(k))
    ensures OffsetFrom(x, d) == Encode(x, d + Ones(k)) && Inside(x[..|d|], d)
    ensures Encode(x, d + Ones(k)) < Product(d)
  {
    var head, tail := x[..|d|], x[|d|..];
    assert Inside(tail, Ones(k)) by {
      forall i | 0 <= i < k ensures tail[i] < Ones(k)[i] {
        assert tail[i] == x[|d| + i] && (d + Ones(k))[|d| + i] == 1;
      }
    }
    InsideOnes(tail, k);
    assert x == head + Zeros(k);
    assert Inside(head, d) by {
      forall i | 0 <= i < |d| ensures head[i] < d[i] {
        assert (d + Ones(k))[i] == d[i];
      }
    }
    ExtendedSameOffsets(head, d, k);
    EncodeBound(head, d);
  }

  lemma ExtendedSize(d: seq<nat>, n: nat)
    ensures Product(Extended(d, n)) == Product(d)
  {
    if |d| < n {
      ExtendedSameOffsets(d, d, n - |d|);
    }
  }

  /** A list and its canonical form differ by trailing singletons only. */
  lemma CanonicalSplit(d: seq<nat>) returns (k: nat)
    requires |d| >= 2
    ensures |Canonical(d)| + k == |d| && d == Canonical(d) + Ones(k) && IsCanonical(Canonical(d))
    ensures Product(Canonical(d)) == Product(d)
  {
    StrippedIsCanonical(d);
    k := |d| - |Canonical(d)|;
  }

  /** Canonical extents are determined by the extents along all axes. */
  lemma CanonicalUnique(a: seq<nat>, b: seq<nat>)
    requires IsCanonical(a) && IsCanonical(b)
    requires forall axis: nat :: Extent(a, axis) == Extent(b, axis)
    ensures a == b
  {
    assert Extent(a, |b| - 1) == Extent(b, |b| - 1);
    assert Extent(a, |a| - 1) == Extent(b, |a| - 1);
    assert |a| == |b|;
    forall i | 0 <= i < |a| ensures a[i] == b[i] {
      assert Extent(a, i) == Extent(b, i);
    }
  }
}
