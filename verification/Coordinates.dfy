/**
 Coordinates along all axes, however many of them are written down: those that are not given are zero,
 as extents past the rank are one.
 */
module Coordinates {
  import opened MixedRadix
  import opened Shapes
  import opened Tensors

  /** The coordinate along any axis; coordinates that are not given are zero. */
  function Coordinate(x: seq<nat>, axis: nat): nat {
    if axis < |x| then x[axis] else 0
  }

  /** Coordinates, along all axes, of an element of an array with extents `d`. */
  ghost predicate Within(x: seq<nat>, d: seq<nat>) {
    forall axis: nat :: Coordinate(x, axis) < Extent(d, axis)
  }

  ghost function Element<T>(t: Tensor<T>, x: seq<nat>): T
    requires t.Valid() && Within(x, t.dims)
  {
    WithinBounds(x, t.dims);
    t.data[OffsetFrom(x, t.dims)]
  }

  lemma FitCoordinates(x: seq<nat>, d: seq<nat>)
    requires Within(x, d)
    ensures Inside(Fit(x, |d|), d)
    ensures forall axis: nat :: Coordinate(Fit(x, |d|), axis) == Coordinate(x, axis)
  {
    forall axis: nat ensures Coordinate(Fit(x, |d|), axis) == Coordinate(x, axis) {
      assert Coordinate(x, axis) < Extent(d, axis);
    }
    forall i | 0 <= i < |d| ensures Fit(x, |d|)[i] < d[i] {
      assert Coordinate(x, i) < Extent(d, i);
    }
  }

  lemma WithinBounds(x: seq<nat>, d: seq<nat>)
    requires Within(x, d)
    ensures OffsetFrom(x, d) < Product(d)
  {
    FitCoordinates(x, d);
    EncodeBound(Fit(x, |d|), d);
  }

  lemma InsideIsWithin(x: seq<nat>, d: seq<nat>)
    requires Inside(x, d)
    ensures Within(x, d)
  {
  }

  lemma WithinPositive(x: seq<nat>, d: seq<nat>)
    requires Within(x, d)
    ensures Positive(d)
  {
    forall i | 0 <= i < |d| ensures d[i] > 0 {
      assert Coordinate(x, i) < Extent(d, i);
    }
  }

  lemma WithinSame(x: seq<nat>, y: seq<nat>, d: seq<nat>)
    requires forall axis: nat :: Coordinate(x, axis) == Coordinate(y, axis)
    ensures Within(x, d) <==> Within(y, d)
  {
    forall axis: nat ensures Coordinate(x, axis) < Extent(d, axis) <==> Coordinate(y, axis) < Extent(d, axis) {
      assert Coordinate(x, axis) == Coordinate(y, axis);
    }
  }

  /** Only the coordinates matter, not how many of them are written down. */
  lemma ElementSame<T>(t: Tensor<T>, x: seq<nat>, y: seq<nat>)
    requires t.Valid() && Within(x, t.dims) && Within(y, t.dims)
    requires forall axis: nat :: Coordinate(x, axis) == Coordinate(y, axis)
    ensures Element(t, x) == Element(t, y)
  {
    var n := |t.dims|;
    forall i | 0 <= i < n ensures Fit(x, n)[i] == Fit(y, n)[i] {
      assert Coordinate(x, i) == Coordinate(y, i);
    }
    assert Fit(x, n) == Fit(y, n);
  }

  /** Offsets over extents with trailing singletons. */
  lemma FitOffset(x: seq<nat>, d: seq<nat>, n: nat)
    requires Within(x, d) && |d| <= n
    ensures Inside(Fit(x, n), Extended(d, n)) && Encode(Fit(x, n), Extended(d, n)) == OffsetFrom(x, d) < Product(d)
    ensures forall axis: nat :: Coordinate(Fit(x, n), axis) == Coordinate(x, axis)
  {
    var e := Extended(d, n);
    forall axis: nat ensures Coordinate(x, axis) < Extent(e, axis) {
      assert Coordinate(x, axis) < Extent(d, axis);
    }
    FitCoordinates(x, e);
    assert e == d + Ones(n - |d|);
    OffsetFromExtended(Fit(x, n), d, n - |d|);
    FitTwice(x, n, |d|);
  }

  lemma FitTwice(x: seq<nat>, n: nat, k: nat)
    requires k <= n
    ensures Fit(Fit(x, n), k) == Fit(x, k)
  {
  }

  /** Arrays with the same extents and elements are the same. */
  lemma SameByCoordinates<T>(a: Tensor<T>, b: Tensor<T>)
    requires a.Valid() && b.Valid() && a.dims == b.dims
    requires forall x: seq<nat> | Within(x, a.dims) :: Element(a, x) == Element(b, x)
    ensures a == b
  {
    forall x: seq<nat> | Inside(x, a.dims) ensures At(a, x) == At(b, x) {
      InsideIsWithin(x, a.dims);
      assert Fit(x, |a.dims|) == x;
      assert Element(a, x) == Element(b, x);
    }
    SameElements(a, b);
  }

  lemma CanonicalExtended(d: seq<nat>, n: nat)
    requires IsCanonical(d)
    ensures Canonical(Extended(d, n)) == d
  {
    CanonicalIsCanonical(Extended(d, n));
    CanonicalUnique(Canonical(Extended(d, n)), d);
  }

  lemma ExtendedCanonical(out: seq<nat>)
    requires |out| >= 2
    ensures Extended(Canonical(out), |out|) == out
  {
    var k := CanonicalSplit(out);
  }
}
