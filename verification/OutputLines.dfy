/**
 Arrays that differ from another in their extent along one axis: where the lines of the one are in the other.
 */
module OutputLines {
  import opened MixedRadix
  import opened Shapes
  import opened Tensors
  import opened Coordinates
  import opened Lines
  import opened Fibres
  import opened Windows

  /** Coordinates that agree along all axes but one. */
  ghost predicate OnSameLine(x: seq<nat>, y: seq<nat>, axis: nat) {
    forall a: nat | a != axis :: Coordinate(x, a) == Coordinate(y, a)
  }

  /** Extents that agree along all axes but one. */
  ghost predicate SameButFor(d: seq<nat>, e: seq<nat>, axis: nat) {
    forall a: nat | a != axis :: Extent(d, a) == Extent(e, a)
  }

  lemma OutputExtents(d: seq<nat>, axis: nat, n: nat)
    ensures SameButFor(Canonical(OutputDims(d, axis, n)), d, axis)
    ensures Extent(Canonical(OutputDims(d, axis, n)), axis) == n
  {
    CanonicalIsCanonical(OutputDims(d, axis, n));
    forall a: nat | a != axis ensures Extent(Canonical(OutputDims(d, axis, n)), a) == Extent(d, a) {
      assert Extent(OutputDims(d, axis, n), a) == Extent(d, a);
    }
  }

  /** The offset among full extents, by the positions of its line. */
  lemma FullOffset(full: seq<nat>, axis: nat, x: seq<nat>) returns (inner: nat, outer: nat)
    requires axis < |full| && Inside(x, full)
    ensures inner == Encode(x[..axis], full[..axis]) < Product(full[..axis])
    ensures outer == Encode(x[axis + 1..], full[axis + 1..]) < Product(full[axis + 1..])
    ensures Encode(x, full) == LineOffset(Product(full[..axis]), full[axis], inner, x[axis], outer)
  {
    inner, outer := Encode(x[..axis], full[..axis]), Encode(x[axis + 1..], full[axis + 1..]);
    OffsetAlongAxis(x, full, axis);
  }

  /** Stride and outer count of the extents written out past the axis. */
  lemma ExtendedLines(d: seq<nat>, axis: nat)
    ensures var e := Extended(d, axis + 1);
            && axis < |e| && Product(e[..axis]) == Stride(d, axis) && e[axis] == Extent(d, axis)
            && Product(e[axis + 1..]) == OuterCount(d, axis)
  {
    var e := Extended(d, axis + 1);
    if axis < |d| {
      assert e == d;
    } else {
      assert e[..axis] == d + Ones(axis - |d|) && e[axis + 1..] == [];
      ExtendedSameOffsets(d, d, axis - |d|);
    }
  }

  lemma SlicesAgree(x: seq<nat>, y: seq<nat>, axis: nat, n: nat)
    requires OnSameLine(x, y, axis) && axis < n
    ensures Fit(x, n)[..axis] == Fit(y, n)[..axis] && Fit(x, n)[axis + 1..] == Fit(y, n)[axis + 1..]
    ensures Fit(x, n)[axis] == Coordinate(x, axis)
  {
    forall a: nat | a < n && a != axis ensures Fit(x, n)[a] == Fit(y, n)[a] {
      assert Coordinate(x, a) == Coordinate(y, a);
    }
    forall a: nat | a < axis ensures Fit(x, n)[..axis][a] == Fit(y, n)[..axis][a] {
      assert Fit(x, n)[a] == Fit(y, n)[a];
    }
    var after, after' := Fit(x, n)[axis + 1..], Fit(y, n)[axis + 1..];
    forall a: nat | a < |after| ensures after[a] == after'[a] {
      assert Fit(x, n)[axis + 1 + a] == Fit(y, n)[axis + 1 + a];
    }
  }

  /** Offsets over an array and over its full extents. */
  lemma FitEncode(x: seq<nat>, d: seq<nat>, full: seq<nat>)
    requires Inside(x, d) && |d| <= |full| && full == Extended(d, |full|)
    ensures Inside(Fit(x, |full|), full) && Encode(Fit(x, |full|), full) == Encode(x, d)
  {
    InsideIsWithin(x, d);
    FitOffset(x, d, |full|);
    assert Fit(x, |d|) == x;
  }

  /** Elements on the same line of either array have the same inner and outer position. */
  lemma OutputOffset(d: seq<nat>, axis: nat, k: nat, x: seq<nat>, y: seq<nat>) returns (inner: nat, outer: nat)
    requires IsCanonical(d) && Inside(y, d) && Inside(x, Canonical(OutputDims(d, axis, k))) && OnSameLine(x, y, axis)
    ensures inner < Stride(d, axis) && outer < OuterCount(d, axis)
    ensures Coordinate(x, axis) < k && Coordinate(y, axis) < Extent(d, axis)
    ensures Encode(y, d) == LineOffset(Stride(d, axis), Extent(d, axis), inner, Coordinate(y, axis), outer)
    ensures Encode(x, Canonical(OutputDims(d, axis, k))) == LineOffset(Stride(d, axis), k, inner, Coordinate(x, axis), outer)
  {
    var e, full := Extended(d, axis + 1), OutputDims(d, axis, k);
    var r := |e|;
    ExtendedLines(d, axis);
    FitEncode(y, d, e);
    ExtendedCanonical(full);
    CanonicalIsCanonical(full);
    FitEncode(x, Canonical(full), full);
    SlicesAgree(x, y, axis, r);
    SlicesAgree(y, x, axis, r);
    assert full[..axis] == e[..axis] && full[axis + 1..] == e[axis + 1..];
    inner, outer := FullOffset(e, axis, Fit(y, r));
    var inner', outer' := FullOffset(full, axis, Fit(x, r));
  }

  /** The line of the array that an element of the other is on. */
  lemma OutputLine<T>(v: seq<T>, d: seq<nat>, axis: nat, k: nat, x: seq<nat>, y: seq<nat>) returns (inner: nat, outer: nat)
    requires |v| == Product(d) && IsCanonical(d) && Inside(y, d) && Inside(x, Canonical(OutputDims(d, axis, k)))
    requires OnSameLine(x, y, axis)
    ensures inner < Stride(d, axis) && outer < OuterCount(d, axis) && Coordinate(x, axis) < k
    ensures |v| == Stride(d, axis) * (Extent(d, axis) * OuterCount(d, axis))
    ensures Line(v, Stride(d, axis), Extent(d, axis), OuterCount(d, axis), inner, outer) == Fibre(v, d, axis, y)
    ensures Encode(x, Canonical(OutputDims(d, axis, k))) == LineOffset(Stride(d, axis), k, inner, Coordinate(x, axis), outer)
  {
    inner, outer := OutputOffset(d, axis, k, x, y);
    var inner', outer' := LineThrough(v, d, axis, y);
    var j := Coordinate(y, axis);
    PutInside(y, d, axis, j);
    LineOffsetUnique(Stride(d, axis), Extent(d, axis), inner, j, outer, inner', j, outer');
  }
}
