/**
 Lines along an axis by the coordinates of a point on them, and a function of one line applied to all.
 */
module Fibres {
  import opened MixedRadix
  import opened Shapes
  import opened Coordinates
  import opened Lines

  /** The element at coordinates `x`. */
  ghost function Elem<T>(v: seq<T>, d: seq<nat>, x: seq<nat>): T
    requires |v| == Product(d) && Inside(x, d)
  {
    EncodeBound(x, d);
    v[Encode(x, d)]
  }

  lemma SameElems<T>(v: seq<T>, w: seq<T>, d: seq<nat>)
    requires |v| == Product(d) == |w|
    requires forall x: seq<nat> | Inside(x, d) :: Elem(v, d, x) == Elem(w, d, x)
    ensures v == w
  {
    forall o | 0 <= o < |v| ensures v[o] == w[o] {
      EncodeDecode(o, d);
      assert Elem(v, d, Decode(o, d)) == Elem(w, d, Decode(o, d));
    }
  }

  /** The coordinates with another position along an axis; past the rank there is only one. */
  function Put(x: seq<nat>, axis: nat, j: nat): (y: seq<nat>)
    ensures |y| == |x|
  {
    if axis < |x| then x[axis := j] else x
  }

  lemma PutInside(x: seq<nat>, d: seq<nat>, axis: nat, j: nat)
    requires Inside(x, d) && j < Extent(d, axis)
    ensures Inside(Put(x, axis, j), d) && Coordinate(Put(x, axis, j), axis) == j
    ensures Coordinate(x, axis) < Extent(d, axis) && Put(x, axis, Coordinate(x, axis)) == x
  {
  }

  lemma PutOther(x: seq<nat>, a: nat, j: nat, b: nat, k: nat)
    requires a != b
    ensures Put(Put(x, a, j), b, k) == Put(Put(x, b, k), a, j) && Coordinate(Put(x, a, j), b) == Coordinate(x, b)
  {
  }

  /** The line along an axis through `x`. */
  ghost function Fibre<T>(v: seq<T>, d: seq<nat>, axis: nat, x: seq<nat>): (line: seq<T>)
    requires |v| == Product(d) && Inside(x, d)
    ensures |line| == Extent(d, axis)
  {
    seq(Extent(d, axis), j requires 0 <= j < Extent(d, axis) => PutInside(x, d, axis, j); Elem(v, d, Put(x, axis, j)))
  }

  lemma FibreAt<T>(v: seq<T>, d: seq<nat>, axis: nat, x: seq<nat>, j: nat)
    requires |v| == Product(d) && Inside(x, d) && j < Extent(d, axis)
    ensures Inside(Put(x, axis, j), d) && Fibre(v, d, axis, x)[j] == Elem(v, d, Put(x, axis, j))
    ensures Fibre(v, d, axis, Put(x, axis, j)) == Fibre(v, d, axis, x)
  {
    PutInside(x, d, axis, j);
    forall k | 0 <= k < Extent(d, axis) ensures Fibre(v, d, axis, Put(x, axis, j))[k] == Fibre(v, d, axis, x)[k] {
      assert Put(Put(x, axis, j), axis, k) == Put(x, axis, k);
    }
  }

  lemma ElemOnFibre<T>(v: seq<T>, d: seq<nat>, axis: nat, x: seq<nat>)
    requires |v| == Product(d) && Inside(x, d)
    ensures Coordinate(x, axis) < Extent(d, axis)
    ensures Elem(v, d, x) == Fibre(v, d, axis, x)[Coordinate(x, axis)]
  {
    InsideIsWithin(x, d);
    assert Coordinate(x, axis) < Extent(d, axis);
    PutInside(x, d, axis, Coordinate(x, axis));
  }

  lemma SameFibres<T>(v: seq<T>, w: seq<T>, d: seq<nat>, axis: nat)
    requires |v| == Product(d) == |w|
    requires forall x: seq<nat> | Inside(x, d) :: Fibre(v, d, axis, x) == Fibre(w, d, axis, x)
    ensures v == w
  {
    forall x: seq<nat> | Inside(x, d) ensures Elem(v, d, x) == Elem(w, d, x) {
      ElemOnFibre(v, d, axis, x);
      ElemOnFibre(w, d, axis, x);
    }
    SameElems(v, w, d);
  }

  // ----- one function for all lines

  /** The function applied to every line along an axis. */
  ghost function Mapped<T(!new)>(g: seq<T> -> seq<T>, v: seq<T>, d: seq<nat>, axis: nat): (w: seq<T>)
    requires |v| == Product(d) && KeepsLength(g, Extent(d, axis))
    ensures |w| == |v|
  {
    seq(|v|, o requires 0 <= o < |v| =>
      EncodeDecode(o, d);
      ElemOnFibre(v, d, axis, Decode(o, d));
      g(Fibre(v, d, axis, Decode(o, d)))[Coordinate(Decode(o, d), axis)])
  }

  lemma MappedAt<T(!new)>(g: seq<T> -> seq<T>, v: seq<T>, d: seq<nat>, axis: nat, x: seq<nat>)
    requires |v| == Product(d) && KeepsLength(g, Extent(d, axis)) && Inside(x, d)
    ensures Coordinate(x, axis) < Extent(d, axis) == |g(Fibre(v, d, axis, x))|
    ensures Elem(Mapped(g, v, d, axis), d, x) == g(Fibre(v, d, axis, x))[Coordinate(x, axis)]
  {
    ElemOnFibre(v, d, axis, x);
    EncodeBound(x, d);
    DecodeEncode(x, d);
  }

  lemma MappedFibre<T(!new)>(g: seq<T> -> seq<T>, v: seq<T>, d: seq<nat>, axis: nat, x: seq<nat>)
    requires |v| == Product(d) && KeepsLength(g, Extent(d, axis)) && Inside(x, d)
    ensures Fibre(Mapped(g, v, d, axis), d, axis, x) == g(Fibre(v, d, axis, x))
  {
    var w := Mapped(g, v, d, axis);
    forall j | 0 <= j < Extent(d, axis) ensures Fibre(w, d, axis, x)[j] == g(Fibre(v, d, axis, x))[j] {
      FibreAt(w, d, axis, x, j);
      FibreAt(v, d, axis, x, j);
      PutInside(x, d, axis, j);
      MappedAt(g, v, d, axis, Put(x, axis, j));
    }
  }

  /** Arrays whose lines are those of another under the function are that array mapped. */
  lemma MappedUnique<T(!new)>(g: seq<T> -> seq<T>, v: seq<T>, w: seq<T>, d: seq<nat>, axis: nat)
    requires |v| == Product(d) == |w| && KeepsLength(g, Extent(d, axis))
    requires forall x: seq<nat> | Inside(x, d) :: Fibre(w, d, axis, x) == g(Fibre(v, d, axis, x))
    ensures w == Mapped(g, v, d, axis)
  {
    forall x: seq<nat> | Inside(x, d) ensures Fibre(w, d, axis, x) == Fibre(Mapped(g, v, d, axis), d, axis, x) {
      MappedFibre(g, v, d, axis, x);
    }
    SameFibres(w, Mapped(g, v, d, axis), d, axis);
  }

  /** Different functions that do the same to every line. */
  lemma MappedSame<T(!new)>(g: seq<T> -> seq<T>, h: seq<T> -> seq<T>, v: seq<T>, d: seq<nat>, axis: nat)
    requires |v| == Product(d) && KeepsLength(g, Extent(d, axis)) && KeepsLength(h, Extent(d, axis))
    requires forall x: seq<nat> | Inside(x, d) :: g(Fibre(v, d, axis, x)) == h(Fibre(v, d, axis, x))
    ensures Mapped(g, v, d, axis) == Mapped(h, v, d, axis)
  {
    forall x: seq<nat> | Inside(x, d) ensures Fibre(Mapped(g, v, d, axis), d, axis, x) == h(Fibre(v, d, axis, x)) {
      MappedFibre(g, v, d, axis, x);
    }
    MappedUnique(h, v, Mapped(g, v, d, axis), d, axis);
  }

  ghost predicate Injective<T(!new)>(g: seq<T> -> seq<T>) {
    forall a: seq<T>, b: seq<T> | |a| == |b| && g(a) == g(b) :: a == b
  }

  lemma MappedInjective<T(!new)>(g: seq<T> -> seq<T>, v: seq<T>, w: seq<T>, d: seq<nat>, axis: nat)
    requires |v| == Product(d) == |w| && KeepsLength(g, Extent(d, axis)) && Injective(g)
    requires Mapped(g, v, d, axis) == Mapped(g, w, d, axis)
    ensures v == w
  {
    forall x: seq<nat> | Inside(x, d) ensures Fibre(v, d, axis, x) == Fibre(w, d, axis, x) {
      MappedFibre(g, v, d, axis, x);
      MappedFibre(g, w, d, axis, x);
    }
    SameFibres(v, w, d, axis);
  }

  // ----- by inner and outer position

  /** The line through `x` is the one that its other coordinates number. */
  lemma FibreIsLine<T>(v: seq<T>, d: seq<nat>, axis: nat, x: seq<nat>, inner: nat, outer: nat)
    requires |v| == Product(d) && Inside(x, d)
    requires inner == (if axis < |d| then Encode(x[..axis], d[..axis]) else Encode(x, d))
    requires outer == (if axis < |d| then Encode(x[axis + 1..], d[axis + 1..]) else 0)
    ensures inner < Stride(d, axis) && outer < OuterCount(d, axis)
    ensures |v| == Stride(d, axis) * (Extent(d, axis) * OuterCount(d, axis))
    ensures Line(v, Stride(d, axis), Extent(d, axis), OuterCount(d, axis), inner, outer) == Fibre(v, d, axis, x)
  {
    var s, n, m := Stride(d, axis), Extent(d, axis), OuterCount(d, axis);
    LinesFill(d, axis);
    EncodeBound(x, d);
    if axis < |d| {
      OffsetAlongAxis(x, d, axis);
    }
    forall j | 0 <= j < n ensures Line(v, s, n, m, inner, outer)[j] == Fibre(v, d, axis, x)[j] {
      LineAt(v, s, n, m, inner, outer, j);
      FibreAt(v, d, axis, x, j);
      FibreOffset(x, d, axis, inner, outer, j);
    }
  }

  lemma FibreOffset(x: seq<nat>, d: seq<nat>, axis: nat, inner: nat, outer: nat, j: nat)
    requires Inside(x, d) && j < Extent(d, axis)
    requires inner == (if axis < |d| then Encode(x[..axis], d[..axis]) else Encode(x, d))
    requires outer == (if axis < |d| then Encode(x[axis + 1..], d[axis + 1..]) else 0)
    ensures Encode(Put(x, axis, j), d) == LineOffset(Stride(d, axis), Extent(d, axis), inner, j, outer)
  {
    if axis < |d| {
      var y := Put(x, axis, j);
      PutInside(x, d, axis, j);
      assert y[..axis] == x[..axis] && y[axis + 1..] == x[axis + 1..];
      OffsetAlongAxis(y, d, axis);
    }
  }

  /** The inner and outer position of the line through `x`, and the offset of each of its elements. */
  lemma LineThrough<T>(v: seq<T>, d: seq<nat>, axis: nat, x: seq<nat>) returns (inner: nat, outer: nat)
    requires |v| == Product(d) && Inside(x, d)
    ensures inner < Stride(d, axis) && outer < OuterCount(d, axis)
    ensures |v| == Stride(d, axis) * (Extent(d, axis) * OuterCount(d, axis))
    ensures Line(v, Stride(d, axis), Extent(d, axis), OuterCount(d, axis), inner, outer) == Fibre(v, d, axis, x)
    ensures forall j: nat | j < Extent(d, axis) ::
              Encode(Put(x, axis, j), d) == LineOffset(Stride(d, axis), Extent(d, axis), inner, j, outer)
  {
    inner := if axis < |d| then Encode(x[..axis], d[..axis]) else Encode(x, d);
    outer := if axis < |d| then Encode(x[axis + 1..], d[axis + 1..]) else 0;
    FibreIsLine(v, d, axis, x, inner, outer);
    forall j: nat | j < Extent(d, axis)
      ensures Encode(Put(x, axis, j), d) == LineOffset(Stride(d, axis), Extent(d, axis), inner, j, outer)
    {
      FibreOffset(x, d, axis, inner, outer, j);
    }
  }

  lemma MapsLinesIsMapped<T(!new)>(g: seq<T> -> seq<T>, v: seq<T>, w: seq<T>, d: seq<nat>, axis: nat)
    requires |v| == Product(d) && KeepsLength(g, Extent(d, axis))
    requires MapsLines(g, v, w, Stride(d, axis), Extent(d, axis), OuterCount(d, axis))
    ensures w == Mapped(g, v, d, axis)
  {
    LinesFill(d, axis);
    forall x: seq<nat> | Inside(x, d) ensures Fibre(w, d, axis, x) == g(Fibre(v, d, axis, x)) {
      var inner := if axis < |d| then Encode(x[..axis], d[..axis]) else Encode(x, d);
      var outer := if axis < |d| then Encode(x[axis + 1..], d[axis + 1..]) else 0;
      FibreIsLine(v, d, axis, x, inner, outer);
      FibreIsLine(w, d, axis, x, inner, outer);
    }
    MappedUnique(g, v, w, d, axis);
  }
}
