/**
 Cropping and zero-padding an array to new extents before a transform.
 */
module Resizing {
  import opened MixedRadix
  import opened Shapes
  import opened Tensors
  import opened Coordinates
  import opened Lines

  ghost function ElementOr<T>(src: Tensor<T>, zero: T, x: seq<nat>): T
    requires src.Valid()
  {
    if Within(x, src.dims) then Element(src, x) else zero
  }

  /** The resized array has the source's element wherever there is one and zero elsewhere. */
  ghost function Resized<T>(src: Tensor<T>, zero: T, target: seq<nat>): (r: Tensor<T>)
    requires src.Valid() && IsCanonical(target)
    ensures r.Valid() && r.dims == target
  {
    Tensor(target, seq(Product(target), o requires 0 <= o < Product(target) => ElementOr(src, zero, Decode(o, target))))
  }

  /** Only the coordinates matter, not how many of them are written down. */
  lemma SameCoordinates<T>(src: Tensor<T>, zero: T, x: seq<nat>, y: seq<nat>)
    requires src.Valid() && forall axis: nat :: Coordinate(x, axis) == Coordinate(y, axis)
    ensures ElementOr(src, zero, x) == ElementOr(src, zero, y)
  {
    WithinSame(x, y, src.dims);
    if Within(x, src.dims) {
      ElementSame(src, x, y);
    }
  }

  /** Reading a resized array at any coordinates. */
  lemma ResizedAt<T>(src: Tensor<T>, zero: T, target: seq<nat>, x: seq<nat>)
    requires src.Valid() && IsCanonical(target)
    ensures ElementOr(Resized(src, zero, target), zero, x)
            == if Within(x, target) then ElementOr(src, zero, x) else zero
  {
    if Within(x, target) {
      FitCoordinates(x, target);
      WithinBounds(x, target);
      DecodeEncode(Fit(x, |target|), target);
      SameCoordinates(src, zero, x, Fit(x, |target|));
    }
  }

  /** Along every axis, `through` has room for what `from` and `to` have in common. */
  ghost predicate KeepsCommon(from: seq<nat>, through: seq<nat>, to: seq<nat>) {
    forall axis: nat :: Extent(from, axis) <= Extent(through, axis) || Extent(to, axis) <= Extent(through, axis)
  }

  /**
   Resizing in two steps is resizing at once when the middle keeps what both ends have in common, or
   when they have nothing in common.
   */
  lemma ResizeComposes<T>(src: Tensor<T>, zero: T, through: seq<nat>, to: seq<nat>)
    requires src.Valid() && IsCanonical(through) && IsCanonical(to)
    requires KeepsCommon(src.dims, through, to) || !Positive(src.dims) || !Positive(to)
    ensures Resized(Resized(src, zero, through), zero, to) == Resized(src, zero, to)
  {
    var once, twice := Resized(src, zero, to), Resized(Resized(src, zero, through), zero, to);
    forall o | 0 <= o < Product(to) ensures twice.data[o] == once.data[o] {
      var x := Decode(o, to);
      EncodeDecode(o, to);
      InsideIsWithin(x, to);
      ResizedAt(src, zero, through, x);
      WithinMiddle(x, src.dims, through, to);
    }
  }

  lemma WithinMiddle(x: seq<nat>, from: seq<nat>, through: seq<nat>, to: seq<nat>)
    requires Within(x, to) && (KeepsCommon(from, through, to) || !Positive(from) || !Positive(to))
    ensures Within(x, from) ==> Within(x, through)
  {
    WithinPositive(x, to);
    if Within(x, from) {
      WithinPositive(x, from);
      forall axis: nat ensures Coordinate(x, axis) < Extent(through, axis) {
        assert Coordinate(x, axis) < Extent(to, axis) && Coordinate(x, axis) < Extent(from, axis);
        assert Extent(from, axis) <= Extent(through, axis) || Extent(to, axis) <= Extent(through, axis);
      }
    }
  }

  lemma LostCoordinates(from: seq<nat>, through: seq<nat>, to: seq<nat>) returns (x: seq<nat>)
    requires Positive(from) && Positive(to) && !KeepsCommon(from, through, to)
    ensures Within(x, from) && Within(x, to) && !Within(x, through)
  {
    var axis: nat :| Extent(through, axis) < Extent(from, axis) && Extent(through, axis) < Extent(to, axis);
    x := Zeros(axis + 1)[axis := Extent(through, axis)];
    assert Coordinate(x, axis) == Extent(through, axis);
    forall a: nat ensures Coordinate(x, a) < Extent(from, a) && Coordinate(x, a) < Extent(to, a) {
    }
  }

  /** Otherwise some array loses an element on the way. */
  lemma ResizeLoses<T>(zero: T, one: T, from: seq<nat>, through: seq<nat>, to: seq<nat>) returns (src: Tensor<T>)
    requires zero != one && IsCanonical(from) && IsCanonical(through) && IsCanonical(to)
    requires Positive(from) && Positive(to) && !KeepsCommon(from, through, to)
    ensures src.Valid() && src.dims == from
    ensures Resized(Resized(src, zero, through), zero, to) != Resized(src, zero, to)
  {
    src := Tensor(from, seq(Product(from), _ => one));
    var x := LostCoordinates(from, through, to);
    WithinBounds(x, from);
    ResizedAt(src, zero, to, x);
    ResizedAt(src, zero, through, x);
    ResizedAt(Resized(src, zero, through), zero, to, x);
  }

  /** Resizing to the extents an array already has changes nothing. */
  lemma ResizeSame<T>(src: Tensor<T>, zero: T)
    requires src.Valid()
    ensures Resized(src, zero, src.dims) == src
  {
    forall o | 0 <= o < |src.data| ensures Resized(src, zero, src.dims).data[o] == src.data[o] {
      EncodeDecode(o, src.dims);
      InsideIsWithin(Decode(o, src.dims), src.dims);
      assert Fit(Decode(o, src.dims), |src.dims|) == Decode(o, src.dims);
    }
  }

  /** Padding an array and cropping it back restores it. */
  lemma PadThenCrop<T>(src: Tensor<T>, zero: T, wider: seq<nat>)
    requires src.Valid() && IsCanonical(wider) && forall axis: nat :: Extent(src.dims, axis) <= Extent(wider, axis)
    ensures Resized(Resized(src, zero, wider), zero, src.dims) == src
  {
    ResizeComposes(src, zero, wider, src.dims);
    ResizeSame(src, zero);
  }

  /** The array has the target's extents, the source's element wherever the source has one, and zero elsewhere. */
  ghost predicate IsResized<T>(src: Tensor<T>, zero: T, target: seq<nat>, r: Tensor<T>)
    requires src.Valid()
  {
    && r.Valid() && r.dims == target
    && (forall x: seq<nat> | Within(x, target) && Within(x, src.dims) :: Element(r, x) == Element(src, x))
    && forall x: seq<nat> | Within(x, target) && !Within(x, src.dims) :: Element(r, x) == zero
  }

  lemma ResizedIs<T>(src: Tensor<T>, zero: T, target: seq<nat>)
    requires src.Valid() && IsCanonical(target)
    ensures IsResized(src, zero, target, Resized(src, zero, target))
  {
    forall x: seq<nat> | Within(x, target)
      ensures Element(Resized(src, zero, target), x) == if Within(x, src.dims) then Element(src, x) else zero
    {
      ResizedAt(src, zero, target, x);
    }
  }

  // ----- the loop

  /** Strides past the rank are those of trailing singletons. */
  lemma StrideExtended(d: seq<nat>, n: nat, axis: nat)
    requires axis <= |Extended(d, n)|
    ensures Product(Extended(d, n)[..axis]) == Stride(d, axis)
  {
    if axis < |d| {
      assert Extended(d, n)[..axis] == d[..axis];
    } else {
      assert Extended(d, n)[..axis] == d + Ones(axis - |d|);
      ExtendedSameOffsets(d, d, axis - |d|);
    }
  }

  /** The offset summed over the target's axes is the source's offset. */
  lemma SummedOffset(x: seq<nat>, d: seq<nat>)
    requires forall i | 0 <= i < |x| :: x[i] < Extent(d, i)
    ensures Encode(x, Extended(d, |x|)[..|x|]) == OffsetFrom(x, d)
  {
    if |d| <= |x| {
      SummedPast(x, d, |x| - |d|);
    } else {
      assert Extended(d, |x|) == d;
      var tail := d[|x|..];
      SummedShort(x, d[..|x|], tail);
      assert d == d[..|x|] + tail;
    }
  }

  lemma SummedPast(x: seq<nat>, d: seq<nat>, k: nat)
    requires |x| == |d| + k && forall i | 0 <= i < |x| :: x[i] < Extent(d, i)
    ensures Encode(x, Extended(d, |x|)[..|x|]) == OffsetFrom(x, d)
  {
    var e := d + Ones(k);
    assert Extended(d, |x|)[..|x|] == e;
    forall i | 0 <= i < |x| ensures x[i] < e[i] {
      assert x[i] < Extent(d, i);
    }
    OffsetFromExtended(x, d, k);
  }

  lemma SummedShort(x: seq<nat>, d: seq<nat>, tail: seq<nat>)
    requires |x| == |d|
    ensures Encode(x, d) == OffsetFrom(x, d + tail)
  {
    EncodeConcat(x, Zeros(|tail|), d, tail);
    EncodeZeros(tail);
    assert Fit(x, |d + tail|) == x + Zeros(|tail|);
  }

  /** The loop's test, over the target's axes and the source's length, is whether there is an element. */
  lemma InsideHits(x: seq<nat>, d: seq<nat>)
    requires forall i | 0 <= i < |x| :: x[i] < Extent(d, i)
    ensures Within(x, d) <==> Positive(d)
    ensures Within(x, d) <==> OffsetFrom(x, d) < Product(d)
  {
    ProductPositive(d);
    if Positive(d) {
      forall axis: nat ensures Coordinate(x, axis) < Extent(d, axis) {
      }
      WithinBounds(x, d);
    }
    if Within(x, d) {
      WithinPositive(x, d);
    }
  }

  /** In a source without elements a coordinate inside along the axes tested hits none. */
  lemma EmptySourceMisses(x: seq<nat>, d: seq<nat>)
    requires x == [0, 0] && d == [1, 1, 0]
    ensures (forall i | 0 <= i < |x| :: x[i] < Extent(d, i)) && OffsetFrom(x, d) >= Product(d)
  {
    Encode3(0, 0, 0, 1, 1, 0);
  }

  /** One element of the resized array. */
  method ResizeElement<T>(source: seq<T>, from: seq<nat>, target: seq<nat>, o: nat, zero: T) returns (v: T)
    requires Tensor(from, source).Valid() && o < Product(target)
    ensures v == ElementOr(Tensor(from, source), zero, Decode(o, target))
  {
    ghost var x := Decode(o, target);
    ProductPositive(target);
    var inside, offset := SourceOffset(from, target, o);
    if inside {
      InsideHits(x, from);
    }
    v := if inside && offset < |source| then source[offset] else zero;
  }

  /** Whether every coordinate is inside the source, and the offset they sum to. */
  method SourceOffset(from: seq<nat>, target: seq<nat>, o: nat) returns (inside: bool, offset: nat)
    requires Positive(target)
    ensures inside <==> forall i | 0 <= i < |target| :: Decode(o, target)[i] < Extent(from, i)
    ensures inside ==> offset == OffsetFrom(Decode(o, target), from)
  {
    ghost var x, e := Decode(o, target), Extended(from, |target|);
    offset := 0;
    for axis := 0 to |target|
      invariant forall i | 0 <= i < axis :: x[i] < Extent(from, i)
      invariant offset == Encode(x[..axis], e[..axis])
    {
      DecodeAt(o, target, axis);
      var coordinate := (o / Product(target[..axis])) % target[axis];
      if coordinate >= Extent(from, axis) {
        return false, 0;
      }
      SumStep(x, from, axis);
      offset := offset + coordinate * Stride(from, axis);
    }
    SummedOffset(x, from);
    assert x[..|target|] == x;
    inside := true;
  }

  lemma SumStep(x: seq<nat>, d: seq<nat>, axis: nat)
    requires axis < |x|
    ensures var e := Extended(d, |x|);
            Encode(x[..axis + 1], e[..axis + 1]) == Encode(x[..axis], e[..axis]) + x[axis] * Stride(d, axis)
  {
    var n := |x|;
    var e := Extended(d, n)[..n];
    assert Extended(d, n)[..axis + 1] == e[..axis + 1] && Extended(d, n)[..axis] == e[..axis];
    EncodeSnoc(x, e, axis);
    StrideExtended(d, n, axis);
  }

  /** Crops or zero-pads along every axis at once. */
  method ResizeValues<T>(source: seq<T>, from: seq<nat>, target: seq<nat>, zero: T) returns (output: seq<T>)
    requires Tensor(from, source).Valid() && IsCanonical(target)
    ensures output == Resized(Tensor(from, source), zero, target).data
  {
    ghost var expected := Resized(Tensor(from, source), zero, target).data;
    output := [];
    for o := 0 to Product(target)
      invariant output == expected[..o]
    {
      var v := ResizeElement(source, from, target, o, zero);
      output := output + [v];
    }
    assert expected[..|expected|] == expected;
  }

  /** Resizes an array, doing nothing when the extents are already right. */
  method Resize<T>(source: Tensor<T>, target: seq<nat>, zero: T) returns (r: Tensor<T>)
    requires source.Valid() && IsCanonical(target)
    ensures r == Resized(source, zero, target) && IsResized(source, zero, target, r)
  {
    ResizedIs(source, zero, target);
    if source.dims == target {
      ResizeSame(source, zero);
      return source;
    }
    var data := ResizeValues(source.data, source.dims, target, zero);
    r := Tensor(target, data);
  }
}
