/**
 Implicit expansion of singleton axes, computed in two independent ways: pairwise with strides of the
 output, and for any number of shapes with a running remainder.
 */
module Broadcasting {
  import opened MixedRadix
  import opened Results
  import opened Shapes
  import opened Tensors

  // ----- the common shape

  /** Along every axis, extents other than one are the same. */
  ghost predicate Expandable(shapes: seq<seq<nat>>) {
    forall axis: nat :: AgreeAlong(shapes, axis)
  }

  ghost predicate AgreeAlong(shapes: seq<seq<nat>>, axis: nat) {
    forall i, j | 0 <= i < |shapes| && 0 <= j < |shapes| ::
      Extent(shapes[i], axis) == 1 || Extent(shapes[j], axis) == 1 || Extent(shapes[i], axis) == Extent(shapes[j], axis)
  }

  /** `extent` is the one extent other than one along the axis, if there is one, and one otherwise. */
  ghost predicate IsCommonExtent(shapes: seq<seq<nat>>, axis: nat, extent: nat) {
    && (forall i | 0 <= i < |shapes| :: Extent(shapes[i], axis) == 1 || Extent(shapes[i], axis) == extent)
    && (extent == 1 || exists i | 0 <= i < |shapes| :: Extent(shapes[i], axis) == extent)
  }

  ghost predicate IsCommonShape(shapes: seq<seq<nat>>, out: seq<nat>) {
    IsCanonical(out) && forall axis: nat :: IsCommonExtent(shapes, axis, Extent(out, axis))
  }

  /** The common shape is determined by the shapes, and there is one only if they can be expanded. */
  lemma CommonShapeUnique(shapes: seq<seq<nat>>, out: seq<nat>, out': seq<nat>)
    requires IsCommonShape(shapes, out) && IsCommonShape(shapes, out')
    ensures out == out' && Expandable(shapes)
  {
    forall axis: nat ensures Extent(out, axis) == Extent(out', axis) && AgreeAlong(shapes, axis) {
      assert IsCommonExtent(shapes, axis, Extent(out, axis)) && IsCommonExtent(shapes, axis, Extent(out', axis));
    }
    CanonicalUnique(out, out');
  }

  lemma CommonByAxes(shapes: seq<seq<nat>>, dims: seq<nat>)
    requires forall i | 0 <= i < |shapes| :: |shapes[i]| <= |dims|
    requires forall axis: nat | axis < |dims| :: IsCommonExtent(shapes, axis, dims[axis])
    ensures IsCommonShape(shapes, Canonical(dims))
  {
    CanonicalIsCanonical(dims);
    forall axis: nat ensures IsCommonExtent(shapes, axis, Extent(Canonical(dims), axis)) {
      if axis < |dims| {
        assert IsCommonExtent(shapes, axis, dims[axis]);
      }
    }
  }

  /** The shape of a pair, axis by axis. */
  method ImplicitShape(left: seq<nat>, right: seq<nat>) returns (r: Option<seq<nat>>)
    ensures r.Some? <==> Expandable([left, right])
    ensures r.Some? ==> IsCommonShape([left, right], r.value)
  {
    var rank := if |left| < |right| then |right| else |left|;
    rank := if rank < 2 then 2 else rank;
    var dims: seq<nat> := [];
    ghost var shapes := [left, right];
    for axis := 0 to rank
      invariant |dims| == axis && forall a: nat | a < axis :: IsCommonExtent(shapes, a, dims[a])
    {
      var l, e := Extent(left, axis), Extent(right, axis);
      assert shapes[0] == left && shapes[1] == right;
      if l != e && l != 1 && e != 1 {
        assert !AgreeAlong(shapes, axis);
        return None;
      }
      var extent := if l == e then l else if l == 1 then e else l;
      assert IsCommonExtent(shapes, axis, extent);
      dims := dims + [extent];
    }
    CommonByAxes(shapes, dims);
    CommonShapeUnique(shapes, Canonical(dims), Canonical(dims));
    r := Some(Canonical(dims));
  }

  /** The common extent of any number of shapes along one axis. */
  method CompatibleExtent(shapes: seq<seq<nat>>, axis: nat) returns (r: Option<nat>)
    ensures r.Some? <==> AgreeAlong(shapes, axis)
    ensures r.Some? ==> IsCommonExtent(shapes, axis, r.value)
  {
    var extent := 1;
    for k := 0 to |shapes|
      invariant forall i | 0 <= i < k :: Extent(shapes[i], axis) == 1 || Extent(shapes[i], axis) == extent
      invariant extent == 1 || exists i | 0 <= i < k :: Extent(shapes[i], axis) == extent
    {
      var current := Extent(shapes[k], axis);
      if current != 1 {
        if extent != 1 && extent != current {
          var i :| 0 <= i < k && Extent(shapes[i], axis) == extent;
          assert !AgreeAlong(shapes, axis);
          return None;
        }
        extent := current;
      }
    }
    r := Some(extent);
  }

  /** The shape of any number of shapes, axis by axis. */
  method CompatibleShape(shapes: seq<seq<nat>>) returns (r: Option<seq<nat>>)
    ensures r.Some? <==> Expandable(shapes)
    ensures r.Some? ==> IsCommonShape(shapes, r.value)
  {
    var rank: nat := if |shapes| == 0 then 2 else 0;
    for k := 0 to |shapes|
      invariant forall i | 0 <= i < k :: |shapes[i]| <= rank
    {
      rank := if |shapes[k]| > rank then |shapes[k]| else rank;
    }
    var dims: seq<nat> := [];
    for axis := 0 to rank
      invariant |dims| == axis && forall a: nat | a < axis :: IsCommonExtent(shapes, a, dims[a])
    {
      var extent := CompatibleExtent(shapes, axis);
      if extent.None? {
        return None;
      }
      dims := dims + [extent.value];
    }
    CommonByAxes(shapes, dims);
    CommonShapeUnique(shapes, Canonical(dims), Canonical(dims));
    r := Some(Canonical(dims));
  }

  // ----- where an output element reads its input

  /** The input expands to the output. */
  ghost predicate ExpandsTo(d: seq<nat>, out: seq<nat>) {
    forall axis: nat :: Extent(d, axis) == 1 || Extent(d, axis) == Extent(out, axis)
  }

  /** The coordinates with those along expanded axes set to zero. */
  function Collapsed(x: seq<nat>, d: seq<nat>): (y: seq<nat>)
    ensures |y| == |x|
  {
    seq(|x|, a requires 0 <= a < |x| => if Extent(d, a) == 1 then 0 else x[a])
  }

  function InputOffset(o: nat, out: seq<nat>, d: seq<nat>): nat {
    OffsetFrom(Collapsed(Decode(o, out), d), d)
  }

  lemma InputRank(d: seq<nat>, out: seq<nat>)
    requires IsCanonical(d) && IsCanonical(out) && ExpandsTo(d, out)
    ensures |d| <= |out|
  {
    assert Extent(d, |d| - 1) == 1 || Extent(d, |d| - 1) == Extent(out, |d| - 1);
  }

  /** The input offset is in bounds and is what encoding over the input's extents gives. */
  lemma InputOffsetInBounds(o: nat, out: seq<nat>, d: seq<nat>)
    requires IsCanonical(d) && IsCanonical(out) && ExpandsTo(d, out) && o < Product(out)
    ensures |d| <= |out| && InputOffset(o, out, d) < Product(d)
    ensures Encode(Collapsed(Decode(o, out), d), Extended(d, |out|)) == InputOffset(o, out, d)
  {
    InputRank(d, out);
    EncodeDecode(o, out);
    var x, e := Decode(o, out), Extended(d, |out|);
    var y := Collapsed(x, d);
    forall a | 0 <= a < |out| ensures y[a] < e[a] {
      assert Extent(d, a) == 1 || Extent(d, a) == Extent(out, a);
      assert x[a] < out[a];
    }
    assert e == d + Ones(|out| - |d|);
    OffsetFromExtended(y, d, |out| - |d|);
  }

  /** An input that is not expanded is read in place. */
  lemma UnexpandedInput(o: nat, d: seq<nat>)
    requires IsCanonical(d) && o < Product(d)
    ensures InputOffset(o, d, d) == o
  {
    EncodeDecode(o, d);
    CollapsedSelf(Decode(o, d), d);
  }

  lemma CollapsedSelf(x: seq<nat>, d: seq<nat>)
    requires Inside(x, d)
    ensures Collapsed(x, d) == x && Fit(x, |d|) == x
  {
    forall a | 0 <= a < |d| ensures Collapsed(x, d)[a] == x[a] {
      assert x[a] < d[a];
    }
  }

  /** Divides by the output's strides, axis by axis, skipping singleton axes; never fails. */
  method OffsetByStrides(o: nat, out: seq<nat>, d: seq<nat>) returns (r: Option<nat>)
    requires IsCanonical(d) && IsCanonical(out) && ExpandsTo(d, out) && o < Product(out)
    ensures r == Some(InputOffset(o, out, d))
  {
    InputOffsetInBounds(o, out, d);
    ProductPositive(out);
    ghost var y, e := Collapsed(Decode(o, out), d), Extended(d, |out|);
    var offset, stride := 0, 1;
    for axis := 0 to |out|
      invariant stride == Product(e[..axis]) && offset == Encode(y[..axis], e[..axis])
    {
      var next := AddStrideAxis(o, out, d, axis, offset, stride, y, e);
      if next.None? {
        return None;
      }
      offset := next.value;
      stride := Scale(stride, Extent(d, axis));
      EncodeSnoc(y, e, axis);
    }
    assert y[..|out|] == y && e[..|out|] == e;
    r := Some(offset);
  }

  method AddStrideAxis(o: nat, out: seq<nat>, d: seq<nat>, axis: nat, offset: nat, stride: nat,
                       ghost y: seq<nat>, ghost e: seq<nat>) returns (next: Option<nat>)
    requires Positive(out) && axis < |out| == |y| == |e|
    requires y[axis] == if Extent(d, axis) == 1 then 0 else Decode(o, out)[axis]
    requires stride == Product(e[..axis]) && offset == Encode(y[..axis], e[..axis])
    ensures next == Some(Encode(y[..axis + 1], e[..axis + 1]))
  {
    EncodeSnoc(y, e, axis);
    next := Some(offset);
    if Extent(d, axis) != 1 {
      if out[axis] == 0 {
        return None;
      }
      var coordinate := CoordinateByStride(o, out, axis);
      next := Some(AddComponent(offset, coordinate, stride));
    }
  }

  method CoordinateByStride(o: nat, out: seq<nat>, axis: nat) returns (coordinate: nat)
    requires Positive(out) && axis < |out|
    ensures coordinate == Decode(o, out)[axis]
  {
    DecodeAt(o, out, axis);
    coordinate := (o / Product(out[..axis])) % out[axis];
  }

  function Scale(stride: nat, extent: nat): nat {
    stride * extent
  }

  /** Carries a remainder from axis to axis. */
  method OffsetByRemainder(o: nat, out: seq<nat>, d: seq<nat>) returns (offset: nat)
    requires IsCanonical(d) && IsCanonical(out) && ExpandsTo(d, out) && o < Product(out)
    ensures offset == InputOffset(o, out, d)
  {
    InputOffsetInBounds(o, out, d);
    ghost var c, e := Decode(o, out), Extended(d, |out|);
    ghost var y := Collapsed(c, d);
    var remainder, stride := o, 1;
    offset := 0;
    RunningStart(o, out, y, e);
    for axis := 0 to |out|
      invariant Running(c, out, y, e, axis, remainder, stride, offset)
    {
      remainder, stride, offset := AddAxis(out, d, axis, remainder, stride, offset, c, y, e);
    }
    RunningEnd(c, out, y, e, remainder, stride, offset);
  }

  method AddAxis(out: seq<nat>, d: seq<nat>, axis: nat, remainder: nat, stride: nat, offset: nat,
                 ghost c: seq<nat>, ghost y: seq<nat>, ghost e: seq<nat>)
    returns (rest: nat, nextStride: nat, next: nat)
    requires axis < |out| && Running(c, out, y, e, axis, remainder, stride, offset)
    requires e[axis] == Extent(d, axis) && y[axis] == if Extent(d, axis) == 1 then 0 else c[axis]
    ensures Running(c, out, y, e, axis + 1, rest, nextStride, next)
  {
    RunningStep(c, out, y, e, axis, remainder, stride, offset);
    var coordinate, extent := Digit(remainder, out[axis]), Extent(d, axis);
    rest := Rest(remainder, out[axis]);
    next := AddComponent(offset, if extent == 1 then 0 else coordinate, stride);
    nextStride := Scale(stride, extent);
  }

  /** Both inputs of a pair expand to its shape, so each implementation reads each of them in bounds. */
  lemma InputsExpand(shapes: seq<seq<nat>>, out: seq<nat>, i: nat)
    requires IsCommonShape(shapes, out) && i < |shapes|
    ensures ExpandsTo(shapes[i], out)
  {
    forall axis: nat ensures Extent(shapes[i], axis) == 1 || Extent(shapes[i], axis) == Extent(out, axis) {
      assert IsCommonExtent(shapes, axis, Extent(out, axis));
    }
  }

  /** Input coordinates for an output element: its own, but the first position along axes where the input has only one. */
  ghost predicate ReadFrom(x: seq<nat>, out: seq<nat>, y: seq<nat>, d: seq<nat>) {
    && Inside(x, out) && Inside(y, d) && |d| <= |out|
    && forall a | 0 <= a < |d| :: y[a] == if d[a] == 1 then 0 else x[a]
  }

  /** The output element at an offset reads the input at another. */
  ghost predicate Reads(o: nat, out: seq<nat>, d: seq<nat>, at: nat) {
    && at < Product(d)
    && exists x: seq<nat>, y: seq<nat> :: ReadFrom(x, out, y, d) && Encode(x, out) == o && Encode(y, d) == at
  }

  lemma InputOffsetReads(o: nat, out: seq<nat>, d: seq<nat>)
    requires IsCanonical(d) && IsCanonical(out) && ExpandsTo(d, out) && o < Product(out)
    ensures Reads(o, out, d, InputOffset(o, out, d))
  {
    var x := Decode(o, out);
    var y := Fit(Collapsed(x, d), |d|);
    InputOffsetInBounds(o, out, d);
    EncodeDecode(o, out);
    forall a | 0 <= a < |d| ensures y[a] == (if d[a] == 1 then 0 else x[a]) && y[a] < d[a] {
      assert Extent(d, a) == 1 || Extent(d, a) == Extent(out, a);
      assert x[a] < out[a];
    }
    assert ReadFrom(x, out, y, d);
  }

  /** Runs both implementations on a pair: they accept it or reject it together, and read the same elements. */
  method BothImplementations(left: seq<nat>, right: seq<nat>, o: nat)
    returns (pairwise: Option<seq<nat>>, general: Option<seq<nat>>, byStrides: seq<Option<nat>>, byRemainder: seq<nat>)
    requires IsCanonical(left) && IsCanonical(right)
    ensures pairwise == general && (pairwise.Some? <==> Expandable([left, right]))
    ensures pairwise.Some? ==> IsCommonShape([left, right], pairwise.value)
    ensures pairwise.Some? && o < Product(pairwise.value) ==>
              var l, r := InputOffset(o, pairwise.value, left), InputOffset(o, pairwise.value, right);
              && byStrides == [Some(l), Some(r)] && byRemainder == [l, r]
              && Reads(o, pairwise.value, left, l) && Reads(o, pairwise.value, right, r)
  {
    pairwise := ImplicitShape(left, right);
    general := CompatibleShape([left, right]);
    byStrides, byRemainder := [], [];
    if pairwise.Some? {
      var out := pairwise.value;
      ghost var shapes := [left, right];
      CommonShapeUnique(shapes, out, general.value);
      if o < Product(out) {
        InputsExpand(shapes, out, 0);
        InputsExpand(shapes, out, 1);
        InputOffsetReads(o, out, left);
        InputOffsetReads(o, out, right);
        var a := OffsetByStrides(o, out, left);
        var b := OffsetByStrides(o, out, right);
        var c := OffsetByRemainder(o, out, left);
        var e := OffsetByRemainder(o, out, right);
        byStrides, byRemainder := [a, b], [c, e];
      }
    }
  }
}
