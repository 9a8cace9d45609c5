/**
 Moving extrema of an array along an axis, and what every element of the result is chosen among.
 */
module MovingExtrema {
  import opened MixedRadix
  import opened Results
  import opened Shapes
  import opened Tensors
  import opened Coordinates
  import opened Lines
  import opened Fibres
  import opened Extrema
  import opened Windows
  import opened OutputLines

  // ----- which values a window takes in

  /** The window around a centre reaches a position. */
  ghost predicate Reaches(w: Window, center: nat, i: nat) {
    center <= i + w.backward && i <= center + w.forward
  }

  /** The values on a line that the window reaches, after and before the fill value where the window hangs over. */
  ghost predicate TakesIn<T>(line: seq<T>, w: Window, center: nat, fill: Option<T>, values: seq<T>) {
    exists lo: nat, hi: nat :: TakesSlice(line, w, center, fill, lo, hi, values)
  }

  ghost predicate TakesSlice<T>(line: seq<T>, w: Window, center: nat, fill: Option<T>, lo: nat, hi: nat, values: seq<T>) {
    && lo <= hi <= |line|
    && (forall i: nat | i < |line| :: lo <= i < hi <==> Reaches(w, center, i))
    && values == (if fill.Some? && center < w.backward then [fill.value] else [])
                 + line[lo..hi]
                 + (if fill.Some? && |line| <= center + w.forward then [fill.value] else [])
  }

  /** The window around a centre lies inside an axis. */
  ghost predicate LiesInside(w: Window, n: nat, center: nat) {
    w.backward <= center && center + w.forward < n
  }

  /** Unless endpoints are discarded all positions are centres; otherwise those whose windows lie inside. */
  ghost predicate HasCenters(w: Window, discard: bool, n: nat, k: nat) {
    if discard then forall center: nat :: LiesInside(w, n, center) <==> w.backward <= center && center - w.backward < k
    else k == n
  }

  lemma OutputHasCenters(w: Window, discard: bool, n: nat)
    ensures OutputExtent(w, discard, n).Some? ==> HasCenters(w, discard, n, OutputExtent(w, discard, n).value)
  {
  }

  /** The values considered at a position are those that the window takes in, and what is chosen among them is the result. */
  lemma WindowTakesIn<T>(mv: Moving<T>, line: seq<T>, k: nat, p: nat) returns (values: seq<T>)
    requires mv.Fits(|line|, k) && p < k
    ensures values != [] && TakesIn(line, mv.window, p + (if mv.discard then mv.window.backward else 0), mv.fill, values)
    ensures MovingAt(mv, line, p) == Cumulative(mv.rules, values)
  {
    var w, center := mv.window, p + (if mv.discard then mv.window.backward else 0);
    var span := SpanAt(w, mv.discard, |line|, p);
    WindowGeometry(w, mv.discard, |line|, p);
    values := WindowValues(line, span, mv.fill);
    assert TakesSlice(line, w, center, mv.fill, span.start, span.end, values);
    RulesAgree(mv.rules, values);
  }

  // ----- by coordinates

  /** `v` is chosen among the values of the line through `y` that the window around a centre takes in. */
  ghost predicate ChosenAround<T(!new)>(mv: Moving<T>, line: seq<T>, center: nat, v: T) {
    exists values: seq<T> :: TakesIn(line, mv.window, center, mv.fill, values) && IsChosen(mv.rules, v, values)
  }

  /**
   The output has the extents of the input except along the axis, a position there for every centre, and at
   each position the extreme value of the window on the same line.
   */
  ghost predicate HoldsMoved<T(!new)>(mv: Moving<T>, src: Tensor<T>, axis: nat, out: Tensor<T>)
    requires src.Valid()
  {
    && out.Valid() && SameButFor(out.dims, src.dims, axis)
    && HasCenters(mv.window, mv.discard, Extent(src.dims, axis), Extent(out.dims, axis))
    && forall x: seq<nat>, y: seq<nat> | Inside(x, out.dims) && Inside(y, src.dims) && OnSameLine(x, y, axis) ::
         ChosenAround(mv, Fibre(src.data, src.dims, axis, y),
                      Coordinate(x, axis) + (if mv.discard then mv.window.backward else 0), Elem(out.data, out.dims, x))
  }

  lemma ChosenInWindow<T(!new)>(mv: Moving<T>, line: seq<T>, k: nat, p: nat, v: T)
    requires mv.Fits(|line|, k) && p < k && MovingAt(mv, line, p) == Some(v)
    ensures ChosenAround(mv, line, p + (if mv.discard then mv.window.backward else 0), v)
  {
    var values := WindowTakesIn(mv, line, k, p);
    ChosenIsExtreme(mv.rules, values);
  }

  lemma ChosenOnLine<T(!new)>(mv: Moving<T>, data: seq<T>, s: nat, n: nat, m: nat, k: nat, out: seq<T>,
                              inner: nat, p: nat, outer: nat, line: seq<T>, o: nat)
    requires IsMoving(mv, data, s, n, m, k, out) && inner < s && p < k && outer < m && o == LineOffset(s, k, inner, p, outer)
    requires |data| == s * (n * m) && line == Line(data, s, n, m, inner, outer)
    ensures o < |out| && ChosenAround(mv, line, p + (if mv.discard then mv.window.backward else 0), out[o])
  {
    ChosenInWindow(mv, line, k, p, out[o]);
  }

  /** The values chosen on all lines, and where they are in the output. */
  ghost predicate ChosenOnLines<T(!new)>(mv: Moving<T>, data: seq<T>, s: nat, n: nat, m: nat, k: nat, out: seq<T>)
    requires |data| == s * (n * m)
  {
    forall inner: nat, p: nat, outer: nat {:trigger LineOffset(s, k, inner, p, outer)} | inner < s && p < k && outer < m ::
      && LineOffset(s, k, inner, p, outer) < |out|
      && ChosenAround(mv, Line(data, s, n, m, inner, outer), p + (if mv.discard then mv.window.backward else 0),
                      out[LineOffset(s, k, inner, p, outer)])
  }

  lemma AllChosen<T(!new)>(mv: Moving<T>, data: seq<T>, s: nat, n: nat, m: nat, k: nat, out: seq<T>)
    requires IsMoving(mv, data, s, n, m, k, out)
    ensures ChosenOnLines(mv, data, s, n, m, k, out)
  {
    forall inner: nat, p: nat, outer: nat | inner < s && p < k && outer < m
      ensures LineOffset(s, k, inner, p, outer) < |out|
      ensures ChosenAround(mv, Line(data, s, n, m, inner, outer), p + (if mv.discard then mv.window.backward else 0),
                           out[LineOffset(s, k, inner, p, outer)])
    {
      ChosenOnLine(mv, data, s, n, m, k, out, inner, p, outer, Line(data, s, n, m, inner, outer), LineOffset(s, k, inner, p, outer));
    }
  }

  lemma MovedAtCoordinates<T(!new)>(mv: Moving<T>, data: seq<T>, d: seq<nat>, axis: nat, k: nat, outDims: seq<nat>, out: seq<T>,
                                    x: seq<nat>, y: seq<nat>)
    requires IsCanonical(d) && |data| == Product(d) == Stride(d, axis) * (Extent(d, axis) * OuterCount(d, axis))
    requires outDims == Canonical(OutputDims(d, axis, k)) && |out| == Product(outDims)
    requires ChosenOnLines(mv, data, Stride(d, axis), Extent(d, axis), OuterCount(d, axis), k, out)
    requires Inside(x, outDims) && Inside(y, d) && OnSameLine(x, y, axis)
    ensures ChosenAround(mv, Fibre(data, d, axis, y), Coordinate(x, axis) + (if mv.discard then mv.window.backward else 0),
                         Elem(out, outDims, x))
  {
    var inner, outer := OutputLine(data, d, axis, k, x, y);
    assert LineOffset(Stride(d, axis), k, inner, Coordinate(x, axis), outer) == Encode(x, outDims);
  }

  lemma MovedByCoordinates<T(!new)>(mv: Moving<T>, src: Tensor<T>, axis: nat, k: nat, out: Tensor<T>)
    requires src.Valid() && out.Valid() && out.dims == Canonical(OutputDims(src.dims, axis, k))
    requires IsMoving(mv, src.data, Stride(src.dims, axis), Extent(src.dims, axis), OuterCount(src.dims, axis), k, out.data)
    ensures HoldsMoved(mv, src, axis, out)
  {
    OutputExtents(src.dims, axis, k);
    OutputHasCenters(mv.window, mv.discard, Extent(src.dims, axis));
    AllChosen(mv, src.data, Stride(src.dims, axis), Extent(src.dims, axis), OuterCount(src.dims, axis), k, out.data);
    forall x: seq<nat>, y: seq<nat> | Inside(x, out.dims) && Inside(y, src.dims) && OnSameLine(x, y, axis)
      ensures ChosenAround(mv, Fibre(src.data, src.dims, axis, y),
                           Coordinate(x, axis) + (if mv.discard then mv.window.backward else 0), Elem(out.data, out.dims, x))
    {
      MovedAtCoordinates(mv, src.data, src.dims, axis, k, out.dims, out.data, x, y);
    }
  }

  // ----- the loops run

  /** Moving extremum of an array along an axis; it fails only when a discarded window is too long to measure. */
  method MovingExtremum<T(!new)>(mv: Moving<T>, src: Tensor<T>, axis: nat) returns (r: Option<Tensor<T>>)
    requires src.Valid() && Extent(src.dims, axis) <= USIZE_MAX
    requires mv.window.backward <= USIZE_MAX && mv.window.forward <= USIZE_MAX
    ensures r.None? <==> mv.discard && mv.window.backward + mv.window.forward >= 0x1_0000_0000_0000_0000
    ensures r.Some? ==> HoldsMoved(mv, src, axis, r.value)
    ensures r.Some? <==> OutputExtent(mv.window, mv.discard, Extent(src.dims, axis)).Some?
    ensures r.Some? ==>
      var outN := OutputExtent(mv.window, mv.discard, Extent(src.dims, axis)).value;
      && r.value.Valid() && r.value.dims == Canonical(OutputDims(src.dims, axis, outN))
      && IsMoving(mv, src.data, Stride(src.dims, axis), Extent(src.dims, axis), OuterCount(src.dims, axis), outN,
                  r.value.data)
  {
    var n := Extent(src.dims, axis);
    var extent := OutputExtent(mv.window, mv.discard, n);
    if extent.None? {
      return None;
    }
    var outDims := Canonical(OutputDims(src.dims, axis, extent.value));
    LinesFill(src.dims, axis);
    OutputSize(src.dims, axis, extent.value);
    CanonicalIsCanonical(OutputDims(src.dims, axis, extent.value));
    var m := CountOuter(src.dims, axis, outDims, |src.data|, extent.value);
    ghost var expected := MovingExists(mv, src.data, Stride(src.dims, axis), n, m, extent.value);
    var data := MovingLines(mv, src.data, Stride(src.dims, axis), n, m, extent.value, Product(outDims), expected);
    r := Some(Tensor(outDims, data.value));
    MovedByCoordinates(mv, src, axis, extent.value, r.value);
  }
}
