/**
 Moving windows: their geometry, and moving and cumulative extrema along an axis of an array.
 */
module Windows {
  import opened MixedRadix
  import opened Results
  import opened Sealing
  import opened Shapes
  import opened Lines
  import opened Tensors
  import opened Extrema

  /** The largest host index; positions past it are cut to it. */
  const USIZE_MAX: nat := 0xFFFF_FFFF_FFFF_FFFF

  // ----- geometry

  datatype Window = Window(backward: nat, forward: nat)

  /** A window length, or how far it reaches back and forward; a length is split evenly, the odd one out going back. */
  function WindowSpec(values: seq<int>): (r: Option<Window>)
    ensures r.Some? <==>
            || (|values| == 1 && 0 < values[0] <= USIZE_MAX)
            || (|values| == 2 && forall i | 0 <= i < 2 :: 0 <= values[i] <= USIZE_MAX)
    ensures r.Some? ==> r.value.backward <= USIZE_MAX && r.value.forward <= USIZE_MAX
    ensures r.Some? && |values| == 1 ==>
              && r.value.backward + r.value.forward + 1 == values[0]
              && r.value.forward <= r.value.backward <= r.value.forward + 1
    ensures r.Some? && |values| == 2 ==> values == [r.value.backward, r.value.forward]
  {
    if |values| == 1 && 0 < values[0] <= USIZE_MAX then
      Some(Window(values[0] / 2, values[0] - 1 - values[0] / 2))
    else if |values| == 2 && 0 <= values[0] <= USIZE_MAX && 0 <= values[1] <= USIZE_MAX then
      Some(Window(values[0], values[1]))
    else None
  }

  /** How many positions the axis has in the output. */
  function OutputExtent(w: Window, discard: bool, extent: nat): Option<nat> {
    if !discard then Some(extent)
    else if w.backward + w.forward > U64_MAX then None
    else Some(if extent < w.backward + w.forward then 0 else extent - (w.backward + w.forward))
  }

  /** The samples of one window and how much of it hangs over either end. */
  datatype Span = Span(start: nat, end: nat, leftPad: nat, rightPad: nat)

  function Center(w: Window, discard: bool, position: nat): nat {
    if discard then position + w.backward else position
  }

  function SpanAt(w: Window, discard: bool, extent: nat, position: nat): Span {
    var center := Center(w, discard, position);
    var past := center + w.forward + 1;
    var end := if past > USIZE_MAX then USIZE_MAX else past;
    Span(
      if center < w.backward then 0 else center - w.backward,
      if end < extent then end else extent,
      if w.backward < center then 0 else w.backward - center,
      if past > USIZE_MAX then USIZE_MAX else if past < extent then 0 else past - extent)
  }

  /**
   The window around a position of the output: it lies inside the axis and contains its centre; it is
   padded exactly where it hangs over; discarding endpoints never pads; and pads and samples add up to
   the window's length except when its right end is cut to the largest index.
   */
  lemma WindowGeometry(w: Window, discard: bool, extent: nat, position: nat)
    requires w.backward <= USIZE_MAX && w.forward <= USIZE_MAX && extent <= USIZE_MAX
    requires OutputExtent(w, discard, extent).Some? && position < OutputExtent(w, discard, extent).value
    ensures var span, center := SpanAt(w, discard, extent, position), Center(w, discard, position);
            && span.start <= center < span.end <= extent
            && (span.leftPad > 0 <==> center < w.backward)
            && (span.rightPad > 0 <==> center + w.forward + 1 > extent)
            && (discard ==> span.leftPad == 0 && span.rightPad == 0)
            && (span.leftPad + (span.end - span.start) + span.rightPad == w.backward + w.forward + 1 <==>
                center + w.forward + 1 <= USIZE_MAX || center + w.forward + 1 == USIZE_MAX + extent)
  {
  }

  /** A window reaching forward as far as an index can: at the first of two positions its pad is one too long. */
  lemma PadTooLong()
    ensures WindowSpec([0, USIZE_MAX]) == Some(Window(0, USIZE_MAX))
    ensures var span := SpanAt(Window(0, USIZE_MAX), false, 2, 0);
            && span == Span(0, 2, 0, USIZE_MAX)
            && span.leftPad + (span.end - span.start) + span.rightPad != 0 + USIZE_MAX + 1
  {
  }

  // ----- one window

  /** The padding value counts once on each side that hangs over, when there is one. */
  function Padding<T>(pad: nat, fill: Option<T>): seq<T> {
    if pad > 0 && fill.Some? then [fill.value] else []
  }

  /** The values a window considers, in order. */
  function WindowValues<T>(line: seq<T>, span: Span, fill: Option<T>): seq<T>
    requires span.start <= span.end <= |line|
  {
    Padding(span.leftPad, fill) + line[span.start..span.end] + Padding(span.rightPad, fill)
  }

  function WindowExtremum<T>(r: Rules<T>, line: seq<T>, span: Span, fill: Option<T>): Option<T>
    requires span.start <= span.end <= |line|
  {
    ConsiderAll(r, Scan(None, None), WindowValues(line, span, fill)).Chosen()
  }

  lemma {:induction false} SomethingChosen<T>(r: Rules<T>, values: seq<T>)
    requires values != []
    ensures ConsiderAll(r, Scan(None, None), values).Chosen().Some?
  {
    if |values| > 1 {
      SomethingChosen(r, values[..|values| - 1]);
    }
  }

  lemma ConsiderSnoc<T>(r: Rules<T>, s: Scan<T>, values: seq<T>, v: T)
    ensures ConsiderAll(r, s, values + [v]) == Consider(r, ConsiderAll(r, s, values), v)
  {
    assert (values + [v])[..|values|] == values;
  }

  /** `line` is the line through (`inner`, `outer`); looked into only where `Unseal` is mentioned. */
  ghost predicate SealedLine<T>(data: seq<T>, s: nat, n: nat, m: nat, inner: nat, outer: nat, line: seq<T>) {
    forall k {:trigger Unseal(k)} :: Unseal(k) ==>
      |data| == s * (n * m) && inner < s && outer < m && line == Line(data, s, n, m, inner, outer)
  }

  method ReadSample<T>(data: seq<T>, s: nat, n: nat, m: nat, inner: nat, outer: nat, j: nat, ghost line: seq<T>)
    returns (sample: T)
    requires SealedLine(data, s, n, m, inner, outer, line) && j < |line|
    ensures sample == line[j]
  {
    assert Unseal(0);
    LineAt(data, s, n, m, inner, outer, j);
    sample := data[LineOffset(s, n, inner, j, outer)];
  }

  lemma SliceSnoc<T>(before: seq<T>, line: seq<T>, start: nat, j: nat)
    requires start <= j < |line|
    ensures before + line[start..j + 1] == before + line[start..j] + [line[j]]
  {
  }

  /** Considers the samples of a window after the values `before`. */
  method ConsiderSamples<T>(r: Rules<T>, data: seq<T>, s: nat, n: nat, m: nat, inner: nat, outer: nat,
                            start: nat, end: nat, first: Scan<T>, ghost before: seq<T>, ghost line: seq<T>)
    returns (scan: Scan<T>)
    requires SealedLine(data, s, n, m, inner, outer, line) && start <= end <= |line|
    requires first == ConsiderAll(r, Scan(None, None), before)
    ensures scan == ConsiderAll(r, Scan(None, None), before + line[start..end])
  {
    scan := first;
    assert before + line[start..start] == before;
    for j := start to end
      invariant scan == ConsiderAll(r, Scan(None, None), before + line[start..j])
    {
      var sample := ReadSample(data, s, n, m, inner, outer, j, line);
      SliceSnoc(before, line, start, j);
      ConsiderSnoc(r, Scan(None, None), before + line[start..j], sample);
      scan := Consider(r, scan, sample);
    }
  }

  /** Considers a padding value, if there is one. */
  method ConsiderPad<T>(r: Rules<T>, pad: nat, fill: Option<T>, first: Scan<T>, ghost before: seq<T>)
    returns (scan: Scan<T>)
    requires first == ConsiderAll(r, Scan(None, None), before)
    ensures scan == ConsiderAll(r, Scan(None, None), before + Padding(pad, fill))
  {
    scan := first;
    if pad > 0 && fill.Some? {
      ConsiderSnoc(r, Scan(None, None), before, fill.value);
      scan := Consider(r, scan, fill.value);
    } else {
      assert before + Padding(pad, fill) == before;
    }
  }

  /** Considers the padding and the samples of one window; some value is always chosen. */
  method EvaluateWindow<T>(r: Rules<T>, data: seq<T>, s: nat, n: nat, m: nat, inner: nat, outer: nat,
                           span: Span, fill: Option<T>, ghost line: seq<T>) returns (v: Option<T>)
    requires SealedLine(data, s, n, m, inner, outer, line) && span.start < span.end <= |line|
    ensures v.Some? && v == WindowExtremum(r, line, span, fill)
  {
    var left := ConsiderPad(r, span.leftPad, fill, Scan(None, None), []);
    assert [] + Padding(span.leftPad, fill) == Padding(span.leftPad, fill);
    var middle := ConsiderSamples(r, data, s, n, m, inner, outer, span.start, span.end, left,
                                  Padding(span.leftPad, fill), line);
    var scan := ConsiderPad(r, span.rightPad, fill, middle,
                            Padding(span.leftPad, fill) + line[span.start..span.end]);
    SomethingChosen(r, WindowValues(line, span, fill));
    v := scan.Chosen();
  }

  /** The settings of a moving extremum along an axis with `n` positions. */
  datatype Moving<!T> = Moving(rules: Rules<T>, window: Window, discard: bool, fill: Option<T>)
  {
    predicate Fits(n: nat, outN: nat) {
      && window.backward <= USIZE_MAX && window.forward <= USIZE_MAX && n <= USIZE_MAX
      && OutputExtent(window, discard, n) == Some(outN)
    }
  }

  /** The output value at a position of a line. */
  function MovingAt<T>(mv: Moving<T>, line: seq<T>, position: nat): Option<T>
    requires exists outN :: mv.Fits(|line|, outN) && position < outN
  {
    var span := SpanAt(mv.window, mv.discard, |line|, position);
    WindowGeometry(mv.window, mv.discard, |line|, position);
    WindowExtremum(mv.rules, line, span, mv.fill)
  }

  /** `expected` holds, in column-major order, the moving extrema of every line. */
  ghost predicate IsMoving<T>(mv: Moving<T>, data: seq<T>, s: nat, n: nat, m: nat, outN: nat, expected: seq<T>) {
    && |data| == s * (n * m) && mv.Fits(n, outN) && |expected| == s * (outN * m)
    && forall inner: nat, p: nat, outer: nat {:trigger LineOffset(s, outN, inner, p, outer)}
         | inner < s && p < outN && outer < m ::
         && LineOffset(s, outN, inner, p, outer) < |expected|
         && MovingAt(mv, Line(data, s, n, m, inner, outer), p) == Some(expected[LineOffset(s, outN, inner, p, outer)])
  }

  /** `IsMoving`, to be looked into only where `Unseal` is mentioned; the loops carry it without doing so. */
  ghost predicate SealedMoving<T>(mv: Moving<T>, data: seq<T>, s: nat, n: nat, m: nat, outN: nat, expected: seq<T>) {
    forall k {:trigger Unseal(k)} :: Unseal(k) ==> IsMoving(mv, data, s, n, m, outN, expected)
  }

  method MovingSample<T>(mv: Moving<T>, data: seq<T>, s: nat, n: nat, m: nat, outN: nat,
                         inner: nat, p: nat, outer: nat, ghost expected: seq<T>) returns (v: Option<T>)
    requires SealedMoving(mv, data, s, n, m, outN, expected) && inner < s && p < outN && outer < m
    ensures LineOffset(s, outN, inner, p, outer) < |expected|
    ensures v == Some(expected[LineOffset(s, outN, inner, p, outer)])
  {
    assert Unseal(0);
    WindowGeometry(mv.window, mv.discard, n, p);
    ghost var line := Line(data, s, n, m, inner, outer);
    v := EvaluateWindow(mv.rules, data, s, n, m, inner, outer, SpanAt(mv.window, mv.discard, n, p), mv.fill, line);
    assert v == MovingAt(mv, line, p);
  }

  /** Emits the values of one output position, one per inner line. */
  method MovingRow<T>(mv: Moving<T>, data: seq<T>, s: nat, n: nat, m: nat, outN: nat, p: nat, outer: nat,
                      output: seq<T>, ghost expected: seq<T>) returns (r: Option<seq<T>>)
    requires SealedMoving(mv, data, s, n, m, outN, expected) && p < outN && outer < m
    requires Emitted(output, expected, LineOffset(s, outN, 0, p, outer))
    ensures r.Some? && Emitted(r.value, expected, LineOffset(s, outN, 0, p + 1, outer))
  {
    var row := output;
    for inner := 0 to s
      invariant Emitted(row, expected, LineOffset(s, outN, inner, p, outer))
    {
      var v := MovingSample(mv, data, s, n, m, outN, inner, p, outer, expected);
      if v.None? {
        return None;
      }
      row := row + [v.value];
    }
    NextOffset(s, outN, p, outer);
    r := Some(row);
  }

  method MovingPage<T>(mv: Moving<T>, data: seq<T>, s: nat, n: nat, m: nat, outN: nat, outer: nat,
                       output: seq<T>, ghost expected: seq<T>) returns (r: Option<seq<T>>)
    requires SealedMoving(mv, data, s, n, m, outN, expected) && outer < m
    requires Emitted(output, expected, LineOffset(s, outN, 0, 0, outer))
    ensures r.Some? && Emitted(r.value, expected, LineOffset(s, outN, 0, 0, outer + 1))
  {
    var page := output;
    for p := 0 to outN
      invariant Emitted(page, expected, LineOffset(s, outN, 0, p, outer))
    {
      var row := MovingRow(mv, data, s, n, m, outN, p, outer, page, expected);
      if row.None? {
        return None;
      }
      page := row.value;
    }
    NextOffset(s, outN, 0, outer);
    r := Some(page);
  }

  /**
   Emits one value per line and output position, lines fastest.  The guard on the final length never
   fires and no window is without a value.
   */
  method MovingLines<T>(mv: Moving<T>, data: seq<T>, s: nat, n: nat, m: nat, outN: nat, length: nat,
                        ghost expected: seq<T>) returns (r: Option<seq<T>>)
    requires SealedMoving(mv, data, s, n, m, outN, expected) && |expected| == s * (outN * m) == length
    ensures r == Some(expected)
  {
    var output: seq<T> := [];
    NextOffset(s, outN, 0, 0);
    for outer := 0 to m
      invariant Emitted(output, expected, LineOffset(s, outN, 0, 0, outer))
    {
      var page := MovingPage(mv, data, s, n, m, outN, outer, output, expected);
      if page.None? {
        return None;
      }
      output := page.value;
    }
    NextOffset(s, outN, 0, m);
    if |output| != length {
      return None;
    }
    assert expected[..|expected|] == expected;
    r := Some(output);
  }

  // ----- moving extremum of an array

  /** The extents of the output: those of the input with the axis changed, canonical or not. */
  function OutputDims(d: seq<nat>, axis: nat, outN: nat): seq<nat> {
    Extended(d, axis + 1)[axis := outN]
  }

  lemma OutputSize(d: seq<nat>, axis: nat, outN: nat)
    ensures Product(OutputDims(d, axis, outN)) == Stride(d, axis) * (outN * OuterCount(d, axis))
    ensures Product(Canonical(OutputDims(d, axis, outN))) == Product(OutputDims(d, axis, outN))
  {
    var e := Extended(d, axis + 1);
    var o := OutputDims(d, axis, outN);
    CanonicalIsCanonical(o);
    LinesFill(o, axis);
    assert o[..axis] == e[..axis] && o[axis + 1..] == e[axis + 1..];
    if axis < |d| {
      assert e == d;
    } else {
      assert e[..axis] == d + Ones(axis - |d|) && e[axis + 1..] == [];
      ExtendedSameOffsets(d, d, axis - |d|);
    }
  }

  lemma MovingSome<T>(mv: Moving<T>, line: seq<T>, outN: nat, p: nat)
    requires mv.Fits(|line|, outN) && p < outN
    ensures MovingAt(mv, line, p).Some?
  {
    var span := SpanAt(mv.window, mv.discard, |line|, p);
    WindowGeometry(mv.window, mv.discard, |line|, p);
    SomethingChosen(mv.rules, WindowValues(line, span, mv.fill));
  }

  ghost function MovedAt<T>(mv: Moving<T>, data: seq<T>, s: nat, n: nat, m: nat, outN: nat, inner: nat, p: nat, outer: nat): (v: T)
    requires |data| == s * (n * m) && mv.Fits(n, outN) && inner < s && p < outN && outer < m
    ensures MovingAt(mv, Line(data, s, n, m, inner, outer), p) == Some(v)
  {
    MovingSome(mv, Line(data, s, n, m, inner, outer), outN, p);
    MovingAt(mv, Line(data, s, n, m, inner, outer), p).value
  }

  lemma MovingExists<T>(mv: Moving<T>, data: seq<T>, s: nat, n: nat, m: nat, outN: nat) returns (expected: seq<T>)
    requires |data| == s * (n * m) && mv.Fits(n, outN)
    ensures IsMoving(mv, data, s, n, m, outN, expected)
  {
    var at := (inner: nat, p: nat, outer: nat) requires inner < s && p < outN && outer < m =>
      MovedAt(mv, data, s, n, m, outN, inner, p, outer);
    expected := Table(s, outN, m, at);
    forall inner: nat, p: nat, outer: nat | inner < s && p < outN && outer < m
      ensures LineOffset(s, outN, inner, p, outer) < |expected|
      ensures MovingAt(mv, Line(data, s, n, m, inner, outer), p) == Some(expected[LineOffset(s, outN, inner, p, outer)])
    {
      TableAt(s, outN, m, at, inner, p, outer);
    }
  }

  /** The number of blocks along the remaining axes, counted from the output when the input has none. */
  method CountOuter(dims: seq<nat>, axis: nat, outDims: seq<nat>, length: nat, ghost outN: nat) returns (m: nat)
    requires |dims| >= 2 && length == Product(dims) && outDims == Canonical(OutputDims(dims, axis, outN))
    ensures m == OuterCount(dims, axis)
  {
    LinesFill(dims, axis);
    var block := Stride(dims, axis) * Extent(dims, axis);
    if block == 0 {
      TailOfOutput(dims, axis, outN);
      m := if axis + 1 < |outDims| then Product(outDims[axis + 1..]) else 1;
    } else {
      BlockTimesOuter(Stride(dims, axis), Extent(dims, axis), OuterCount(dims, axis));
      DivModUnique(0, block, OuterCount(dims, axis));
      m := length / block;
    }
  }

  lemma BlockTimesOuter(s: nat, n: nat, m: nat)
    ensures s * (n * m) == (s * n) * m
  {
  }

  lemma TailOfOutput(dims: seq<nat>, axis: nat, outN: nat)
    requires |dims| >= 2
    ensures var out := Canonical(OutputDims(dims, axis, outN));
            (if axis + 1 < |out| then Product(out[axis + 1..]) else 1) == OuterCount(dims, axis)
  {
    OutputTail(dims, axis, outN);
    CanonicalTail(OutputDims(dims, axis, outN), axis + 1);
  }

  lemma OutputTail(dims: seq<nat>, axis: nat, outN: nat)
    ensures axis + 1 <= |OutputDims(dims, axis, outN)|
    ensures Product(OutputDims(dims, axis, outN)[axis + 1..]) == OuterCount(dims, axis)
  {
    var full := OutputDims(dims, axis, outN);
    if axis < |dims| {
      assert full[axis + 1..] == dims[axis + 1..];
    } else {
      assert full[axis + 1..] == [];
    }
  }

  lemma CanonicalTail(full: seq<nat>, cut: nat)
    requires |full| >= 2 && cut <= |full|
    ensures (if cut < |Canonical(full)| then Product(Canonical(full)[cut..]) else 1) == Product(full[cut..])
  {
    StrippedIsCanonical(full);
    TailKept(full, Canonical(full), |full| - |Canonical(full)|, cut);
  }

  lemma TailKept(full: seq<nat>, out: seq<nat>, k: nat, cut: nat)
    requires full == out + Ones(k) && cut <= |full|
    ensures (if cut < |out| then Product(out[cut..]) else 1) == Product(full[cut..])
  {
    if cut < |out| {
      assert full[cut..] == out[cut..] + Ones(k);
      ExtendedSameOffsets(out[cut..], out[cut..], k);
    } else {
      assert full[cut..] == Ones(|full| - cut);
      OnesAndZeros(|full| - cut);
    }
  }
}
