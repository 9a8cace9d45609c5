/**
 Cumulative extrema along an axis, written in place over a copy of the input.
 */
module CumulativeExtrema {
  import opened MixedRadix
  import opened Results
  import opened Sealing
  import opened Shapes
  import opened Tensors
  import opened Coordinates
  import opened Lines
  import opened Fibres
  import opened Extrema
  import opened Windows
  import opened MovingExtrema

  /** The coordinate visited at a step, from either end of the axis. */
  function Visit(n: nat, reverse: bool, step: nat): nat
    requires step < n
  {
    if reverse then n - 1 - step else step
  }

  /** The first `k` values of a line in visiting order. */
  function Visited<T>(line: seq<T>, reverse: bool, k: nat): (v: seq<T>)
    requires k <= |line|
    ensures |v| == k
  {
    seq(k, i requires 0 <= i < k => line[Visit(|line|, reverse, i)])
  }

  lemma VisitedSnoc<T>(line: seq<T>, reverse: bool, k: nat)
    requires k < |line|
    ensures Visited(line, reverse, k + 1) == Visited(line, reverse, k) + [line[Visit(|line|, reverse, k)]]
    ensures Visited(line, reverse, k + 1)[..k] == Visited(line, reverse, k)
  {
  }

  /** `expected` holds at the position visited at a step of a line the extremum of the values visited so far. */
  ghost predicate CumulativeAt<T>(r: Rules<T>, reverse: bool, data: seq<T>, s: nat, n: nat, m: nat, expected: seq<T>,
                                  inner: nat, step: nat, outer: nat)
    requires |data| == s * (n * m) && inner < s && step < n && outer < m
  {
    var o := LineOffset(s, n, inner, Visit(n, reverse, step), outer);
    && o < |expected|
    && Cumulative(r, Visited(Line(data, s, n, m, inner, outer), reverse, step + 1)) == Some(expected[o])
  }

  ghost predicate IsCumulative<T>(r: Rules<T>, reverse: bool, data: seq<T>, s: nat, n: nat, m: nat, expected: seq<T>) {
    && |data| == s * (n * m) == |expected|
    && forall inner: nat, step: nat, outer: nat | inner < s && step < n && outer < m ::
         CumulativeAt(r, reverse, data, s, n, m, expected, inner, step, outer)
  }

  /** Everything the loops rely on, looked into only where `Unseal` is mentioned. */
  ghost predicate SealedPlan<T>(r: Rules<T>, reverse: bool, data: seq<T>, s: nat, n: nat, m: nat,
                                expected: seq<T>, marks: seq<Mark>) {
    forall k {:trigger Unseal(k)} :: Unseal(k) ==>
      IsCumulative(r, reverse, data, s, n, m, expected) && IsMarked(marks, s, n, m)
  }

  method StepOffset<T>(r: Rules<T>, reverse: bool, data: seq<T>, s: nat, n: nat, m: nat,
                       inner: nat, step: nat, outer: nat, ghost line: seq<T>, ghost expected: seq<T>, ghost marks: seq<Mark>)
    returns (o: nat)
    requires SealedPlan(r, reverse, data, s, n, m, expected, marks) && inner < s && step < n && outer < m
    requires SealedLine(data, s, n, m, inner, outer, line)
    ensures |line| == n && o < |data| == |expected| == |marks|
    ensures marks[o] == Mark(inner + s * outer, Visit(n, reverse, step)) && data[o] == line[Visit(n, reverse, step)]
    ensures forall p | 0 <= p < |marks| && marks[p] == Mark(inner + s * outer, Visit(n, reverse, step)) :: p == o
    ensures Cumulative(r, Visited(line, reverse, step + 1)) == Some(expected[o])
  {
    assert Unseal(0);
    assert CumulativeAt(r, reverse, data, s, n, m, expected, inner, step, outer);
    LineAt(data, s, n, m, inner, outer, Visit(n, reverse, step));
    o := LineOffset(s, n, inner, Visit(n, reverse, step), outer);
  }

  /** Runs along one line, writing the extremum so far at each position. */
  method CumulateLine<T>(out: array<T>, r: Rules<T>, reverse: bool, data: seq<T>, s: nat, n: nat, m: nat,
                         inner: nat, outer: nat, ghost line: seq<T>, ghost expected: seq<T>, ghost marks: seq<Mark>)
    requires SealedPlan(r, reverse, data, s, n, m, expected, marks) && inner < s && outer < m
    requires SealedLine(data, s, n, m, inner, outer, line) && |line| == n
    requires out.Length == |data| == |expected| == |marks|
    requires forall o | 0 <= o < |marks| :: marks[o].at < n
    modifies out
    ensures forall o | 0 <= o < |marks| ::
              out[o] == if marks[o].line == inner + s * outer then expected[o] else old(out[o])
  {
    var current: Option<T> := None;
    for step := 0 to n
      invariant current == Cumulative(r, Visited(line, reverse, step))
      invariant forall o | 0 <= o < |marks| ::
                  out[o] == if marks[o].line == inner + s * outer && Visit(n, reverse, marks[o].at) < step then expected[o]
                            else old(out[o])
    {
      var o := StepOffset(r, reverse, data, s, n, m, inner, step, outer, line, expected, marks);
      VisitedSnoc(line, reverse, step);
      current := Some(CumulativeStep(r, current, data[o]));
      out[o] := current.value;
    }
  }

  method CumulateLines<T>(out: array<T>, r: Rules<T>, reverse: bool, data: seq<T>, s: nat, n: nat, m: nat,
                          ghost expected: seq<T>, ghost marks: seq<Mark>)
    requires SealedPlan(r, reverse, data, s, n, m, expected, marks)
    requires |data| == s * (n * m) && out.Length == |data| == |expected| == |marks|
    requires forall o | 0 <= o < |marks| :: marks[o].line < s * m && marks[o].at < n
    modifies out
    ensures out[..] == expected
  {
    for outer := 0 to m
      invariant forall o | 0 <= o < |marks| && marks[o].line < s * outer :: out[o] == expected[o]
    {
      for inner := 0 to s
        invariant forall o | 0 <= o < |marks| && marks[o].line < s * outer + inner :: out[o] == expected[o]
      {
        ghost var line := Line(data, s, n, m, inner, outer);
        CumulateLine(out, r, reverse, data, s, n, m, inner, outer, line, expected, marks);
      }
      assert s * (outer + 1) == s * outer + s;
    }
  }

  lemma CumulativeSome<T>(r: Rules<T>, line: seq<T>)
    requires line != []
    ensures Cumulative(r, line).Some?
  {
  }

  lemma CumulativeExists<T>(r: Rules<T>, reverse: bool, data: seq<T>, s: nat, n: nat, m: nat) returns (expected: seq<T>)
    requires s > 0 && n > 0 && |data| == s * (n * m)
    ensures IsCumulative(r, reverse, data, s, n, m, expected)
  {
    var at := (inner: nat, j: nat, outer: nat) requires inner < s && j < n && outer < m =>
      CumulatedAt(r, reverse, data, s, n, m, inner, j, outer);
    expected := Table(s, n, m, at);
    forall inner: nat, step: nat, outer: nat | inner < s && step < n && outer < m
      ensures CumulativeAt(r, reverse, data, s, n, m, expected, inner, step, outer)
    {
      TableAt(s, n, m, at, inner, Visit(n, reverse, step), outer);
    }
  }

  ghost function CumulatedAt<T>(r: Rules<T>, reverse: bool, data: seq<T>, s: nat, n: nat, m: nat,
                                inner: nat, j: nat, outer: nat): T
    requires |data| == s * (n * m) && inner < s && j < n && outer < m
  {
    var values := Visited(Line(data, s, n, m, inner, outer), reverse, Visit(n, reverse, j) + 1);
    CumulativeSome(r, values);
    Cumulative(r, values).value
  }

  /** A one-element line is its own cumulative extremum, so short axes may be returned as they are. */
  lemma ShortAxis<T>(r: Rules<T>, reverse: bool, data: seq<T>, s: nat, n: nat, m: nat)
    requires |data| == s * (n * m) && (n <= 1 || data == [])
    ensures IsCumulative(r, reverse, data, s, n, m, data)
  {
    forall inner: nat, step: nat, outer: nat | inner < s && step < n && outer < m
      ensures CumulativeAt(r, reverse, data, s, n, m, data, inner, step, outer)
    {
      LineAt(data, s, n, m, inner, outer, step);
      var line := Line(data, s, n, m, inner, outer);
      assert Visited(line, reverse, 1) == [line[0]];
      assert Cumulative(r, [line[0]]) == Some(line[0]);
    }
  }

  // ----- by coordinates

  /** The values of a line from its start, or in reverse from its end, up to position `j`. */
  ghost predicate UpTo<T>(line: seq<T>, reverse: bool, j: nat, values: seq<T>) {
    && j < |line|
    && if reverse then |values| == |line| - j && forall i | 0 <= i < |values| :: values[i] == line[|line| - 1 - i]
       else values == line[..j + 1]
  }

  /** Every element of the output is chosen among those of the input on the same line up to its place. */
  ghost predicate HoldsExtremes<T(!new)>(r: Rules<T>, reverse: bool, src: Tensor<T>, axis: nat, out: Tensor<T>)
    requires src.Valid()
  {
    && out.Valid() && out.dims == src.dims
    && forall x: seq<nat>, values: seq<T>
         | Inside(x, src.dims) && UpTo(Fibre(src.data, src.dims, axis, x), reverse, Coordinate(x, axis), values) ::
         IsChosen(r, Elem(out.data, out.dims, x), values)
  }

  lemma UpToIsVisited<T>(line: seq<T>, reverse: bool, j: nat, values: seq<T>)
    requires UpTo(line, reverse, j, values)
    ensures Visit(|line|, reverse, Visit(|line|, reverse, j)) == j
    ensures values == Visited(line, reverse, Visit(|line|, reverse, j) + 1) != []
  {
  }

  lemma ExtremeAt<T(!new)>(r: Rules<T>, reverse: bool, src: Tensor<T>, axis: nat, out: seq<T>, x: seq<nat>, values: seq<T>)
    requires src.Valid() && |out| == |src.data| && Inside(x, src.dims)
    requires IsCumulative(r, reverse, src.data, Stride(src.dims, axis), Extent(src.dims, axis), OuterCount(src.dims, axis), out)
    requires UpTo(Fibre(src.data, src.dims, axis, x), reverse, Coordinate(x, axis), values)
    ensures IsChosen(r, Elem(out, src.dims, x), values)
  {
    var d, j := src.dims, Coordinate(x, axis);
    var s, n, m := Stride(d, axis), Extent(d, axis), OuterCount(d, axis);
    var inner, outer := LineThrough(src.data, d, axis, x);
    PutInside(x, d, axis, j);
    UpToIsVisited(Fibre(src.data, d, axis, x), reverse, j, values);
    assert CumulativeAt(r, reverse, src.data, s, n, m, out, inner, Visit(n, reverse, j), outer);
    ChosenIsExtreme(r, values);
  }

  lemma ExtremesByCoordinates<T(!new)>(r: Rules<T>, reverse: bool, src: Tensor<T>, axis: nat, out: Tensor<T>)
    requires src.Valid() && out.Valid() && out.dims == src.dims
    requires IsCumulative(r, reverse, src.data, Stride(src.dims, axis), Extent(src.dims, axis), OuterCount(src.dims, axis), out.data)
    ensures HoldsExtremes(r, reverse, src, axis, out)
  {
    forall x: seq<nat>, values: seq<T>
      | Inside(x, src.dims) && UpTo(Fibre(src.data, src.dims, axis, x), reverse, Coordinate(x, axis), values)
      ensures IsChosen(r, Elem(out.data, out.dims, x), values)
    {
      ExtremeAt(r, reverse, src, axis, out.data, x, values);
    }
  }

  /** Cumulative extremum of an array along an axis, forward or in reverse. */
  method CumulativeDense<T(!new)>(r: Rules<T>, reverse: bool, src: Tensor<T>, axis: nat) returns (out: Tensor<T>)
    requires src.Valid()
    ensures out.Valid() && out.dims == src.dims && HoldsExtremes(r, reverse, src, axis, out)
    ensures IsCumulative(r, reverse, src.data, Stride(src.dims, axis), Extent(src.dims, axis),
                         OuterCount(src.dims, axis), out.data)
  {
    LinesFill(src.dims, axis);
    var n := Extent(src.dims, axis);
    if n <= 1 || |src.data| == 0 {
      ShortAxis(r, reverse, src.data, Stride(src.dims, axis), n, OuterCount(src.dims, axis));
      ExtremesByCoordinates(r, reverse, src, axis, src);
      return src;
    }
    var s := Stride(src.dims, axis);
    var m := BlockCount(|src.data|, s, n, OuterCount(src.dims, axis));
    ghost var expected := CumulativeExists(r, reverse, src.data, s, n, m);
    ghost var marks := MarksExist(s, n, m);
    var buffer := new T[|src.data|](i requires 0 <= i < |src.data| => src.data[i]);
    CumulateLines(buffer, r, reverse, src.data, s, n, m, expected, marks);
    out := Tensor(src.dims, buffer[..]);
    ExtremesByCoordinates(r, reverse, src, axis, out);
  }

  /** Blocks of `s * n` elements in a buffer that holds `m` of them. */
  method BlockCount(length: nat, s: nat, n: nat, ghost outer: nat) returns (m: nat)
    requires length == s * (n * outer) && length > 0
    ensures s > 0 && n > 0 && m == outer
  {
    assert s * (n * outer) == (s * n) * outer;
    assert s > 0 && n > 0 && s * n > 0 by {
      Factors(s, n, outer);
    }
    DivModUnique(0, s * n, outer);
    m := length / (s * n);
  }

  lemma Factors(a: nat, b: nat, c: nat)
    requires a * (b * c) > 0
    ensures a > 0 && b > 0 && c > 0 && a * b > 0
  {
  }

  /**
   A forward cumulative extremum is the moving extremum whose window reaches back past the start of the
   axis and not forward at all, with shrinking endpoints and the same treatment of missing values.
   */
  lemma CumulativeIsMoving<T>(r: Rules<T>, w: Window, data: seq<T>, s: nat, n: nat, m: nat, cum: seq<T>, mov: seq<T>)
    requires IsCumulative(r, false, data, s, n, m, cum)
    requires IsMoving(Moving(r, w, false, None), data, s, n, m, n, mov)
    requires n <= w.backward + 1 && w.forward == 0
    ensures cum == mov
  {
    forall o | 0 <= o < |cum| ensures cum[o] == mov[o] {
      var inner, j, outer := OffsetOnLine(s, n, m, o);
      var line := Line(data, s, n, m, inner, outer);
      assert CumulativeAt(r, false, data, s, n, m, cum, inner, j, outer);
      assert Visited(line, false, j + 1) == line[..j + 1];
      WindowReachesBack(r, w, line, j);
    }
  }

  lemma WindowReachesBack<T>(r: Rules<T>, w: Window, line: seq<T>, j: nat)
    requires w.backward <= USIZE_MAX && |line| <= USIZE_MAX && |line| <= w.backward + 1 && w.forward == 0
    requires j < |line|
    ensures Moving(r, w, false, None).Fits(|line|, |line|)
    ensures MovingAt(Moving(r, w, false, None), line, j) == Cumulative(r, line[..j + 1])
  {
    var span := SpanAt(w, false, |line|, j);
    assert span.start == 0 && span.end == j + 1;
    assert WindowValues(line, span, None) == line[..j + 1];
    RulesAgree(r, line[..j + 1]);
    assert Moving(r, w, false, None).Fits(|line|, |line|);
  }

  /** Computes both: for every array, axis and treatment of missing values they are the same array. */
  method CumulativeAndMoving<T(!new)>(r: Rules<T>, w: Window, src: Tensor<T>, axis: nat)
    returns (cumulative: Tensor<T>, moving: Option<Tensor<T>>)
    requires src.Valid() && Extent(src.dims, axis) <= w.backward + 1 && w.forward == 0
    requires Extent(src.dims, axis) <= USIZE_MAX && w.backward <= USIZE_MAX
    ensures moving == Some(cumulative) && HoldsExtremes(r, false, src, axis, cumulative)
    ensures IsCumulative(r, false, src.data, Stride(src.dims, axis), Extent(src.dims, axis),
                         OuterCount(src.dims, axis), cumulative.data)
  {
    cumulative := CumulativeDense(r, false, src, axis);
    moving := MovingExtremum(Moving(r, w, false, None), src, axis);
    CanonicalExtended(src.dims, axis + 1);
    var n := Extent(src.dims, axis);
    assert OutputDims(src.dims, axis, n) == Extended(src.dims, axis + 1);
    CumulativeIsMoving(r, w, src.data, Stride(src.dims, axis), n, OuterCount(src.dims, axis),
                       cumulative.data, moving.value.data);
  }
}
