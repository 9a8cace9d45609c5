/**
 Conjugate symmetry along axes: the test that decides whether an inverse transform is real, and the
 in-place enforcement of symmetry along one axis.
 */
module ConjugateSymmetry {
  import opened MixedRadix
  import opened Shapes
  import opened Sealing
  import opened Lines
  import opened ComplexNumbers
  import opened Doubles
  import opened AxisTransform

  // ----- the symmetry of one line

  /** The coordinate opposite to `j` on a circle of `n` positions. */
  function Opposite(n: nat, j: nat): (k: nat)
    requires j < n
    ensures k < n
  {
    (n - j) % n
  }

  ghost predicate LineSymmetric(line: seq<Complex>) {
    forall j: nat | j < |line| :: line[j] == line[Opposite(|line|, j)].Conjugate()
  }

  /** The second half replaced by the mirror image of the first. */
  function MirroredLine(line: seq<Complex>): (r: seq<Complex>)
    ensures |r| == |line|
  {
    seq(|line|, j requires 0 <= j < |line| => if 2 * j > |line| then line[|line| - j].Conjugate() else line[j])
  }

  /** The positions opposite to themselves made real. */
  function ClearedLine(line: seq<Complex>): (r: seq<Complex>)
    ensures |r| == |line|
  {
    seq(|line|, j requires 0 <= j < |line| => if j == 0 || 2 * j == |line| then line[j].RealPart() else line[j])
  }

  function EnforcedLine(line: seq<Complex>): (r: seq<Complex>)
    ensures |r| == |line|
  {
    ClearedLine(MirroredLine(line))
  }

  lemma OppositeCases(n: nat, j: nat)
    requires j < n
    ensures Opposite(n, j) == (if j == 0 then 0 else n - j)
    ensures Opposite(n, Opposite(n, j)) == j
  {
  }

  lemma EnforcedLineSymmetric(line: seq<Complex>)
    ensures LineSymmetric(EnforcedLine(line))
    ensures EnforcedLine(line) == line <==> LineSymmetric(line)
  {
    forall j: nat | j < |line|
      ensures EnforcedLine(line)[j] == EnforcedLine(line)[Opposite(|line|, j)].Conjugate()
    {
      OppositeCases(|line|, j);
    }
    if LineSymmetric(line) {
      forall j: nat | j < |line| ensures EnforcedLine(line)[j] == line[j] {
        OppositeCases(|line|, j);
        assert line[j] == line[Opposite(|line|, j)].Conjugate();
      }
    }
  }

  // ----- the symmetry of an array

  function Mirror(x: seq<nat>, d: seq<nat>, axes: set<nat>): (y: seq<nat>)
    requires |x| == |d|
    ensures |y| == |d|
  {
    seq(|d|, i requires 0 <= i < |d| => MirrorOne(x[i], d[i], i in axes))
  }

  function MirrorOne(coordinate: nat, extent: nat, mirrored: bool): nat {
    if mirrored && coordinate < extent then (extent - coordinate) % extent else coordinate
  }

  /** The offset of the element opposite along all the axes. */
  function Reflected(o: nat, d: seq<nat>, axes: set<nat>): nat {
    Encode(Mirror(Decode(o, d), d, axes), d)
  }

  lemma ReflectedInBounds(o: nat, d: seq<nat>, axes: set<nat>)
    requires o < Product(d)
    ensures Reflected(o, d, axes) < Product(d)
  {
    EncodeDecode(o, d);
    EncodeBound(Mirror(Decode(o, d), d, axes), d);
  }

  /** Tests every element against its opposite. */
  method ConjugateSymmetric<T>(values: seq<T>, d: seq<nat>, axes: set<nat>, close: (T, T) -> bool) returns (r: bool)
    ensures r <==> forall o: nat | o < |values| ::
                     Reflected(o, d, axes) < |values| && close(values[o], values[Reflected(o, d, axes)])
  {
    for o := 0 to |values|
      invariant forall i: nat | i < o ::
                  Reflected(i, d, axes) < |values| && close(values[i], values[Reflected(i, d, axes)])
    {
      var at := ReflectOffset(o, d, axes);
      if at >= |values| || !close(values[o], values[at]) {
        return false;
      }
    }
    r := true;
  }

  /** Decodes an offset, mirrors the coordinates and encodes them again in one pass. */
  method ReflectOffset(o: nat, d: seq<nat>, axes: set<nat>) returns (reflected: nat)
    ensures reflected == Reflected(o, d, axes)
  {
    var remainder, stride := o, 1;
    reflected := 0;
    ghost var c := Decode(o, d);
    ghost var y := Mirror(c, d, axes);
    RunningStart(o, d, y, d);
    for axis := 0 to |d|
      invariant Running(c, d, y, d, axis, remainder, stride, reflected)
    {
      remainder, stride, reflected := ReflectAxis(d, axes, axis, remainder, stride, reflected, c, y);
    }
    RunningEnd(c, d, y, d, remainder, stride, reflected);
  }

  method ReflectAxis(d: seq<nat>, axes: set<nat>, axis: nat, remainder: nat, stride: nat, reflected: nat,
                     ghost c: seq<nat>, ghost y: seq<nat>)
    returns (rest: nat, nextStride: nat, next: nat)
    requires axis < |d| && Running(c, d, y, d, axis, remainder, stride, reflected)
    requires y[axis] == MirrorOne(c[axis], d[axis], axis in axes)
    ensures Running(c, d, y, d, axis + 1, rest, nextStride, next)
  {
    RunningStep(c, d, y, d, axis, remainder, stride, reflected);
    var extent := d[axis];
    var coordinate := MirrorOne(Digit(remainder, extent), extent, axis in axes);
    rest, nextStride, next := Rest(remainder, extent), stride * extent, reflected + coordinate * stride;
  }

  lemma MirrorAlongAxis(x: seq<nat>, d: seq<nat>, axis: nat)
    requires Inside(x, d) && axis < |d|
    ensures Inside(Mirror(x, d, {axis}), d)
    ensures Encode(Mirror(x, d, {axis}), d)
            == LineOffset(Stride(d, axis), d[axis], Encode(x[..axis], d[..axis]), Opposite(d[axis], x[axis]),
                          Encode(x[axis + 1..], d[axis + 1..]))
  {
    var y := Mirror(x, d, {axis});
    assert y[axis] == Opposite(d[axis], x[axis]);
    assert y[..axis] == x[..axis] && y[axis + 1..] == x[axis + 1..];
    OffsetAlongAxis(y, d, axis);
  }

  /** Along one axis an element's opposite is on the same line. */
  lemma ReflectedOnLine(d: seq<nat>, axis: nat, s: nat, n: nat, m: nat, inner: nat, j: nat, outer: nat)
    requires s == Stride(d, axis) && n == Extent(d, axis) && m == OuterCount(d, axis)
    requires inner < s && j < n && outer < m
    ensures Reflected(LineOffset(s, n, inner, j, outer), d, {axis}) == LineOffset(s, n, inner, Opposite(n, j), outer)
  {
    var o := LineOffset(s, n, inner, j, outer);
    LineOffsetBound(s, n, m, inner, j, outer);
    LinesFill(d, axis);
    EncodeDecode(o, d);
    ReflectedFrom(Decode(o, d), d, axis, s, n, m, inner, j, outer);
  }

  lemma ReflectedFrom(x: seq<nat>, d: seq<nat>, axis: nat, s: nat, n: nat, m: nat, inner: nat, j: nat, outer: nat)
    requires s == Stride(d, axis) && n == Extent(d, axis) && m == OuterCount(d, axis)
    requires inner < s && j < n && outer < m
    requires Inside(x, d) && Encode(x, d) == LineOffset(s, n, inner, j, outer)
    ensures Encode(Mirror(x, d, {axis}), d) == LineOffset(s, n, inner, Opposite(n, j), outer)
  {
    if axis < |d| {
      MirrorAlongAxis(x, d, axis);
      OffsetAlongAxis(x, d, axis);
      LineOffsetUnique(s, n, inner, j, outer, Encode(x[..axis], d[..axis]), x[axis], Encode(x[axis + 1..], d[axis + 1..]));
    } else {
      assert Mirror(x, d, {axis}) == x;
    }
  }

  /** Every element is exactly the conjugate of its opposite. */
  ghost predicate ExactlySymmetric(values: seq<Complex>, d: seq<nat>, axes: set<nat>) {
    forall o: nat | o < |values| ::
      Reflected(o, d, axes) < |values| && values[o] == values[Reflected(o, d, axes)].Conjugate()
  }

  ghost predicate LinesSymmetric(values: seq<Complex>, s: nat, n: nat, m: nat) {
    && |values| == s * (n * m)
    && forall inner: nat, outer: nat | inner < s && outer < m :: LineSymmetric(Line(values, s, n, m, inner, outer))
  }

  /** Symmetry along an axis is symmetry of every line. */
  lemma SymmetricByLines(values: seq<Complex>, d: seq<nat>, axis: nat)
    requires |values| == Product(d)
    ensures ExactlySymmetric(values, d, {axis}) <==>
            LinesSymmetric(values, Stride(d, axis), Extent(d, axis), OuterCount(d, axis))
  {
    var s, n, m := Stride(d, axis), Extent(d, axis), OuterCount(d, axis);
    LinesFill(d, axis);
    if ExactlySymmetric(values, d, {axis}) {
      forall inner: nat, outer: nat, j: nat | inner < s && outer < m && j < n
        ensures var line := Line(values, s, n, m, inner, outer); line[j] == line[Opposite(n, j)].Conjugate()
      {
        ReflectedOnLine(d, axis, s, n, m, inner, j, outer);
        LineAt(values, s, n, m, inner, outer, j);
        LineAt(values, s, n, m, inner, outer, Opposite(n, j));
      }
    }
    if LinesSymmetric(values, s, n, m) {
      forall o: nat | o < |values|
        ensures Reflected(o, d, {axis}) < |values| && values[o] == values[Reflected(o, d, {axis})].Conjugate()
      {
        var inner, j, outer := OffsetOnLine(s, n, m, o);
        ReflectedOnLine(d, axis, s, n, m, inner, j, outer);
        LineAt(values, s, n, m, inner, outer, j);
        LineAt(values, s, n, m, inner, outer, Opposite(n, j));
        assert LineSymmetric(Line(values, s, n, m, inner, outer));
      }
    }
  }

  // ----- what enforcement achieves

  /** Enforcement makes the array symmetric along the axis and changes nothing exactly when it was already. */
  lemma EnforcementIsProjection(before: seq<Complex>, after: seq<Complex>, d: seq<nat>, axis: nat)
    requires |before| == Product(d)
    requires MapsLines(EnforcedLine, before, after, Stride(d, axis), Extent(d, axis), OuterCount(d, axis))
    ensures ExactlySymmetric(after, d, {axis})
    ensures after == before <==> ExactlySymmetric(before, d, {axis})
  {
    var s, n, m := Stride(d, axis), Extent(d, axis), OuterCount(d, axis);
    LinesFill(d, axis);
    SymmetricByLines(before, d, axis);
    SymmetricByLines(after, d, axis);
    forall inner: nat, outer: nat | inner < s && outer < m
      ensures LineSymmetric(Line(after, s, n, m, inner, outer))
      ensures LineSymmetric(Line(before, s, n, m, inner, outer)) <==>
              Line(after, s, n, m, inner, outer) == Line(before, s, n, m, inner, outer)
    {
      EnforcedLineSymmetric(Line(before, s, n, m, inner, outer));
    }
    if ExactlySymmetric(before, d, {axis}) {
      LinesDetermine(after, before, s, n, m);
    }
  }

  /** Enforcing twice is enforcing once. */
  lemma EnforcementIdempotent(before: seq<Complex>, once: seq<Complex>, twice: seq<Complex>, d: seq<nat>, axis: nat)
    requires |before| == Product(d)
    requires MapsLines(EnforcedLine, before, once, Stride(d, axis), Extent(d, axis), OuterCount(d, axis))
    requires MapsLines(EnforcedLine, once, twice, Stride(d, axis), Extent(d, axis), OuterCount(d, axis))
    ensures twice == once
  {
    EnforcementIsProjection(before, once, d, axis);
    EnforcementIsProjection(once, twice, d, axis);
  }

  // ----- the tolerant comparison

  function Abs(x: real): real {
    if x < 0.0 then -x else x
  }

  function Max(x: real, y: real): real {
    if x < y then y else x
  }

  predicate CloseReal(left: real, right: real) {
    left == right || Abs(left - right) <= 32.0 * EPSILON * Max(Max(Abs(left), Abs(right)), 1.0)
  }

  /** Close to each other's conjugate. */
  predicate CloseConjugates(left: Complex, right: Complex) {
    CloseReal(left.re, right.re) && CloseReal(left.im, -right.im)
  }

  // ----- enforcing in place

  /** What mirroring is to write, looked into only where `Unseal` is mentioned. */
  ghost predicate SealedMirror(before: seq<Complex>, expected: seq<Complex>, s: nat, n: nat, m: nat) {
    forall k {:trigger Unseal(k)} :: Unseal(k) ==>
      && |before| == s * (n * m) == |expected|
      && forall inner: nat, j: nat, outer: nat {:trigger LineOffset(s, n, inner, j, outer)} | inner < s && j < n && outer < m ::
           && LineOffset(s, n, inner, j, outer) < |expected|
           && expected[LineOffset(s, n, inner, j, outer)] == MirroredLine(Line(before, s, n, m, inner, outer))[j]
  }

  lemma MirroredSpot(before: seq<Complex>, expected: seq<Complex>, s: nat, n: nat, m: nat, inner: nat, j: nat, outer: nat)
    requires SealedMirror(before, expected, s, n, m) && inner < s && j < n && outer < m
    ensures LineOffset(s, n, inner, j, outer) < |expected| == |before|
    ensures 2 * j <= n ==> expected[LineOffset(s, n, inner, j, outer)] == before[LineOffset(s, n, inner, j, outer)]
    ensures 2 * j > n ==> LineOffset(s, n, inner, n - j, outer) < |before|
    ensures 2 * j > n ==> expected[LineOffset(s, n, inner, j, outer)] == before[LineOffset(s, n, inner, n - j, outer)].Conjugate()
  {
    assert Unseal(0);
    LineAt(before, s, n, m, inner, outer, j);
    if 2 * j > n {
      LineAt(before, s, n, m, inner, outer, n - j);
    }
  }

  method MirrorLine(values: array<Complex>, s: nat, n: nat, m: nat, inner: nat, outer: nat,
                    ghost before: seq<Complex>, ghost expected: seq<Complex>, ghost marks: seq<Mark>)
    requires SealedMirror(before, expected, s, n, m) && SealedMarks(marks, s, n, m) && inner < s && outer < m && n > 0
    requires values.Length == |marks| == |expected| == |before|
    requires forall o | 0 <= o < |marks| :: marks[o].at < n && (2 * marks[o].at <= n ==> expected[o] == before[o])
    requires forall o | 0 <= o < |marks| && marks[o].line == inner + s * outer :: values[o] == before[o]
    modifies values
    ensures forall o | 0 <= o < |marks| ::
              values[o] == if marks[o].line == inner + s * outer then expected[o] else old(values[o])
  {
    ghost var k := inner + s * outer;
    for positive := 1 to (n - 1) / 2 + 1
      invariant forall o | 0 <= o < |marks| ::
                  values[o] == if marks[o].line == k && n - marks[o].at < positive then expected[o] else old(values[o])
    {
      var from := Spot(s, n, m, inner, positive, outer, marks);
      var to := Spot(s, n, m, inner, n - positive, outer, marks);
      MirroredSpot(before, expected, s, n, m, inner, n - positive, outer);
      values[to] := values[from].Conjugate();
    }
  }

  method MirrorLines(values: array<Complex>, s: nat, n: nat, m: nat,
                     ghost before: seq<Complex>, ghost expected: seq<Complex>, ghost marks: seq<Mark>)
    requires SealedMirror(before, expected, s, n, m) && SealedMarks(marks, s, n, m) && n > 0
    requires values.Length == |marks| == |expected| == |before| && values[..] == before
    requires forall o | 0 <= o < |marks| :: marks[o].line < s * m && marks[o].at < n
    requires forall o | 0 <= o < |marks| :: 2 * marks[o].at <= n ==> expected[o] == before[o]
    modifies values
    ensures values[..] == expected
  {
    for outer := 0 to m
      invariant forall o | 0 <= o < |marks| :: values[o] == if marks[o].line < s * outer then expected[o] else before[o]
    {
      for inner := 0 to s
        invariant forall o | 0 <= o < |marks| ::
                    values[o] == if marks[o].line < s * outer + inner then expected[o] else before[o]
      {
        MirrorLine(values, s, n, m, inner, outer, before, expected, marks);
      }
      assert s * (outer + 1) == s * outer + s;
    }
  }

  method ClearLines(values: array<Complex>, s: nat, n: nat, m: nat, ghost before: seq<Complex>, ghost marks: seq<Mark>)
    requires SealedMarks(marks, s, n, m) && n > 0
    requires values.Length == |marks| == |before| && values[..] == before
    requires forall o | 0 <= o < |marks| :: marks[o].line < s * m
    modifies values
    ensures forall o | 0 <= o < |marks| :: values[o] == ClearedAt(before[o], marks[o], n)
  {
    for outer := 0 to m
      invariant forall o | 0 <= o < |marks| ::
                  values[o] == if marks[o].line < s * outer then ClearedAt(before[o], marks[o], n) else before[o]
    {
      for inner := 0 to s
        invariant forall o | 0 <= o < |marks| ::
                    values[o] == if marks[o].line < s * outer + inner then ClearedAt(before[o], marks[o], n) else before[o]
      {
        ClearLine(values, s, n, m, inner, outer, before, marks);
      }
      assert s * (outer + 1) == s * outer + s;
    }
  }

  function ClearedAt(value: Complex, mark: Mark, n: nat): Complex {
    if mark.at == 0 || 2 * mark.at == n then value.RealPart() else value
  }

  method ClearLine(values: array<Complex>, s: nat, n: nat, m: nat, inner: nat, outer: nat,
                   ghost before: seq<Complex>, ghost marks: seq<Mark>)
    requires SealedMarks(marks, s, n, m) && n > 0 && inner < s && outer < m
    requires values.Length == |marks| == |before|
    requires forall o | 0 <= o < |marks| && marks[o].line == inner + s * outer :: values[o] == before[o]
    modifies values
    ensures forall o | 0 <= o < |marks| ::
              values[o] == if marks[o].line == inner + s * outer then ClearedAt(before[o], marks[o], n) else old(values[o])
  {
    var base := Spot(s, n, m, inner, 0, outer, marks);
    values[base] := values[base].RealPart();
    if n % 2 == 0 {
      var middle := Spot(s, n, m, inner, n / 2, outer, marks);
      values[middle] := values[middle].RealPart();
    }
  }

  /** Replaces the second half of every line by the mirror image of the first. */
  method MirrorAxis(values: array<Complex>, dims: seq<nat>, axis: nat) returns (ok: bool)
    modifies values
    ensures var s, n := Stride(dims, axis), Extent(dims, axis);
            && (ok <==> n <= 1 || values.Length == 0 || WholeBlocks(s, n, values.Length))
            && (ok && WholeBlocks(s, n, values.Length) ==>
                  MapsLines(MirroredLine, old(values[..]), values[..], s, n, values.Length / (n * s)))
            && (!ok || n <= 1 || values.Length == 0 ==> values[..] == old(values[..]))
  {
    var s, n := Stride(dims, axis), Extent(dims, axis);
    if n <= 1 || values.Length == 0 {
      if WholeBlocks(s, n, values.Length) {
        BlocksFill(s, n, values.Length);
        ShortMirror(values[..], s, n, values.Length / (n * s));
      }
      return true;
    }
    if n * s == 0 || values.Length % (n * s) != 0 {
      return false;
    }
    var m := values.Length / (n * s);
    BlocksFill(s, n, values.Length);
    ghost var expected := MappedExists(MirroredLine, values[..], s, n, m);
    ghost var marks := MarksExist(s, n, m);
    FirstHalfKept(values[..], expected, s, n, m, marks);
    MirrorLines(values, s, n, m, values[..], expected, marks);
    ok := true;
  }

  lemma ShortMirror(values: seq<Complex>, s: nat, n: nat, m: nat)
    requires |values| == s * (n * m) && (n <= 1 || values == [])
    ensures MapsLines(MirroredLine, values, values, s, n, m)
  {
    forall inner: nat, outer: nat | inner < s && outer < m
      ensures Line(values, s, n, m, inner, outer) == MirroredLine(Line(values, s, n, m, inner, outer))
    {
      if n > 1 {
        LineAt(values, s, n, m, inner, outer, 0);
      }
    }
  }

  lemma FirstHalfKept(before: seq<Complex>, expected: seq<Complex>, s: nat, n: nat, m: nat, marks: seq<Mark>)
    requires SealedMirror(before, expected, s, n, m) && IsMarked(marks, s, n, m)
    requires |before| == s * (n * m) == |expected|
    ensures forall o | 0 <= o < |marks| :: 2 * marks[o].at <= n ==> expected[o] == before[o]
  {
    forall o | 0 <= o < |marks| && 2 * marks[o].at <= n ensures expected[o] == before[o] {
      var inner, j, outer := OffsetOnLine(s, n, m, o);
      MirroredSpot(before, expected, s, n, m, inner, j, outer);
    }
  }

  /** Makes the positions opposite to themselves real on every line. */
  method ClearAxis(values: array<Complex>, dims: seq<nat>, axis: nat) returns (ok: bool)
    modifies values
    ensures var s, n := Stride(dims, axis), Extent(dims, axis);
            && (ok <==> n == 0 || values.Length == 0 || WholeBlocks(s, n, values.Length))
            && (ok && WholeBlocks(s, n, values.Length) ==>
                  MapsLines(ClearedLine, old(values[..]), values[..], s, n, values.Length / (n * s)))
            && (!ok || n == 0 || values.Length == 0 ==> values[..] == old(values[..]))
  {
    var s, n := Stride(dims, axis), Extent(dims, axis);
    if n == 0 || values.Length == 0 {
      return true;
    }
    if n * s == 0 || values.Length % (n * s) != 0 {
      return false;
    }
    var m := values.Length / (n * s);
    BlocksFill(s, n, values.Length);
    ghost var marks := MarksExist(s, n, m);
    ClearLines(values, s, n, m, values[..], marks);
    ClearedByMarks(old(values[..]), values[..], s, n, m, marks);
    ok := true;
  }

  lemma ClearedByMarks(before: seq<Complex>, after: seq<Complex>, s: nat, n: nat, m: nat, marks: seq<Mark>)
    requires IsMarked(marks, s, n, m) && |before| == |after| == |marks|
    requires forall o | 0 <= o < |marks| :: after[o] == ClearedAt(before[o], marks[o], n)
    ensures MapsLines(ClearedLine, before, after, s, n, m)
  {
    forall inner: nat, outer: nat, j: nat | inner < s && outer < m && j < n
      ensures Line(after, s, n, m, inner, outer)[j] == ClearedLine(Line(before, s, n, m, inner, outer))[j]
    {
      LineAt(before, s, n, m, inner, outer, j);
      LineAt(after, s, n, m, inner, outer, j);
    }
  }

  /**
   Enforces conjugate symmetry along an axis in place.  Afterwards the values are symmetric, exactly
   and so within the tolerance of the test; they are the same as before exactly when they were
   symmetric already.
   */
  method EnforceAxisSymmetry(values: array<Complex>, dims: seq<nat>, axis: nat) returns (ok: bool)
    modifies values
    ensures var s, n := Stride(dims, axis), Extent(dims, axis);
            && (ok <==> n == 0 || values.Length == 0 || WholeBlocks(s, n, values.Length))
            && (ok && WholeBlocks(s, n, values.Length) ==>
                  MapsLines(EnforcedLine, old(values[..]), values[..], s, n, values.Length / (n * s)))
            && (!ok || n == 0 || values.Length == 0 ==> values[..] == old(values[..]))
    ensures values.Length == Product(dims) ==>
              && ok && ExactlySymmetric(values[..], dims, {axis})
              && (values[..] == old(values[..]) <==> ExactlySymmetric(old(values[..]), dims, {axis}))
  {
    var first := MirrorAxis(values, dims, axis);
    ghost var mirrored := values[..];
    if !first {
      ok := false;
    } else {
      ok := ClearAxis(values, dims, axis);
    }
    EnforcementOutcome(old(values[..]), mirrored, values[..], dims, axis, ok);
  }

  lemma EnforcementOutcome(before: seq<Complex>, mirrored: seq<Complex>, after: seq<Complex>, dims: seq<nat>, axis: nat, ok: bool)
    requires |before| == |after|
    requires var s, n := Stride(dims, axis), Extent(dims, axis);
             && (ok <==> n == 0 || |before| == 0 || WholeBlocks(s, n, |before|))
             && (ok && WholeBlocks(s, n, |before|) ==>
                   && MapsLines(MirroredLine, before, mirrored, s, n, |before| / (n * s))
                   && MapsLines(ClearedLine, mirrored, after, s, n, |before| / (n * s)))
    ensures var s, n := Stride(dims, axis), Extent(dims, axis);
            ok && WholeBlocks(s, n, |before|) ==> MapsLines(EnforcedLine, before, after, s, n, |before| / (n * s))
    ensures |before| == Product(dims) ==>
              && ok && ExactlySymmetric(after, dims, {axis})
              && (after == before <==> ExactlySymmetric(before, dims, {axis}))
  {
    var s, n := Stride(dims, axis), Extent(dims, axis);
    if ok && WholeBlocks(s, n, |before|) {
      EnforcedByParts(before, mirrored, after, s, n, |before| / (n * s));
    }
    if |before| == Product(dims) && |before| > 0 {
      WholeOfProduct(|before|, dims, axis);
      EnforcementIsProjection(before, after, dims, axis);
    }
  }

  lemma EnforcedByParts(before: seq<Complex>, mirrored: seq<Complex>, after: seq<Complex>, s: nat, n: nat, m: nat)
    requires MapsLines(MirroredLine, before, mirrored, s, n, m) && MapsLines(ClearedLine, mirrored, after, s, n, m)
    ensures MapsLines(EnforcedLine, before, after, s, n, m)
  {
    forall inner: nat, outer: nat | inner < s && outer < m
      ensures Line(after, s, n, m, inner, outer) == EnforcedLine(Line(before, s, n, m, inner, outer))
    {
      assert Line(mirrored, s, n, m, inner, outer) == MirroredLine(Line(before, s, n, m, inner, outer));
    }
  }

  lemma WholeOfProduct(length: nat, dims: seq<nat>, axis: nat)
    requires length == Product(dims) && length > 0
    ensures var s, n := Stride(dims, axis), Extent(dims, axis);
            WholeBlocks(s, n, length) && length / (n * s) == OuterCount(dims, axis)
  {
    LinesFill(dims, axis);
    BlocksCounted(length, Stride(dims, axis), Extent(dims, axis), OuterCount(dims, axis));
  }

  lemma BlocksCounted(length: nat, s: nat, n: nat, m: nat)
    requires length == s * (n * m) && length > 0
    ensures WholeBlocks(s, n, length) && length / (n * s) == m
  {
    var block := n * s;
    assert s * (n * m) == block * m;
    DivModUnique(0, block, m);
  }

  /** What the tolerant test makes of exact symmetry. */
  lemma ExactIsClose(values: seq<Complex>, d: seq<nat>, axes: set<nat>)
    requires ExactlySymmetric(values, d, axes)
    ensures forall o: nat | o < |values| ::
              Reflected(o, d, axes) < |values| && CloseConjugates(values[o], values[Reflected(o, d, axes)])
  {
  }
}
