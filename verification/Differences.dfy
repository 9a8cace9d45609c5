/**
 Iterated differences along an explicit axis, or along the first axis with more or less than one
 position, which may change from pass to pass.
 */
module Differences {
  import opened MixedRadix
  import opened Results
  import opened Sealing
  import opened Shapes
  import opened Tensors
  import opened Coordinates
  import opened Lines
  import opened Fibres
  import opened Partitions
  import opened Windows
  import opened OutputLines

  // ----- one pass

  ghost function DifferenceAt<T>(minus: (T, T) -> T, data: seq<T>, s: nat, n: nat, m: nat, inner: nat, j: nat, outer: nat): T
    requires |data| == s * (n * m) && inner < s && j + 1 < n && outer < m
  {
    var line := Line(data, s, n, m, inner, outer);
    minus(line[j + 1], line[j])
  }

  /** `expected` holds, in column-major order, the differences of neighbours on every line. */
  ghost predicate IsDifference<T>(minus: (T, T) -> T, data: seq<T>, s: nat, n: nat, m: nat, expected: seq<T>) {
    && n > 0 && |data| == s * (n * m) && |expected| == s * ((n - 1) * m)
    && forall inner: nat, j: nat, outer: nat {:trigger LineOffset(s, n - 1, inner, j, outer)}
         | inner < s && j + 1 < n && outer < m ::
         && LineOffset(s, n - 1, inner, j, outer) < |expected|
         && expected[LineOffset(s, n - 1, inner, j, outer)] == DifferenceAt(minus, data, s, n, m, inner, j, outer)
  }

  ghost function DifferenceData<T>(minus: (T, T) -> T, data: seq<T>, s: nat, n: nat, m: nat): (r: seq<T>)
    requires n > 0 && |data| == s * (n * m)
    ensures |r| == s * ((n - 1) * m)
  {
    Table(s, n - 1, m, (inner: nat, j: nat, outer: nat) requires inner < s && j < n - 1 && outer < m =>
      DifferenceAt(minus, data, s, n, m, inner, j, outer))
  }

  lemma DifferenceDataIs<T>(minus: (T, T) -> T, data: seq<T>, s: nat, n: nat, m: nat)
    requires n > 0 && |data| == s * (n * m)
    ensures IsDifference(minus, data, s, n, m, DifferenceData(minus, data, s, n, m))
  {
    forall inner: nat, j: nat, outer: nat | inner < s && j + 1 < n && outer < m
      ensures var o := LineOffset(s, n - 1, inner, j, outer);
              && o < |DifferenceData(minus, data, s, n, m)|
              && DifferenceData(minus, data, s, n, m)[o] == DifferenceAt(minus, data, s, n, m, inner, j, outer)
    {
      TableAt(s, n - 1, m, (inner: nat, j: nat, outer: nat) requires inner < s && j < n - 1 && outer < m =>
        DifferenceAt(minus, data, s, n, m, inner, j, outer), inner, j, outer);
    }
  }

  /** The differences of an array along an axis: one position fewer. */
  ghost function Difference<T>(minus: (T, T) -> T, src: Tensor<T>, axis: nat): (r: Tensor<T>)
    requires src.Valid() && Extent(src.dims, axis) > 0
    ensures r.Valid() && r.dims == Canonical(OutputDims(src.dims, axis, Extent(src.dims, axis) - 1))
  {
    DifferenceShape(src, axis);
    Tensor(Canonical(OutputDims(src.dims, axis, Extent(src.dims, axis) - 1)),
           DifferenceData(minus, src.data, Stride(src.dims, axis), Extent(src.dims, axis), OuterCount(src.dims, axis)))
  }

  lemma DifferenceShape<T>(src: Tensor<T>, axis: nat)
    requires src.Valid() && Extent(src.dims, axis) > 0
    ensures var s, n, m := Stride(src.dims, axis), Extent(src.dims, axis), OuterCount(src.dims, axis);
            var out := Canonical(OutputDims(src.dims, axis, n - 1));
            |src.data| == s * (n * m) && IsCanonical(out) && Product(out) == s * ((n - 1) * m)
  {
    LinesFill(src.dims, axis);
    OutputSize(src.dims, axis, Extent(src.dims, axis) - 1);
    CanonicalIsCanonical(OutputDims(src.dims, axis, Extent(src.dims, axis) - 1));
  }

  /**
   The output has one position fewer along the axis, and at each position the difference of the next element and
   the one there, on the same line of the input.
   */
  ghost predicate HoldsDifferences<T>(minus: (T, T) -> T, src: Tensor<T>, axis: nat, r: Tensor<T>)
    requires src.Valid()
  {
    && r.Valid() && SameButFor(r.dims, src.dims, axis) && Extent(r.dims, axis) + 1 == Extent(src.dims, axis)
    && forall x: seq<nat>, y: seq<nat> | Inside(x, r.dims) && Inside(y, src.dims) && OnSameLine(x, y, axis) ::
         StepsBy(minus, Fibre(src.data, src.dims, axis, y), Coordinate(x, axis), Elem(r.data, r.dims, x))
  }

  ghost predicate StepsBy<T>(minus: (T, T) -> T, line: seq<T>, j: nat, v: T) {
    j + 1 < |line| && v == minus(line[j + 1], line[j])
  }

  lemma DifferenceStep<T>(minus: (T, T) -> T, data: seq<T>, s: nat, n: nat, m: nat, inner: nat, j: nat, outer: nat, line: seq<T>, o: nat)
    requires n > 0 && |data| == s * (n * m) && inner < s && j + 1 < n && outer < m && o == LineOffset(s, n - 1, inner, j, outer)
    requires line == Line(data, s, n, m, inner, outer)
    ensures o < |DifferenceData(minus, data, s, n, m)| && StepsBy(minus, line, j, DifferenceData(minus, data, s, n, m)[o])
  {
    DifferenceDataIs(minus, data, s, n, m);
  }

  lemma DifferenceStepAt<T>(minus: (T, T) -> T, data: seq<T>, d: seq<nat>, axis: nat, r: seq<T>, x: seq<nat>, y: seq<nat>)
    requires IsCanonical(d) && |data| == Product(d) == Stride(d, axis) * (Extent(d, axis) * OuterCount(d, axis)) && Extent(d, axis) > 0
    requires var out := Canonical(OutputDims(d, axis, Extent(d, axis) - 1)); Inside(x, out) && |r| == Product(out)
    requires r == DifferenceData(minus, data, Stride(d, axis), Extent(d, axis), OuterCount(d, axis))
    requires Inside(y, d) && OnSameLine(x, y, axis)
    ensures StepsBy(minus, Fibre(data, d, axis, y), Coordinate(x, axis), Elem(r, Canonical(OutputDims(d, axis, Extent(d, axis) - 1)), x))
  {
    var inner, outer := OutputLine(data, d, axis, Extent(d, axis) - 1, x, y);
    DifferenceStep(minus, data, Stride(d, axis), Extent(d, axis), OuterCount(d, axis), inner, Coordinate(x, axis), outer,
                   Fibre(data, d, axis, y), Encode(x, Canonical(OutputDims(d, axis, Extent(d, axis) - 1))));
  }

  lemma DifferenceHolds<T>(minus: (T, T) -> T, src: Tensor<T>, axis: nat)
    requires src.Valid() && Extent(src.dims, axis) > 0
    ensures HoldsDifferences(minus, src, axis, Difference(minus, src, axis))
  {
    var d, r, n := src.dims, Difference(minus, src, axis), Extent(src.dims, axis);
    OutputExtents(d, axis, n - 1);
    DifferenceShape(src, axis);
    forall x: seq<nat>, y: seq<nat> | Inside(x, r.dims) && Inside(y, d) && OnSameLine(x, y, axis)
      ensures StepsBy(minus, Fibre(src.data, d, axis, y), Coordinate(x, axis), Elem(r.data, r.dims, x))
    {
      DifferenceStepAt(minus, src.data, d, axis, r.data, x, y);
    }
  }

  /** A value and the steps taken from it. */
  ghost function Advanced<T>(plus: (T, T) -> T, start: T, steps: seq<T>): T {
    if steps == [] then start else plus(Advanced(plus, start, steps[..|steps| - 1]), steps[|steps| - 1])
  }

  /** Adding the differences on a line to its first element leads to every other one. */
  lemma {:induction false} DifferencesAddUp<T(!new)>(plus: (T, T) -> T, minus: (T, T) -> T, line: seq<T>, steps: seq<T>, k: nat)
    requires forall a, b :: plus(b, minus(a, b)) == a
    requires k <= |steps| < |line| && forall j: nat | j < |steps| :: StepsBy(minus, line, j, steps[j])
    ensures Advanced(plus, line[0], steps[..k]) == line[k]
  {
    if k > 0 {
      DifferencesAddUp(plus, minus, line, steps, k - 1);
      assert steps[..k][..k - 1] == steps[..k - 1];
      assert StepsBy(minus, line, k - 1, steps[k - 1]);
    }
  }

  /** The lines of the output lead from the first elements of the lines of the input to all others. */
  lemma LinesAddUp<T(!new)>(plus: (T, T) -> T, minus: (T, T) -> T, src: Tensor<T>, axis: nat, r: Tensor<T>, x: seq<nat>, y: seq<nat>, k: nat)
    requires forall a, b :: plus(b, minus(a, b)) == a
    requires src.Valid() && HoldsDifferences(minus, src, axis, r)
    requires Inside(x, r.dims) && Inside(y, src.dims) && OnSameLine(x, y, axis) && k < Extent(src.dims, axis)
    ensures Advanced(plus, Fibre(src.data, src.dims, axis, y)[0], Fibre(r.data, r.dims, axis, x)[..k])
            == Fibre(src.data, src.dims, axis, y)[k]
  {
    var line, steps := Fibre(src.data, src.dims, axis, y), Fibre(r.data, r.dims, axis, x);
    forall j: nat | j < |steps| ensures StepsBy(minus, line, j, steps[j]) {
      FibreAt(r.data, r.dims, axis, x, j);
      PutInside(x, r.dims, axis, j);
      assert OnSameLine(Put(x, axis, j), y, axis) by {
        forall a: nat | a != axis ensures Coordinate(Put(x, axis, j), a) == Coordinate(y, a) {
          assert Coordinate(x, a) == Coordinate(y, a);
        }
      }
    }
    DifferencesAddUp(plus, minus, line, steps, k);
  }

  /** `IsDifference`, to be looked into only where `Unseal` is mentioned. */
  ghost predicate SealedDifference<T>(minus: (T, T) -> T, data: seq<T>, s: nat, n: nat, m: nat, expected: seq<T>) {
    forall k {:trigger Unseal(k)} :: Unseal(k) ==> IsDifference(minus, data, s, n, m, expected)
  }

  method DifferenceSample<T>(minus: (T, T) -> T, data: seq<T>, s: nat, n: nat, ghost m: nat, inner: nat, j: nat, outer: nat,
                             block: nat, ghost expected: seq<T>) returns (v: T)
    requires SealedDifference(minus, data, s, n, m, expected) && inner < s && j + 1 < n && outer < m && block == s * n
    ensures LineOffset(s, n - 1, inner, j, outer) < |expected| && v == expected[LineOffset(s, n - 1, inner, j, outer)]
  {
    assert Unseal(0);
    LineAt(data, s, n, m, inner, outer, j);
    LineAt(data, s, n, m, inner, outer, j + 1);
    BlockForm(s, n, inner, j, outer, block);
    BlockForm(s, n, inner, j + 1, outer, block);
    var previous := outer * block + j * s + inner;
    var current := previous + s;
    v := minus(data[current], data[previous]);
  }

  lemma BlockForm(s: nat, n: nat, inner: nat, j: nat, outer: nat, block: nat)
    requires block == s * n
    ensures outer * block + j * s + inner == LineOffset(s, n, inner, j, outer)
    ensures (j + 1) * s == j * s + s
  {
    Distribute(s, j, n, outer);
  }

  method DifferenceRow<T>(minus: (T, T) -> T, data: seq<T>, s: nat, n: nat, ghost m: nat, j: nat, outer: nat, block: nat,
                          output: seq<T>, ghost expected: seq<T>) returns (row: seq<T>)
    requires SealedDifference(minus, data, s, n, m, expected) && j + 1 < n && outer < m && block == s * n
    requires Emitted(output, expected, LineOffset(s, n - 1, 0, j, outer))
    ensures Emitted(row, expected, LineOffset(s, n - 1, 0, j + 1, outer))
  {
    row := output;
    for inner := 0 to s
      invariant Emitted(row, expected, LineOffset(s, n - 1, inner, j, outer))
    {
      var v := DifferenceSample(minus, data, s, n, m, inner, j, outer, block, expected);
      row := row + [v];
    }
    NextOffset(s, n - 1, j, outer);
  }

  method DifferencePage<T>(minus: (T, T) -> T, data: seq<T>, s: nat, n: nat, ghost m: nat, outer: nat, block: nat,
                           output: seq<T>, ghost expected: seq<T>) returns (page: seq<T>)
    requires SealedDifference(minus, data, s, n, m, expected) && n > 0 && outer < m && block == s * n
    requires Emitted(output, expected, LineOffset(s, n - 1, 0, 0, outer))
    ensures Emitted(page, expected, LineOffset(s, n - 1, 0, 0, outer + 1))
  {
    page := output;
    for j := 0 to n - 1
      invariant Emitted(page, expected, LineOffset(s, n - 1, 0, j, outer))
    {
      page := DifferenceRow(minus, data, s, n, m, j, outer, block, page, expected);
    }
    NextOffset(s, n - 1, 0, outer);
  }

  method DifferencePages<T>(minus: (T, T) -> T, data: seq<T>, s: nat, n: nat, m: nat, block: nat, ghost expected: seq<T>)
    returns (output: seq<T>)
    requires SealedDifference(minus, data, s, n, m, expected) && n > 0 && block == s * n && |expected| == s * ((n - 1) * m)
    ensures output == expected
  {
    output := [];
    NextOffset(s, n - 1, 0, 0);
    for outer := 0 to m
      invariant Emitted(output, expected, LineOffset(s, n - 1, 0, 0, outer))
    {
      output := DifferencePage(minus, data, s, n, m, outer, block, output, expected);
    }
    NextOffset(s, n - 1, 0, m);
    assert expected[..|expected|] == expected;
  }

  /** Blocks of lines in the data; none when a block is empty. */
  method CountBlocks(length: nat, s: nat, n: nat, ghost m: nat) returns (outer: nat)
    requires length == s * (n * m) && n > 0
    ensures s > 0 ==> outer == m
    ensures s == 0 ==> outer == 0
  {
    var block := s * n;
    if block == 0 {
      outer := 0;
    } else {
      assert length == block * m;
      DivModUnique(0, block, m);
      outer := length / block;
    }
  }

  /** One pass along an axis; the output has as many elements as its shape says. */
  method DifferenceOnce<T>(minus: (T, T) -> T, src: Tensor<T>, axis: nat) returns (r: Tensor<T>)
    requires src.Valid() && Extent(src.dims, axis) > 0
    ensures r == Difference(minus, src, axis) && HoldsDifferences(minus, src, axis, r)
  {
    DifferenceHolds(minus, src, axis);
    var n, s := Extent(src.dims, axis), Stride(src.dims, axis);
    DifferenceShape(src, axis);
    var data := DifferenceValues(minus, src.data, s, n, OuterCount(src.dims, axis));
    r := Tensor(Canonical(OutputDims(src.dims, axis, n - 1)), data);
  }

  method DifferenceValues<T>(minus: (T, T) -> T, data: seq<T>, s: nat, n: nat, ghost m: nat) returns (r: seq<T>)
    requires n > 0 && |data| == s * (n * m)
    ensures r == DifferenceData(minus, data, s, n, m)
  {
    ghost var expected := DifferenceData(minus, data, s, n, m);
    DifferenceDataIs(minus, data, s, n, m);
    var outer := CountBlocks(|data|, s, n, m);
    r := [];
    if s > 0 {
      r := DifferencePages(minus, data, s, n, outer, s * n, expected);
    } else {
      NoElements((n - 1) * m);
    }
  }

  lemma NoElements(q: nat)
    ensures 0 * q == 0
  {
  }

  // ----- iterated passes

  /** The first axis whose extent is not one. */
  function FirstAxis(d: seq<nat>): (r: Option<nat>)
    ensures r.Some? ==> r.value < |d| && d[r.value] != 1 && forall a | 0 <= a < r.value :: d[a] == 1
    ensures r.None? ==> forall a | 0 <= a < |d| :: d[a] == 1
  {
    if d == [] then None
    else if d[0] != 1 then Some(0)
    else
      var rest := FirstAxis(d[1..]);
      assert forall a | 0 < a < |d| :: d[a] == d[1..][a - 1];
      if rest.Some? then Some(rest.value + 1) else None
  }

  /** The axis to difference along, if any. */
  function AxisFor(d: seq<nat>, axis: Option<nat>): Option<nat> {
    if axis.Some? then axis else FirstAxis(d)
  }

  /** A pass would take a difference: there is an axis, and it has positions. */
  predicate CanShrink(d: seq<nat>, axis: Option<nat>) {
    var a := AxisFor(d, axis);
    a.Some? && Extent(d, a.value) > 0
  }

  /** One pass: no axis left collapses to an empty array, an axis without positions stays as it is. */
  ghost function Pass<T>(minus: (T, T) -> T, src: Tensor<T>, axis: Option<nat>): (r: Tensor<T>)
    requires src.Valid()
    ensures r.Valid()
  {
    var a := AxisFor(src.dims, axis);
    if a.None? then Encode2(0, 0, 0, 0); Nothing()
    else if Extent(src.dims, a.value) == 0 then src
    else Difference(minus, src, a.value)
  }

  ghost function Iterate<S>(f: S -> S, s: S, k: nat): S
    decreases k
  {
    if k == 0 then s else Iterate(f, f(s), k - 1)
  }

  lemma {:induction false} IterateAdd<S>(f: S -> S, s: S, a: nat, b: nat)
    ensures Iterate(f, Iterate(f, s, a), b) == Iterate(f, s, a + b)
    decreases a
  {
    if a > 0 {
      IterateAdd(f, f(s), a - 1, b);
    }
  }

  lemma IterateNext<S>(f: S -> S, s: S, k: nat)
    ensures Iterate(f, s, k + 1) == f(Iterate(f, s, k))
  {
    IterateAdd(f, s, k, 1);
    assert Iterate(f, Iterate(f, s, k), 1) == Iterate(f, f(Iterate(f, s, k)), 0);
  }

  lemma {:induction false} IterateStop<S>(f: S -> S, s: S, k: nat)
    requires f(s) == s
    ensures Iterate(f, s, k) == s
  {
    if k > 0 {
      IterateStop(f, s, k - 1);
    }
  }

  ghost function PassAlong<T>(minus: (T, T) -> T, axis: Option<nat>): Tensor<T> -> Tensor<T> {
    (t: Tensor<T>) => if t.Valid() then Pass(minus, t, axis) else t
  }

  /** The differences of an order: as many passes. */
  ghost function Passes<T>(minus: (T, T) -> T, src: Tensor<T>, axis: Option<nat>, order: nat): Tensor<T> {
    Iterate(PassAlong(minus, axis), src, order)
  }

  /** Differences of order `a` and then of order `b` are differences of order `a + b`. */
  lemma OrdersAdd<T>(minus: (T, T) -> T, src: Tensor<T>, axis: Option<nat>, a: nat, b: nat)
    ensures Passes(minus, Passes(minus, src, axis, a), axis, b) == Passes(minus, src, axis, a + b)
  {
    IterateAdd(PassAlong(minus, axis), src, a, b);
  }

  lemma NothingStays<T>(minus: (T, T) -> T)
    ensures Nothing<T>().Valid() && Pass(minus, Nothing<T>(), None) == Nothing<T>()
  {
    Encode2(0, 0, 0, 0);
    assert FirstAxis([0, 0]) == Some(0);
  }

  // ----- how many passes there can be

  /** The sum of the extents, counting the axis to difference along. */
  function TotalExtent(d: seq<nat>, axis: Option<nat>): nat {
    Sum(Extended(d, if axis.Some? then axis.value + 1 else 0))
  }

  lemma {:induction false} SumUpdate(p: seq<nat>, i: nat, e: nat)
    requires i < |p|
    ensures Sum(p[i := e]) + p[i] == Sum(p) + e
  {
    var n := |p| - 1;
    if i == n {
      assert p[i := e][..n] == p[..n];
    } else {
      assert p[i := e][..n] == p[..n][i := e];
      SumUpdate(p[..n], i, e);
    }
  }

  lemma PrefixSum(p: seq<nat>, k: nat)
    requires k <= |p|
    ensures Sum(p[..k]) <= Sum(p)
  {
    StartMonotone(p, k, |p|);
    StartEnd(p);
  }

  /** Dropping trailing singletons does not add to the sum. */
  lemma CanonicalSum(z: seq<nat>, k: nat)
    requires |z| >= 2 && k <= |z|
    ensures Sum(Extended(Canonical(z), k)) <= Sum(z)
  {
    var n := ExtendedIsPrefix(z, k);
    PrefixSum(z, n);
  }

  lemma ExtendedIsPrefix(z: seq<nat>, k: nat) returns (n: nat)
    requires |z| >= 2 && k <= |z|
    ensures n <= |z| && Extended(Canonical(z), k) == z[..n]
  {
    var t := CanonicalSplit(z);
    n := |Extended(Canonical(z), k)|;
  }

  /** Every pass along an axis takes at least one from the total. */
  lemma PassShrinks(d: seq<nat>, axis: Option<nat>, a: nat)
    requires IsCanonical(d) && AxisFor(d, axis) == Some(a) && Extent(d, a) > 0
    ensures TotalExtent(Canonical(OutputDims(d, a, Extent(d, a) - 1)), axis) < TotalExtent(d, axis)
  {
    var n, k, e := Extent(d, a), if axis.Some? then a + 1 else 0, Extended(d, a + 1);
    assert e == Extended(d, k);
    SumUpdate(e, a, n - 1);
    CanonicalSum(OutputDims(d, a, n - 1), k);
  }

  // ----- the loop

  /** `step` is a pass, by its values alone; looked into only where `UnsealSetting` is mentioned. */
  ghost predicate IsPass<T(!new)>(step: Tensor<T> -> Tensor<T>, minus: (T, T) -> T, axis: Option<nat>) {
    forall k {:trigger UnsealSetting(k)} :: UnsealSetting(k) ==>
      forall t: Tensor<T> {:trigger Pass(minus, t, axis)} | t.Valid() :: step(t) == Pass(minus, t, axis)
  }

  /**
   So many passes from `src` lead to `goal`, and the extents add up to no more than `budget`; looked
   into only where `Unseal` is mentioned.
   */
  ghost predicate LeadsTo<T>(step: Tensor<T> -> Tensor<T>, src: Tensor<T>, axis: Option<nat>, order: nat, goal: Tensor<T>, budget: nat) {
    forall k {:trigger Unseal(k)} :: Unseal(k) ==>
      src.Valid() && Iterate(step, src, order) == goal && TotalExtent(src.dims, axis) <= budget
  }

  lemma LeadsFromValid<T>(step: Tensor<T> -> Tensor<T>, src: Tensor<T>, axis: Option<nat>, order: nat, goal: Tensor<T>, budget: nat)
    requires LeadsTo(step, src, axis, order, goal, budget)
    ensures src.Valid()
  {
    assert Unseal(0);
  }

  /** An axis without positions: no further pass changes anything. */
  lemma AlreadyThere<T(!new)>(step: Tensor<T> -> Tensor<T>, minus: (T, T) -> T, src: Tensor<T>, axis: Option<nat>, a: nat,
                              order: nat, goal: Tensor<T>, budget: nat)
    requires IsPass(step, minus, axis) && LeadsTo(step, src, axis, order, goal, budget)
    requires AxisFor(src.dims, axis) == Some(a) && Extent(src.dims, a) == 0
    ensures src == goal
  {
    assert Unseal(0) && UnsealSetting(0);
    assert Pass(minus, src, axis) == src;
    IterateStop(step, src, order);
  }

  /** No axis left: the next pass empties the array, and it stays empty. */
  lemma Collapses<T(!new)>(step: Tensor<T> -> Tensor<T>, minus: (T, T) -> T, src: Tensor<T>, axis: Option<nat>,
                           order: nat, goal: Tensor<T>, budget: nat)
    requires IsPass(step, minus, axis) && LeadsTo(step, src, axis, order, goal, budget)
    requires AxisFor(src.dims, axis) == None && order > 0
    ensures Nothing<T>() == goal
  {
    assert Unseal(0) && UnsealSetting(0);
    assert Pass(minus, src, axis) == Nothing<T>();
    NothingStays(minus);
    IterateStop(step, Nothing<T>(), order - 1);
  }

  lemma NoPassLeft<T>(step: Tensor<T> -> Tensor<T>, src: Tensor<T>, axis: Option<nat>, goal: Tensor<T>, budget: nat)
    requires LeadsTo(step, src, axis, 0, goal, budget)
    ensures src == goal
  {
    assert Unseal(0);
  }

  lemma StepIsDifference<T(!new)>(step: Tensor<T> -> Tensor<T>, minus: (T, T) -> T, src: Tensor<T>, axis: Option<nat>, a: nat)
    requires IsPass(step, minus, axis) && src.Valid() && AxisFor(src.dims, axis) == Some(a) && Extent(src.dims, a) > 0
    ensures step(src) == Difference(minus, src, a)
  {
    assert UnsealSetting(0);
    assert Pass(minus, src, axis) == Difference(minus, src, a);
  }

  /** After a pass, one pass fewer leads to the same goal, from extents that add up to less. */
  lemma OnePass<T>(step: Tensor<T> -> Tensor<T>, src: Tensor<T>, next: Tensor<T>, axis: Option<nat>, order: nat, goal: Tensor<T>, budget: nat)
    requires LeadsTo(step, src, axis, order, goal, budget) && order > 0 && next == step(src) && next.Valid()
    requires TotalExtent(next.dims, axis) < TotalExtent(src.dims, axis)
    ensures budget > 0 && LeadsTo(step, next, axis, order - 1, goal, budget - 1)
  {
    assert Unseal(0);
  }

  method MakePass<T(!new)>(minus: (T, T) -> T, src: Tensor<T>, ghost axis: Option<nat>, a: nat)
    returns (r: Tensor<T>)
    requires src.Valid() && AxisFor(src.dims, axis) == Some(a) && Extent(src.dims, a) > 0
    ensures r == Difference(minus, src, a) && r.Valid() && TotalExtent(r.dims, axis) < TotalExtent(src.dims, axis)
    ensures Extent(r.dims, a) == Extent(src.dims, a) - 1
  {
    PassShrinks(src.dims, axis, a);
    OneFewer(src.dims, a);
    r := DifferenceOnce(minus, src, a);
  }

  lemma OneFewer(d: seq<nat>, axis: nat)
    requires Extent(d, axis) > 0
    ensures Extent(Canonical(OutputDims(d, axis, Extent(d, axis) - 1)), axis) == Extent(d, axis) - 1
  {
    CanonicalIsCanonical(OutputDims(d, axis, Extent(d, axis) - 1));
  }

  /** A pass that is made because there is an axis to make it along. */
  method AdvancePass<T(!new)>(ghost step: Tensor<T> -> Tensor<T>, minus: (T, T) -> T, src: Tensor<T>, ghost axis: Option<nat>, a: nat,
                              ghost order: nat, ghost goal: Tensor<T>, ghost budget: nat)
    returns (r: Tensor<T>)
    requires IsPass(step, minus, axis) && LeadsTo(step, src, axis, order, goal, budget) && order > 0
    requires AxisFor(src.dims, axis) == Some(a) && Extent(src.dims, a) > 0
    ensures budget > 0 && LeadsTo(step, r, axis, order - 1, goal, budget - 1) && Extent(r.dims, a) == Extent(src.dims, a) - 1
    ensures r == step(src)
  {
    LeadsFromValid(step, src, axis, order, goal, budget);
    StepIsDifference(step, minus, src, axis, a);
    r := MakePass(minus, src, axis, a);
    OnePass(step, src, r, axis, order, goal, budget);
  }

  /**
   `r` is what so many passes make of `src`, each of which took a difference; looked into only where
   `Unseal` is mentioned.
   */
  ghost predicate ComesFrom<T>(step: Tensor<T> -> Tensor<T>, src: Tensor<T>, axis: Option<nat>, passes: nat, r: Tensor<T>) {
    forall k {:trigger Unseal(k)} :: Unseal(k) ==>
      && r == Iterate(step, src, passes)
      && forall j: nat | j < passes :: CanShrink(Iterate(step, src, j).dims, axis)
  }

  lemma ComesAtStart<T>(step: Tensor<T> -> Tensor<T>, src: Tensor<T>, axis: Option<nat>)
    ensures ComesFrom(step, src, axis, 0, src)
  {
  }

  lemma ComesFurther<T>(step: Tensor<T> -> Tensor<T>, src: Tensor<T>, axis: Option<nat>, passes: nat, r: Tensor<T>, next: Tensor<T>)
    requires ComesFrom(step, src, axis, passes, r) && CanShrink(r.dims, axis) && next == step(r)
    ensures ComesFrom(step, src, axis, passes + 1, next)
  {
    assert Unseal(0);
    IterateNext(step, src, passes);
  }

  /** One turn of the loop: a pass, unless the result is already known, and whether it is known afterwards. */
  method DifferenceTurn<T(!new)>(ghost step: Tensor<T> -> Tensor<T>, minus: (T, T) -> T, current: Tensor<T>, axis: Option<nat>,
                                 ghost remaining: nat, ghost goal: Tensor<T>, ghost budget: nat)
    returns (r: Tensor<T>, done: bool, ghost passed: nat)
    requires IsPass(step, minus, axis) && LeadsTo(step, current, axis, remaining, goal, budget) && remaining > 0
    ensures passed == (if CanShrink(current.dims, axis) then 1 else 0) && passed <= budget
    ensures passed == 1 ==> r == step(current)
    ensures done ==> r == goal && (passed == 1 ==> !CanShrink(r.dims, axis))
    ensures !done ==> passed == 1 && LeadsTo(step, r, axis, remaining - 1, goal, budget - 1)
  {
    var a := AxisFor(current.dims, axis);
    if a.None? {
      Collapses(step, minus, current, axis, remaining, goal, budget);
      return Nothing(), true, 0;
    }
    if Extent(current.dims, a.value) == 0 {
      AlreadyThere(step, minus, current, axis, a.value, remaining, goal, budget);
      return current, true, 0;
    }
    r := AdvancePass(step, minus, current, axis, a.value, remaining, goal, budget);
    passed := 1;
    done := axis.Some? && Extent(r.dims, a.value) == 0;
    if done {
      AlreadyThere(step, minus, r, axis, a.value, remaining - 1, goal, budget - 1);
    }
  }

  /** So many passes have been made, and the rest leads to the goal. */
  ghost predicate Midway<T>(step: Tensor<T> -> Tensor<T>, input: Tensor<T>, axis: Option<nat>, goal: Tensor<T>,
                            passes: nat, left: nat, budget: nat, r: Tensor<T>) {
    LeadsTo(step, r, axis, left, goal, budget) && ComesFrom(step, input, axis, passes, r)
  }

  lemma MidwayNext<T>(step: Tensor<T> -> Tensor<T>, input: Tensor<T>, axis: Option<nat>, goal: Tensor<T>,
                      passes: nat, left: nat, budget: nat, r: Tensor<T>, next: Tensor<T>)
    requires Midway(step, input, axis, goal, passes, left, budget, r) && left > 0 && budget > 0
    requires CanShrink(r.dims, axis) && next == step(r)
    ensures ComesFrom(step, input, axis, passes + 1, next)
    ensures LeadsTo(step, next, axis, left - 1, goal, budget - 1) ==>
              Midway(step, input, axis, goal, passes + 1, left - 1, budget - 1, next)
  {
    ComesFurther(step, input, axis, passes, r, next);
  }

  method DifferenceToward<T(!new)>(ghost step: Tensor<T> -> Tensor<T>, minus: (T, T) -> T, input: Tensor<T>, order: nat,
                                   axis: Option<nat>, ghost goal: Tensor<T>, ghost total: nat)
    returns (r: Tensor<T>, ghost passes: nat, ghost last: Tensor<T>)
    requires IsPass(step, minus, axis) && LeadsTo(step, input, axis, order, goal, total)
    ensures r == goal && passes <= order && passes <= total
    ensures ComesFrom(step, input, axis, passes, last) && (passes < order ==> !CanShrink(last.dims, axis))
  {
    r, passes, last := input, 0, input;
    ComesAtStart(step, input, axis);
    var remaining := order;
    ghost var budget := total;
    while remaining > 0
      invariant passes + remaining == order && passes + budget == total
      invariant Midway(step, input, axis, goal, passes, remaining, budget, r)
    {
      last := r;
      ghost var passed;
      var done;
      r, done, passed := DifferenceTurn(step, minus, r, axis, remaining, goal, budget);
      if passed == 1 {
        MidwayNext(step, input, axis, goal, passes, remaining, budget, last, r);
        passes, budget, last := passes + 1, budget - 1, r;
      }
      remaining := remaining - 1;
      if done {
        return;
      }
    }
    last := r;
    NoPassLeft(step, r, axis, goal, budget);
  }

  lemma PassAlongIsPass<T(!new)>(minus: (T, T) -> T, axis: Option<nat>)
    ensures IsPass(PassAlong(minus, axis), minus, axis)
  {
  }

  /**
   What one pass makes of an array: differences along the axis or, if none is given, along the first one with
   more or less than one position; the 0-by-0 array if there is none; and the same array if it has no positions.
   */
  ghost predicate IsPassOf<T>(minus: (T, T) -> T, axis: Option<nat>, src: Tensor<T>, r: Tensor<T>) {
    && src.Valid()
    && if axis.None? && forall a: nat :: Extent(src.dims, a) == 1 then r.dims == [0, 0] && r.data == []
       else exists a: nat :: PassesAlong(minus, axis, src, a, r)
  }

  ghost predicate PassesAlong<T>(minus: (T, T) -> T, axis: Option<nat>, src: Tensor<T>, a: nat, r: Tensor<T>)
    requires src.Valid()
  {
    && (if axis.Some? then a == axis.value
        else Extent(src.dims, a) != 1 && forall b: nat | b < a :: Extent(src.dims, b) == 1)
    && if Extent(src.dims, a) == 0 then r == src else HoldsDifferences(minus, src, a, r)
  }

  lemma PassIsPassOf<T>(minus: (T, T) -> T, axis: Option<nat>, src: Tensor<T>)
    requires src.Valid()
    ensures IsPassOf(minus, axis, src, Pass(minus, src, axis))
  {
    var a := AxisFor(src.dims, axis);
    if a.Some? {
      if Extent(src.dims, a.value) > 0 {
        DifferenceHolds(minus, src, a.value);
      }
      assert axis.None? ==> Extent(src.dims, a.value) != 1;
      assert PassesAlong(minus, axis, src, a.value, Pass(minus, src, axis));
    }
  }

  /** Arrays each of which is what a pass makes of the one before. */
  ghost predicate IsTrail<T>(minus: (T, T) -> T, axis: Option<nat>, trail: seq<Tensor<T>>) {
    forall i | 0 <= i < |trail| - 1 :: IsPassOf(minus, axis, trail[i], trail[i + 1])
  }

  /** `r` is reached from `src` by so many passes. */
  ghost predicate ReachedBy<T(!new)>(minus: (T, T) -> T, axis: Option<nat>, src: Tensor<T>, order: nat, r: Tensor<T>) {
    exists trail: seq<Tensor<T>> ::
      IsTrail(minus, axis, trail) && |trail| == order + 1 && trail[0] == src && trail[order] == r
  }

  lemma {:induction false} PassesTrail<T(!new)>(minus: (T, T) -> T, axis: Option<nat>, src: Tensor<T>, order: nat)
    returns (trail: seq<Tensor<T>>)
    requires src.Valid()
    ensures IsTrail(minus, axis, trail) && |trail| == order + 1 && trail[0] == src
    ensures trail[order] == Passes(minus, src, axis, order)
    decreases order
  {
    trail := [src];
    if order > 0 {
      var next := Pass(minus, src, axis);
      var rest := PassesTrail(minus, axis, next, order - 1);
      trail := [src] + rest;
      PassIsPassOf(minus, axis, src);
      forall i | 0 <= i < |trail| - 1 ensures IsPassOf(minus, axis, trail[i], trail[i + 1]) {
        if i > 0 {
          assert IsPassOf(minus, axis, rest[i - 1], rest[i]);
        }
      }
      assert PassAlong(minus, axis)(src) == next;
    }
  }

  /**
   Iterated differences, stopping early when nothing can change any more.  The result is that of all
   passes; those made are the ones with a difference to take, and however large the order, there are no
   more of them than the extents add up to.
   */
  method DifferenceDense<T(!new)>(minus: (T, T) -> T, input: Tensor<T>, order: nat, axis: Option<nat>)
    returns (r: Tensor<T>, ghost passes: nat)
    requires input.Valid()
    ensures r == Passes(minus, input, axis, order) && ReachedBy(minus, axis, input, order, r)
    ensures passes <= order && passes <= TotalExtent(input.dims, axis)
    ensures forall j: nat | j < passes :: CanShrink(Passes(minus, input, axis, j).dims, axis)
    ensures passes < order ==> !CanShrink(Passes(minus, input, axis, passes).dims, axis)
  {
    ghost var goal, total := Passes(minus, input, axis, order), TotalExtent(input.dims, axis);
    PassAlongIsPass(minus, axis);
    ghost var last;
    r, passes, last := DifferenceToward(PassAlong(minus, axis), minus, input, order, axis, goal, total);
    assert Unseal(0);
    ghost var trail := PassesTrail(minus, axis, input, order);
  }

  lemma {:induction false} IterateValid<T(!new)>(step: Tensor<T> -> Tensor<T>, minus: (T, T) -> T, src: Tensor<T>, axis: Option<nat>, k: nat)
    requires IsPass(step, minus, axis) && src.Valid()
    ensures Iterate(step, src, k).Valid()
    decreases k
  {
    if k > 0 {
      assert UnsealSetting(0);
      assert Pass(minus, src, axis).Valid();
      IterateValid(step, minus, step(src), axis, k - 1);
    }
  }

  lemma PassesValid<T(!new)>(minus: (T, T) -> T, src: Tensor<T>, axis: Option<nat>, order: nat)
    requires src.Valid()
    ensures Passes(minus, src, axis, order).Valid()
  {
    PassAlongIsPass(minus, axis);
    IterateValid(PassAlong(minus, axis), minus, src, axis, order);
  }

  method DifferenceResult<T(!new)>(minus: (T, T) -> T, input: Tensor<T>, order: nat, axis: Option<nat>) returns (r: Tensor<T>)
    requires input.Valid()
    ensures r.Valid() && r == Passes(minus, input, axis, order)
  {
    PassesValid(minus, input, axis, order);
    ghost var passes;
    r, passes := DifferenceDense(minus, input, order, axis);
  }

  /** The loop run for one order and again for another gives what it gives run once for their sum. */
  method DifferenceTwice<T(!new)>(minus: (T, T) -> T, input: Tensor<T>, first: nat, second: nat, axis: Option<nat>)
    returns (nested: Tensor<T>, flat: Tensor<T>)
    requires input.Valid()
    ensures nested == flat == Passes(minus, input, axis, first + second)
  {
    nested := DifferenceResult(minus, input, first, axis);
    nested := DifferenceResult(minus, nested, second, axis);
    flat := DifferenceResult(minus, input, first + second, axis);
    OrdersAdd(minus, input, axis, first, second);
  }

  // ----- orders past the total of the extents

  lemma LeadsOn<T>(step: Tensor<T> -> Tensor<T>, src: Tensor<T>, axis: Option<nat>, order: nat)
    requires src.Valid()
    ensures LeadsTo(step, src, axis, order, Iterate(step, src, order), TotalExtent(src.dims, axis))
  {
  }

  /** Where no difference can be taken, the outcome does not depend on the order, except that the collapse takes one pass. */
  lemma StaysSettled<T(!new)>(step: Tensor<T> -> Tensor<T>, minus: (T, T) -> T, src: Tensor<T>, axis: Option<nat>, order: nat)
    requires IsPass(step, minus, axis) && src.Valid() && !CanShrink(src.dims, axis) && order >= TotalExtent(src.dims, axis)
    ensures Iterate(step, src, order) == if AxisFor(src.dims, axis).None? then Nothing() else src
  {
    LeadsOn(step, src, axis, order);
    var a := AxisFor(src.dims, axis);
    if a.None? {
      OnesAddUp(src.dims);
      Collapses(step, minus, src, axis, order, Iterate(step, src, order), TotalExtent(src.dims, axis));
    } else {
      AlreadyThere(step, minus, src, axis, a.value, order, Iterate(step, src, order), TotalExtent(src.dims, axis));
    }
  }

  lemma ShrunkBy<T(!new)>(step: Tensor<T> -> Tensor<T>, minus: (T, T) -> T, src: Tensor<T>, axis: Option<nat>)
    requires IsPass(step, minus, axis) && src.Valid() && CanShrink(src.dims, axis)
    ensures step(src).Valid() && TotalExtent(step(src).dims, axis) < TotalExtent(src.dims, axis)
  {
    var a := AxisFor(src.dims, axis).value;
    PassShrinks(src.dims, axis, a);
    StepIsDifference(step, minus, src, axis, a);
  }

  lemma {:induction false} SettlesBy<T(!new)>(step: Tensor<T> -> Tensor<T>, minus: (T, T) -> T, src: Tensor<T>, axis: Option<nat>,
                                              k: nat, order: nat)
    requires IsPass(step, minus, axis) && src.Valid() && TotalExtent(src.dims, axis) <= k <= order
    ensures Iterate(step, src, order) == Iterate(step, src, k)
    decreases k
  {
    if CanShrink(src.dims, axis) {
      ShrunkBy(step, minus, src, axis);
      SettlesBy(step, minus, step(src), axis, k - 1, order - 1);
    } else {
      StaysSettled(step, minus, src, axis, order);
      StaysSettled(step, minus, src, axis, k);
    }
  }

  lemma OnesAddUp(d: seq<nat>)
    requires IsCanonical(d) && FirstAxis(d).None?
    ensures TotalExtent(d, None) >= 2
  {
    assert Extended(d, 0) == d;
    PrefixSum(d, 2);
    assert d[..2][..1] == d[..1] && d[..1][..0] == [];
    assert Sum(d[..1]) == d[0];
    assert Sum(d[..2]) == Sum(d[..1]) + d[1];
  }

  /** Past the total of the extents a larger order changes nothing. */
  lemma OrdersSettle<T(!new)>(minus: (T, T) -> T, src: Tensor<T>, axis: Option<nat>, order: nat)
    requires src.Valid() && order >= TotalExtent(src.dims, axis)
    ensures Passes(minus, src, axis, order) == Passes(minus, src, axis, TotalExtent(src.dims, axis))
  {
    PassAlongIsPass(minus, axis);
    SettlesBy(PassAlong(minus, axis), minus, src, axis, TotalExtent(src.dims, axis), order);
  }

  // ----- along an explicit axis

  /** Each order takes one position until none is left. */
  lemma ExtentAfter<T(!new)>(minus: (T, T) -> T, src: Tensor<T>, axis: nat, order: nat)
    requires src.Valid()
    ensures Extent(Passes(minus, src, Some(axis), order).dims, axis)
            == if Extent(src.dims, axis) < order then 0 else Extent(src.dims, axis) - order
  {
    PassAlongIsPass(minus, Some(axis));
    ExtentOfGoal(PassAlong(minus, Some(axis)), minus, src, axis, order, Passes(minus, src, Some(axis), order),
                 TotalExtent(src.dims, Some(axis)));
  }

  lemma {:induction false} ExtentOfGoal<T(!new)>(step: Tensor<T> -> Tensor<T>, minus: (T, T) -> T, src: Tensor<T>, axis: nat,
                                                 order: nat, goal: Tensor<T>, budget: nat)
    requires IsPass(step, minus, Some(axis)) && LeadsTo(step, src, Some(axis), order, goal, budget)
    ensures Extent(goal.dims, axis) == if Extent(src.dims, axis) < order then 0 else Extent(src.dims, axis) - order
    decreases order
  {
    if order == 0 {
      NoPassLeft(step, src, Some(axis), goal, budget);
    } else if Extent(src.dims, axis) == 0 {
      AlreadyThere(step, minus, src, Some(axis), axis, order, goal, budget);
    } else {
      var next := NextPass(step, minus, src, axis, order, goal, budget);
      ExtentOfGoal(step, minus, next, axis, order - 1, goal, budget - 1);
    }
  }

  lemma NextPass<T(!new)>(step: Tensor<T> -> Tensor<T>, minus: (T, T) -> T, src: Tensor<T>, axis: nat, order: nat, goal: Tensor<T>,
                          budget: nat) returns (next: Tensor<T>)
    requires IsPass(step, minus, Some(axis)) && LeadsTo(step, src, Some(axis), order, goal, budget)
    requires order > 0 && Extent(src.dims, axis) > 0
    ensures budget > 0 && LeadsTo(step, next, Some(axis), order - 1, goal, budget - 1)
    ensures Extent(next.dims, axis) == Extent(src.dims, axis) - 1
  {
    LeadsFromValid(step, src, Some(axis), order, goal, budget);
    StepIsDifference(step, minus, src, Some(axis), axis);
    next := Difference(minus, src, axis);
    PassShrinks(src.dims, Some(axis), axis);
    OneFewer(src.dims, axis);
    OnePass(step, src, next, Some(axis), order, goal, budget);
  }
}
