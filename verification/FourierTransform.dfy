/**
 Transforming an array along several axes: the loop over the axes with its three ways of treating an
 inverse transform, and when they give the same.
 */
module FourierTransform {
  import opened MixedRadix
  import opened Shapes
  import opened Lines
  import opened ComplexNumbers
  import opened AxisTransform
  import opened ConjugateSymmetry
  import opened Fibres
  import opened InverseReality
  import opened TransformSteps

  /** How an inverse transform is made real: if the data pass the test, always after enforcing symmetry, or never. */
  datatype Reality = Automatic | Symmetric | Nonsymmetric

  /** What becomes of one line; a line of one element or none is left alone. */
  function LineTransform(f: seq<Complex> -> seq<Complex>, inverse: bool): seq<Complex> -> seq<Complex> {
    (line: seq<Complex>) => if |line| <= 1 then line else TransformedLine(f, inverse, line)
  }

  lemma LineTransformKeeps(f: seq<Complex> -> seq<Complex>, inverse: bool)
    requires KeepsLengths(f)
    ensures KeepsLengths(LineTransform(f, inverse))
  {
    forall n: nat ensures KeepsLength(LineTransform(f, inverse), n) {
      assert KeepsLength(f, n);
    }
  }

  // ----- the laws of the line transform

  lemma ScaledInjective(a: seq<Complex>, b: seq<Complex>, scale: real)
    requires Scaled(a, scale) == Scaled(b, scale) && scale != 0.0
    ensures a == b
  {
    assert |a| == |Scaled(a, scale)| == |b|;
    forall i | 0 <= i < |a| ensures a[i] == b[i] {
      assert a[i].Times(scale) == Scaled(a, scale)[i] == b[i].Times(scale);
      Cancel(a[i].re, b[i].re, scale);
      Cancel(a[i].im, b[i].im, scale);
    }
  }

  lemma Cancel(x: real, y: real, scale: real)
    requires x * scale == y * scale && scale != 0.0
    ensures x == y
  {
  }

  lemma ScaledConjugate(line: seq<Complex>, scale: real)
    ensures Scaled(Conjugated(line), scale) == Conjugated(Scaled(line, scale))
  {
    forall j | 0 <= j < |line| ensures Scaled(Conjugated(line), scale)[j] == Conjugated(Scaled(line, scale))[j] {
      assert (-line[j].im) * scale == -(line[j].im * scale);
    }
  }

  lemma InverseLength(n: nat)
    requires n > 0
    ensures 1.0 / n as real != 0.0
  {
  }

  /** The loop divides by the length, and leaves short lines alone: both keep the laws. */
  lemma LineTransformLawful(f: seq<Complex> -> seq<Complex>)
    requires Lawful(f)
    ensures Lawful(LineTransform(f, true))
  {
    var g := LineTransform(f, true);
    LineTransformKeeps(f, true);
    forall a: seq<Complex>, b: seq<Complex> | |a| == |b| && g(a) == g(b) ensures a == b {
      if |a| > 1 {
        InverseLength(|a|);
        ScaledInjective(f(a), f(b), 1.0 / |a| as real);
      }
    }
    forall line: seq<Complex> ensures g(Opposed(line)) == Conjugated(g(line)) {
      if |line| > 1 {
        assert f(Opposed(line)) == Conjugated(f(line));
        ScaledConjugate(f(line), 1.0 / |line| as real);
      }
    }
  }

  /** Sums and turned differences of opposite elements: a line function that obeys the laws. */
  function Paired(line: seq<Complex>): (r: seq<Complex>)
    ensures |r| == |line|
  {
    seq(|line|, j requires 0 <= j < |line| => PairedAt(line[j], line[Opposite(|line|, j)], j, Opposite(|line|, j)))
  }

  function PairedAt(here: Complex, there: Complex, j: nat, k: nat): Complex {
    if j == k then here
    else if j < k then Complex(here.re + there.re, here.im + there.im)
    else Complex(here.im - there.im, there.re - here.re)
  }

  lemma PairedPair(a: seq<Complex>, b: seq<Complex>, j: nat)
    requires |a| == |b| && Paired(a) == Paired(b) && j < |a|
    ensures a[j] == b[j]
  {
    var k := Opposite(|a|, j);
    OppositeCases(|a|, j);
    assert Paired(a)[j] == Paired(b)[j] && Paired(a)[k] == Paired(b)[k];
  }

  /** The laws can be met, on lines of every length. */
  lemma LawsCanBeMet()
    ensures Lawful(Paired)
  {
    forall a: seq<Complex>, b: seq<Complex> | |a| == |b| && Paired(a) == Paired(b) ensures a == b {
      forall j | 0 <= j < |a| ensures a[j] == b[j] {
        PairedPair(a, b, j);
      }
    }
    forall line: seq<Complex> ensures Paired(Opposed(line)) == Conjugated(Paired(line)) {
      forall j: nat | j < |line| ensures Paired(Opposed(line))[j] == Conjugated(Paired(line))[j] {
        OppositeCases(|line|, j);
      }
    }
  }

  // ----- the loop over the axes

  lemma ShortLines(f: seq<Complex> -> seq<Complex>, inverse: bool, v: seq<Complex>, d: seq<nat>, axis: nat)
    requires KeepsLengths(f) && |v| == Product(d) && (Extent(d, axis) <= 1 || v == [])
    requires KeepsLength(LineTransform(f, inverse), Extent(d, axis))
    ensures Mapped(LineTransform(f, inverse), v, d, axis) == v
  {
    if v != [] {
      MappedUnique(LineTransform(f, inverse), v, v, d, axis);
    }
  }

  lemma TransformsIsMapped(f: seq<Complex> -> seq<Complex>, inverse: bool, v: seq<Complex>, w: seq<Complex>, d: seq<nat>, axis: nat)
    requires |v| == Product(d) && Extent(d, axis) > 1 && KeepsLength(LineTransform(f, inverse), Extent(d, axis))
    requires TransformsLines(f, inverse, v, w, Stride(d, axis), Extent(d, axis), OuterCount(d, axis))
    ensures w == Mapped(LineTransform(f, inverse), v, d, axis)
  {
    MapsLinesIsMapped(LineTransform(f, inverse), v, w, d, axis);
  }

  method EnforceStep(values: array<Complex>, dims: seq<nat>, axis: nat) returns (ok: bool)
    requires values.Length == Product(dims)
    modifies values
    ensures ok && values[..] == Enforced(old(values[..]), dims, axis)
  {
    ok := EnforceAxisSymmetry(values, dims, axis);
    if values.Length > 0 {
      WholeOfProduct(values.Length, dims, axis);
      MapsLinesIsMapped(EnforcedLine, old(values[..]), values[..], dims, axis);
    }
  }

  method TransformStep(values: array<Complex>, dims: seq<nat>, axis: nat, inverse: bool, f: seq<Complex> -> seq<Complex>)
    returns (ok: bool)
    requires values.Length == Product(dims) && KeepsLengths(f)
    modifies values
    ensures KeepsLengths(LineTransform(f, inverse))
    ensures ok && values[..] == Mapped(LineTransform(f, inverse), old(values[..]), dims, axis)
  {
    LineTransformKeeps(f, inverse);
    assert KeepsLength(f, Extent(dims, axis)) && KeepsLength(LineTransform(f, inverse), Extent(dims, axis));
    ok := TransformAxis(values, dims, axis, inverse, f);
    if Extent(dims, axis) <= 1 || values.Length == 0 {
      ShortLines(f, inverse, old(values[..]), dims, axis);
    } else {
      WholeOfProduct(values.Length, dims, axis);
      TransformsIsMapped(f, inverse, old(values[..]), values[..], dims, axis);
    }
  }

  /** The transforms along the axes, with or without enforcing symmetry before each. */
  ghost function Chain(f: seq<Complex> -> seq<Complex>, inverse: bool, enforce: bool, v: seq<Complex>, d: seq<nat>, axes: seq<nat>)
    : (w: seq<Complex>)
    requires KeepsLengths(f) && |v| == Product(d)
    ensures |w| == |v|
  {
    LineTransformKeeps(f, inverse);
    var g := LineTransform(f, inverse);
    if enforce then EnforcedTransform(g, v, d, axes) else Plain(g, v, d, axes)
  }

  lemma ChainNext(f: seq<Complex> -> seq<Complex>, inverse: bool, enforce: bool, v: seq<Complex>, d: seq<nat>, axes: seq<nat>, k: nat)
    requires KeepsLengths(f) && |v| == Product(d) && k < |axes|
    ensures KeepsLengths(LineTransform(f, inverse))
    ensures var z := Chain(f, inverse, enforce, v, d, axes[..k]);
            Chain(f, inverse, enforce, v, d, axes[..k + 1])
            == Mapped(LineTransform(f, inverse), if enforce then Enforced(z, d, axes[k]) else z, d, axes[k])
  {
    LineTransformKeeps(f, inverse);
    assert axes[..k + 1][..k] == axes[..k];
  }

  method TransformAxes(values: array<Complex>, dims: seq<nat>, axes: seq<nat>, inverse: bool, enforce: bool,
                       f: seq<Complex> -> seq<Complex>) returns (ok: bool)
    requires values.Length == Product(dims) && KeepsLengths(f)
    modifies values
    ensures ok && values[..] == Chain(f, inverse, enforce, old(values[..]), dims, axes)
  {
    LineTransformKeeps(f, inverse);
    ghost var before := values[..];
    for k := 0 to |axes|
      invariant values[..] == Chain(f, inverse, enforce, before, dims, axes[..k])
    {
      ChainNext(f, inverse, enforce, before, dims, axes, k);
      if enforce {
        var enforced := EnforceStep(values, dims, axes[k]);
        if !enforced {
          return false;
        }
      }
      var transformed := TransformStep(values, dims, axes[k], inverse, f);
      if !transformed {
        return false;
      }
    }
    assert axes[..|axes|] == axes;
    ok := true;
  }

  function RealParts(v: seq<Complex>): (r: seq<Complex>)
    ensures |r| == |v|
  {
    seq(|v|, o requires 0 <= o < |v| => v[o].RealPart())
  }

  method ClearImaginary(values: array<Complex>)
    modifies values
    ensures values[..] == RealParts(old(values[..]))
  {
    for o := 0 to values.Length
      invariant forall i | 0 <= i < values.Length :: values[i] == if i < o then old(values[i]).RealPart() else old(values[i])
    {
      values[o] := values[o].RealPart();
    }
  }

  ghost function Outcome(f: seq<Complex> -> seq<Complex>, inverse: bool, reality: Reality, v: seq<Complex>, d: seq<nat>, axes: seq<nat>)
    : seq<Complex>
    requires KeepsLengths(f) && |v| == Product(d)
  {
    var w := Chain(f, inverse, inverse && reality.Symmetric?, v, d, axes);
    if inverse && (reality.Symmetric? || (reality.Automatic? && LooksSymmetric(v, d, axes))) then RealParts(w) else w
  }

  // ----- step by step

  lemma LineStepped(f: seq<Complex> -> seq<Complex>, inverse: bool, enforce: bool, line: seq<Complex>)
    requires KeepsLengths(f)
    ensures LineStep(f, inverse, enforce, line, LineTransform(f, inverse)(if enforce then EnforcedLine(line) else line))
  {
    var kept := if enforce then EnforcedLine(line) else line;
    EnforcedLineIs(line);
    if |kept| > 1 {
      TransformedBecomes(f, inverse, kept);
    }
    assert StepBy(f, inverse, enforce, line, kept, LineTransform(f, inverse)(kept));
  }

  lemma AxisStepped(f: seq<Complex> -> seq<Complex>, inverse: bool, enforce: bool, v: seq<Complex>, w: seq<Complex>, d: seq<nat>, axis: nat)
    requires KeepsLengths(f) && KeepsLengths(LineTransform(f, inverse)) && |v| == Product(d)
    requires w == Mapped(LineTransform(f, inverse), if enforce then Enforced(v, d, axis) else v, d, axis)
    ensures AxisStep(f, inverse, enforce, v, w, d, axis)
  {
    var z := if enforce then Enforced(v, d, axis) else v;
    forall x: seq<nat> | Inside(x, d) ensures LineStep(f, inverse, enforce, Fibre(v, d, axis, x), Fibre(w, d, axis, x)) {
      MappedFibre(LineTransform(f, inverse), z, d, axis, x);
      MappedFibre(EnforcedLine, v, d, axis, x);
      LineStepped(f, inverse, enforce, Fibre(v, d, axis, x));
    }
  }

  lemma {:induction false} ChainTrail(f: seq<Complex> -> seq<Complex>, inverse: bool, enforce: bool, v: seq<Complex>, d: seq<nat>, axes: seq<nat>)
    returns (trail: seq<seq<Complex>>)
    requires KeepsLengths(f) && |v| == Product(d)
    ensures IsTrail(f, inverse, enforce, trail, d, axes) && trail[0] == v
    ensures trail[|axes|] == Chain(f, inverse, enforce, v, d, axes)
    decreases |axes|
  {
    if axes == [] {
      trail := [v];
    } else {
      var n := |axes| - 1;
      var before := ChainTrail(f, inverse, enforce, v, d, axes[..n]);
      ChainNext(f, inverse, enforce, v, d, axes, n);
      assert axes[..n + 1] == axes;
      trail := before + [Chain(f, inverse, enforce, v, d, axes)];
      AxisStepped(f, inverse, enforce, before[n], trail[n + 1], d, axes[n]);
      forall k: nat | k < |axes| ensures AxisStep(f, inverse, enforce, trail[k], trail[k + 1], d, axes[k]) {
        if k < n {
          assert AxisStep(f, inverse, enforce, before[k], before[k + 1], d, axes[..n][k]);
        }
      }
    }
  }

  /**
   What the transform leaves, in terms of the provider: the lines along one axis after the other are transformed,
   with symmetry enforced before each if so requested; and the imaginary parts of an inverse transform are cleared
   if so requested or if the data pass the test.
   */
  ghost predicate IsTransformed(f: seq<Complex> -> seq<Complex>, inverse: bool, reality: Reality, v: seq<Complex>, d: seq<nat>,
                                axes: seq<nat>, w: seq<Complex>)
    requires |v| == Product(d)
  {
    exists trail: seq<seq<Complex>> ::
      && IsTrail(f, inverse, inverse && reality.Symmetric?, trail, d, axes) && trail[0] == v
      && KeepsParts(trail[|axes|], inverse && (reality.Symmetric? || (reality.Automatic? && PassesTest(v, d, axes))), w)
  }

  lemma PartsKept(w: seq<Complex>, cleared: bool)
    ensures KeepsParts(w, cleared, if cleared then RealParts(w) else w)
  {
  }

  lemma OutcomeIsTransformed(f: seq<Complex> -> seq<Complex>, inverse: bool, reality: Reality, v: seq<Complex>, d: seq<nat>, axes: seq<nat>)
    requires KeepsLengths(f) && |v| == Product(d)
    ensures IsTransformed(f, inverse, reality, v, d, axes, Outcome(f, inverse, reality, v, d, axes))
  {
    var trail := ChainTrail(f, inverse, inverse && reality.Symmetric?, v, d, axes);
    TestByCoordinates(v, d, axes);
    PartsKept(trail[|axes|], inverse && (reality.Symmetric? || (reality.Automatic? && LooksSymmetric(v, d, axes))));
  }

  /** The whole transform in place; on an array of the right size no step fails. */
  method Transform(values: array<Complex>, dims: seq<nat>, axes: seq<nat>, inverse: bool, reality: Reality,
                   f: seq<Complex> -> seq<Complex>) returns (ok: bool)
    requires values.Length == Product(dims) && KeepsLengths(f)
    modifies values
    ensures ok && values[..] == Outcome(f, inverse, reality, old(values[..]), dims, axes)
    ensures IsTransformed(f, inverse, reality, old(values[..]), dims, axes, values[..])
  {
    OutcomeIsTransformed(f, inverse, reality, values[..], dims, axes);
    var forceReal := false;
    if inverse && reality.Automatic? {
      forceReal := ConjugateSymmetric(values[..], dims, All(axes), CloseConjugates);
    } else if inverse && reality.Symmetric? {
      forceReal := true;
    }
    ok := TransformAxes(values, dims, axes, inverse, inverse && reality.Symmetric?, f);
    if !ok {
      return;
    }
    if forceReal {
      ClearImaginary(values);
    }
  }

  // ----- the three ways compared

  lemma RealStays(v: seq<Complex>)
    requires IsReal(v)
    ensures RealParts(v) == v
  {
  }

  /**
   What the three ways make of one array.  The plain result is real exactly when the data are symmetric over
   all axes together, and then the automatic result is the plain one.  The `symmetric` result is the plain
   transform of refolded data, and the plain result exactly when the data are symmetric along the first axis
   alone and along the first with each other one.
   */
  lemma Realities(f: seq<Complex> -> seq<Complex>, v: seq<Complex>, d: seq<nat>, axes: seq<nat>)
    requires Lawful(f) && |v| == Product(d) && Distinct(axes) && axes != []
    ensures var plain := Outcome(f, true, Nonsymmetric, v, d, axes);
            var symmetric := Outcome(f, true, Symmetric, v, d, axes);
            && (IsReal(plain) <==> ExactlySymmetric(v, d, All(axes)))
            && (ExactlySymmetric(v, d, All(axes)) ==> Outcome(f, true, Automatic, v, d, axes) == plain)
            && IsReal(symmetric) && symmetric == Outcome(f, true, Nonsymmetric, Refolded(v, d, axes), d, axes)
            && (symmetric == plain <==> FirstWithEach(v, d, axes))
  {
    var g := LineTransform(f, true);
    LineTransformLawful(f);
    RealIffSymmetric(g, v, d, axes);
    EnforcedIsReal(g, v, d, axes);
    RealStays(EnforcedTransform(g, v, d, axes));
    EnforcedIsPlain(g, v, d, axes);
    EnforcementKeeps(g, v, d, axes);
    if ExactlySymmetric(v, d, All(axes)) {
      RealStays(Plain(g, v, d, axes));
    }
  }

  /** The three ways run on one array. */
  method TransformThreeWays(v: seq<Complex>, d: seq<nat>, axes: seq<nat>, f: seq<Complex> -> seq<Complex>)
    returns (plain: seq<Complex>, automatic: seq<Complex>, symmetric: seq<Complex>)
    requires Lawful(f) && |v| == Product(d) && Distinct(axes) && axes != []
    ensures plain == Chain(f, true, false, v, d, axes)
    ensures IsReal(plain) <==> ExactlySymmetric(v, d, All(axes))
    ensures ExactlySymmetric(v, d, All(axes)) ==> automatic == plain
    ensures IsReal(symmetric) && symmetric == Chain(f, true, false, Refolded(v, d, axes), d, axes)
    ensures symmetric == plain <==> FirstWithEach(v, d, axes)
  {
    Realities(f, v, d, axes);
    plain := Run(v, d, axes, Nonsymmetric, f);
    automatic := Run(v, d, axes, Automatic, f);
    symmetric := Run(v, d, axes, Symmetric, f);
  }

  method Run(v: seq<Complex>, d: seq<nat>, axes: seq<nat>, reality: Reality, f: seq<Complex> -> seq<Complex>)
    returns (w: seq<Complex>)
    requires KeepsLengths(f) && |v| == Product(d)
    ensures w == Outcome(f, true, reality, v, d, axes)
  {
    var values := new Complex[|v|](i requires 0 <= i < |v| => v[i]);
    assert values[..] == v;
    var ok := Transform(values, d, axes, true, reality, f);
    w := values[..];
  }

  // ----- an input

  /** Two ones on the diagonal of a 3-by-3 array, opposite to each other. */
  function Diagonal(): seq<Complex> {
    var zero, one := Complex(0.0, 0.0), Complex(1.0, 0.0);
    [zero, zero, zero, zero, one, zero, zero, zero, one]
  }

  lemma DiagonalAt(v: seq<Complex>, d: seq<nat>, x: seq<nat>)
    requires v == Diagonal() && d == [3, 3] && |v| == Product(d) && Inside(x, d)
    ensures Elem(v, d, x) == if x[0] == x[1] && x[0] > 0 then Complex(1.0, 0.0) else Complex(0.0, 0.0)
  {
    assert x == [x[0], x[1]] && x[0] < d[0] && x[1] < d[1];
    Encode2(x[0], x[1], 3, 3);
    assert Encode(x, d) == x[0] + 3 * x[1];
  }

  lemma DiagonalMirrored(v: seq<Complex>, d: seq<nat>, x: seq<nat>)
    requires v == Diagonal() && d == [3, 3] && |v| == Product(d) && Inside(x, d)
    ensures Elem(v, d, x) == Mirrored(v, d, {0, 1}, x).Conjugate()
  {
    MirrorInside(x, d, {0, 1});
    var y := Mirror(x, d, {0, 1});
    assert y[0] == Opposite(3, x[0]) && y[1] == Opposite(3, x[1]);
    OppositeCases(3, x[0]);
    OppositeCases(3, x[1]);
    DiagonalAt(v, d, x);
    DiagonalAt(v, d, y);
  }

  lemma DiagonalNotAlong(v: seq<Complex>, d: seq<nat>, x: seq<nat>)
    requires v == Diagonal() && d == [3, 3] && |v| == Product(d) && x == [1, 1]
    ensures Inside(x, d) && Elem(v, d, x) != Mirrored(v, d, {0}, x).Conjugate()
  {
    MirrorInside(x, d, {0});
    assert Mirror(x, d, {0}) == [2, 1];
    DiagonalAt(v, d, x);
    DiagonalAt(v, d, [2, 1]);
  }

  lemma DiagonalSymmetry(v: seq<Complex>, d: seq<nat>)
    requires v == Diagonal() && d == [3, 3] && |v| == Product(d)
    ensures ExactlySymmetric(v, d, {0, 1}) && !ExactlySymmetric(v, d, {0})
  {
    ExactByCoordinates(v, d, {0, 1});
    ExactByCoordinates(v, d, {0});
    forall x: seq<nat> | Inside(x, d) ensures Elem(v, d, x) == Mirrored(v, d, {0, 1}, x).Conjugate() {
      DiagonalMirrored(v, d, x);
    }
    DiagonalNotAlong(v, d, [1, 1]);
  }

  /** The transform of symmetric data over two axes, which is real, is changed by the `symmetric` option. */
  method SymmetricDiffers(f: seq<Complex> -> seq<Complex>)
    returns (plain: seq<Complex>, automatic: seq<Complex>, symmetric: seq<Complex>)
    requires Lawful(f)
    ensures ExactlySymmetric(Diagonal(), [3, 3], {0, 1}) && |Diagonal()| == Product([3, 3])
    ensures plain == Chain(f, true, false, Diagonal(), [3, 3], [0, 1])
    ensures IsReal(plain) && automatic == plain && symmetric != plain
  {
    var v, d, axes := Diagonal(), [3, 3], [0, 1];
    Encode2(0, 0, 3, 3);
    DiagonalSymmetry(v, d);
    assert All(axes) == {0, 1};
    plain, automatic, symmetric := TransformThreeWays(v, d, axes, f);
    assert {axes[0], axes[0]} == {0};
  }
}
