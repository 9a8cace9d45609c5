/**
 What a transform over several axes does, step by step: what becomes of each line along each axis, which data
 count as symmetric, and which parts of the result are kept.
 */
module TransformSteps {
  import opened MixedRadix
  import opened Shapes
  import opened Coordinates
  import opened Lines
  import opened ComplexNumbers
  import opened AxisTransform
  import opened ConjugateSymmetry
  import opened Fibres
  import opened InverseReality

  // ----- one line

  /**
   The first half of a line, with its conjugate mirror image for the second half and without the imaginary parts of
   the elements that are opposite to themselves.
   */
  ghost predicate IsEnforced(line: seq<Complex>, after: seq<Complex>) {
    |after| == |line| && forall j: nat | 2 * j <= |line| && j < |line| :: EnforcedAt(line, after, j)
  }

  ghost predicate EnforcedAt(line: seq<Complex>, after: seq<Complex>, j: nat)
    requires |after| == |line| && 2 * j <= |line| && j < |line|
  {
    && after[j].re == line[j].re
    && if j == 0 || 2 * j == |line| then after[j].im == 0.0
       else after[j].im == line[j].im && after[|line| - j].re == line[j].re && after[|line| - j].im == -line[j].im
  }

  lemma EnforcedLineIs(line: seq<Complex>)
    ensures IsEnforced(line, EnforcedLine(line))
  {
    forall j: nat | 2 * j <= |line| && j < |line| ensures EnforcedAt(line, EnforcedLine(line), j) {
    }
  }

  /** What becomes of one line along an axis; a line of one element or none is not transformed. */
  ghost predicate LineStep(f: seq<Complex> -> seq<Complex>, inverse: bool, enforce: bool, line: seq<Complex>, after: seq<Complex>) {
    exists kept: seq<Complex> :: StepBy(f, inverse, enforce, line, kept, after)
  }

  ghost predicate StepBy(f: seq<Complex> -> seq<Complex>, inverse: bool, enforce: bool, line: seq<Complex>, kept: seq<Complex>,
                         after: seq<Complex>) {
    && (if enforce then IsEnforced(line, kept) else kept == line)
    && if |line| <= 1 then after == kept else Becomes(f, inverse, kept, after)
  }

  // ----- the axes

  ghost predicate AxisStep(f: seq<Complex> -> seq<Complex>, inverse: bool, enforce: bool, v: seq<Complex>, w: seq<Complex>,
                           d: seq<nat>, axis: nat) {
    && |v| == Product(d) == |w|
    && forall x: seq<nat> | Inside(x, d) :: LineStep(f, inverse, enforce, Fibre(v, d, axis, x), Fibre(w, d, axis, x))
  }

  /** Arrays each of which is the one before with its lines along the next axis transformed. */
  ghost predicate IsTrail(f: seq<Complex> -> seq<Complex>, inverse: bool, enforce: bool, trail: seq<seq<Complex>>, d: seq<nat>,
                          axes: seq<nat>) {
    && |trail| == |axes| + 1
    && forall k: nat | k < |axes| :: AxisStep(f, inverse, enforce, trail[k], trail[k + 1], d, axes[k])
  }

  // ----- symmetric data

  /** Opposite to each other along the axes and at the same position along the others. */
  ghost predicate AreOpposite(x: seq<nat>, y: seq<nat>, d: seq<nat>, axes: seq<nat>) {
    && Inside(x, d) && Inside(y, d)
    && forall a: nat | a < |d| :: if a in axes then x[a] + y[a] == 0 || x[a] + y[a] == d[a] else y[a] == x[a]
  }

  /** At most 32 units in the last place of one apart or, for larger numbers, of either of them. */
  ghost predicate Near(x: real, y: real) {
    var gap, tolerance := if x < y then y - x else x - y, 32.0 / 4503599627370496.0;
    gap <= tolerance || gap <= tolerance * x || gap <= tolerance * -x || gap <= tolerance * y || gap <= tolerance * -y
  }

  /** Elements opposite to each other are near to each other's conjugate. */
  ghost predicate PassesTest(v: seq<Complex>, d: seq<nat>, axes: seq<nat>)
    requires |v| == Product(d)
  {
    forall x: seq<nat>, y: seq<nat> | AreOpposite(x, y, d, axes) :: NearConjugates(Elem(v, d, x), Elem(v, d, y))
  }

  ghost predicate NearConjugates(a: Complex, b: Complex) {
    Near(a.re, b.re) && Near(a.im, -b.im)
  }

  lemma CloseIsNear(x: real, y: real)
    ensures CloseReal(x, y) <==> Near(x, y)
  {
    var tolerance := 32.0 / 4503599627370496.0;
    Larger(tolerance, Abs(x), Abs(y));
    Larger(tolerance, Max(Abs(x), Abs(y)), 1.0);
    assert tolerance * -x == -(tolerance * x) && tolerance * -y == -(tolerance * y);
  }

  lemma Larger(tolerance: real, x: real, y: real)
    requires tolerance > 0.0
    ensures tolerance * Max(x, y) == Max(tolerance * x, tolerance * y)
  {
    Grows(tolerance, x, y, y - x);
    Grows(tolerance, y, x, x - y);
  }

  lemma Grows(tolerance: real, x: real, y: real, gap: real)
    requires tolerance > 0.0 && y == x + gap
    ensures gap >= 0.0 ==> tolerance * y >= tolerance * x
  {
    assert tolerance * y == tolerance * x + tolerance * gap;
    if gap >= 0.0 {
      assert tolerance * gap >= 0.0;
    }
  }

  lemma OppositeIsMirror(x: seq<nat>, y: seq<nat>, d: seq<nat>, axes: seq<nat>)
    requires Inside(x, d)
    ensures AreOpposite(x, y, d, axes) <==> y == Mirror(x, d, All(axes))
  {
    var z := Mirror(x, d, All(axes));
    MirrorInside(x, d, All(axes));
    forall a: nat | a < |d| ensures a in axes ==> z[a] == if x[a] == 0 then 0 else d[a] - x[a] {
      OppositeCases(d[a], x[a]);
    }
    if AreOpposite(x, y, d, axes) {
      forall a: nat | a < |d| ensures y[a] == z[a] {
      }
    }
  }

  /** The data pass the test as it is made, offset by offset. */
  ghost predicate LooksSymmetric(v: seq<Complex>, d: seq<nat>, axes: seq<nat>) {
    forall o: nat | o < |v| ::
      Reflected(o, d, All(axes)) < |v| && CloseConjugates(v[o], v[Reflected(o, d, All(axes))])
  }

  lemma CloseIsNearConjugate(a: Complex, b: Complex)
    ensures CloseConjugates(a, b) <==> NearConjugates(a, b)
  {
    CloseIsNear(a.re, b.re);
    CloseIsNear(a.im, -b.im);
  }

  lemma PassesAt(v: seq<Complex>, d: seq<nat>, axes: seq<nat>, o: nat)
    requires |v| == Product(d) && PassesTest(v, d, axes) && o < |v|
    ensures Reflected(o, d, All(axes)) < |v| && CloseConjugates(v[o], v[Reflected(o, d, All(axes))])
  {
    var x := Decode(o, d);
    var y := Mirror(x, d, All(axes));
    EncodeDecode(o, d);
    ReflectedInBounds(o, d, All(axes));
    OppositeIsMirror(x, y, d, axes);
    assert NearConjugates(Elem(v, d, x), Elem(v, d, y));
    CloseIsNearConjugate(v[o], v[Reflected(o, d, All(axes))]);
  }

  lemma LooksAt(v: seq<Complex>, d: seq<nat>, axes: seq<nat>, x: seq<nat>, y: seq<nat>)
    requires |v| == Product(d) && LooksSymmetric(v, d, axes) && AreOpposite(x, y, d, axes)
    ensures NearConjugates(Elem(v, d, x), Elem(v, d, y))
  {
    OppositeIsMirror(x, y, d, axes);
    EncodeBound(x, d);
    DecodeEncode(x, d);
    var o := Encode(x, d);
    assert Reflected(o, d, All(axes)) == Encode(y, d);
    CloseIsNearConjugate(v[o], v[Encode(y, d)]);
  }

  /** The test by offsets is the test by coordinates. */
  lemma TestByCoordinates(v: seq<Complex>, d: seq<nat>, axes: seq<nat>)
    requires |v| == Product(d)
    ensures LooksSymmetric(v, d, axes) <==> PassesTest(v, d, axes)
  {
    if PassesTest(v, d, axes) {
      forall o: nat | o < |v|
        ensures Reflected(o, d, All(axes)) < |v| && CloseConjugates(v[o], v[Reflected(o, d, All(axes))])
      {
        PassesAt(v, d, axes, o);
      }
    }
    if LooksSymmetric(v, d, axes) {
      forall x: seq<nat>, y: seq<nat> | AreOpposite(x, y, d, axes) ensures NearConjugates(Elem(v, d, x), Elem(v, d, y)) {
        LooksAt(v, d, axes, x, y);
      }
    }
  }

  // ----- the result

  /** The real parts are kept, and the imaginary parts unless they are cleared. */
  ghost predicate KeepsParts(before: seq<Complex>, cleared: bool, after: seq<Complex>) {
    && |after| == |before|
    && forall o | 0 <= o < |after| ::
         after[o].re == before[o].re && after[o].im == if cleared then 0.0 else before[o].im
  }
}
