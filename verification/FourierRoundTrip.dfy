/**
 Forward and inverse transforms over several axes restore an array, in terms of the provider alone: its two
 transforms multiply every line by its length.

 Undoing the axes in the opposite order needs nothing more.  The axes may come back in any order, the same one
 included, if both transforms are weighted sums of the elements of a line, as discrete Fourier transforms are:
 then transforms along different axes can be exchanged.
 */
module FourierRoundTrip {
  import opened MixedRadix
  import opened Shapes
  import opened Coordinates
  import opened Lines
  import opened ComplexNumbers
  import opened AxisTransform
  import opened Fibres
  import opened InverseReality
  import opened FourierTransform
  import opened WeightedSums

  /** The provider's two transforms: on lines of more than one element, one after the other multiplies by the length. */
  ghost predicate InvertsAll(f: seq<Complex> -> seq<Complex>, g: seq<Complex> -> seq<Complex>) {
    && KeepsLengths(f) && KeepsLengths(g)
    && forall line: seq<Complex> | |line| > 1 :: IsMultiple(g(f(line)), |line|, line)
  }

  /** The inverse line transform undoes the forward one. */
  ghost predicate Undoes(g: seq<Complex> -> seq<Complex>, f: seq<Complex> -> seq<Complex>) {
    && KeepsLengths(f) && KeepsLengths(g)
    && forall line: seq<Complex> :: g(f(line)) == line
  }

  lemma LineTransformUndone(f: seq<Complex> -> seq<Complex>, g: seq<Complex> -> seq<Complex>)
    requires InvertsAll(f, g)
    ensures Undoes(LineTransform(g, true), LineTransform(f, false))
  {
    LineTransformKeeps(f, false);
    LineTransformKeeps(g, true);
    forall line: seq<Complex> ensures LineTransform(g, true)(LineTransform(f, false)(line)) == line {
      if |line| > 1 {
        assert KeepsLength(f, |line|);
        Restores(g, f(line), line);
      }
    }
  }

  lemma MappedUndone(f: seq<Complex> -> seq<Complex>, g: seq<Complex> -> seq<Complex>, v: seq<Complex>, d: seq<nat>, axis: nat)
    requires Undoes(g, f) && |v| == Product(d)
    ensures Mapped(g, Mapped(f, v, d, axis), d, axis) == v
  {
    var w := Mapped(f, v, d, axis);
    forall x: seq<nat> | Inside(x, d) ensures Fibre(Mapped(g, w, d, axis), d, axis, x) == Fibre(v, d, axis, x) {
      MappedFibre(f, v, d, axis, x);
      MappedFibre(g, w, d, axis, x);
    }
    SameFibres(Mapped(g, w, d, axis), v, d, axis);
  }

  lemma {:induction false} PlainConcat(g: seq<Complex> -> seq<Complex>, v: seq<Complex>, d: seq<nat>, a: seq<nat>, b: seq<nat>)
    requires KeepsLengths(g) && |v| == Product(d)
    ensures Plain(g, v, d, a + b) == Plain(g, Plain(g, v, d, a), d, b)
    decreases |b|
  {
    if b == [] {
      assert a + b == a;
    } else {
      PlainConcat(g, v, d, a, b[..|b| - 1]);
      assert (a + b)[..|a + b| - 1] == a + b[..|b| - 1];
    }
  }

  lemma PlainOne(g: seq<Complex> -> seq<Complex>, v: seq<Complex>, d: seq<nat>, axis: nat)
    requires KeepsLengths(g) && |v| == Product(d)
    ensures Plain(g, v, d, [axis]) == Mapped(g, v, d, axis)
  {
    assert [axis][..0] == [];
  }

  // ----- the opposite order

  function Reversed(axes: seq<nat>): (r: seq<nat>)
    ensures |r| == |axes| && forall k | 0 <= k < |axes| :: r[k] == axes[|axes| - 1 - k]
  {
    seq(|axes|, k requires 0 <= k < |axes| => axes[|axes| - 1 - k])
  }

  lemma {:induction false} UnwoundRestores(f: seq<Complex> -> seq<Complex>, g: seq<Complex> -> seq<Complex>, v: seq<Complex>,
                                           d: seq<nat>, axes: seq<nat>)
    requires Undoes(g, f) && |v| == Product(d)
    ensures Plain(g, Plain(f, v, d, axes), d, Reversed(axes)) == v
    decreases |axes|
  {
    if axes != [] {
      var init, last := axes[..|axes| - 1], axes[|axes| - 1];
      var z := Plain(f, v, d, init);
      assert Reversed(axes) == [last] + Reversed(init);
      PlainConcat(g, Mapped(f, z, d, last), d, [last], Reversed(init));
      PlainOne(g, Mapped(f, z, d, last), d, last);
      MappedUndone(f, g, z, d, last);
      UnwoundRestores(f, g, v, d, init);
    }
  }

  // ----- any order

  lemma {:induction false} PlainExchange(f: seq<Complex> -> seq<Complex>, g: seq<Complex> -> seq<Complex>, rf: (nat, nat) -> seq<Complex>,
                                         rg: (nat, nat) -> seq<Complex>, z: seq<Complex>, d: seq<nat>, axes: seq<nat>, axis: nat)
    requires KeepsLengths(f) && KeepsLengths(g) && IsWeighted(f, rf) && IsWeighted(g, rg)
    requires |z| == Product(d) && axis !in axes
    ensures Plain(g, Mapped(f, z, d, axis), d, axes) == Mapped(f, Plain(g, z, d, axes), d, axis)
    decreases |axes|
  {
    if axes != [] {
      var init, last := axes[..|axes| - 1], axes[|axes| - 1];
      PlainExchange(f, g, rf, rg, z, d, init, axis);
      MappedExchange(f, g, rf, rg, Plain(g, z, d, init), d, axis, last);
    }
  }

  lemma {:induction false} FirstOccurrence(axes: seq<nat>, axis: nat) returns (p: nat)
    requires axis in axes
    ensures p < |axes| && axes[p] == axis && axis !in axes[..p] && axes == axes[..p] + [axis] + axes[p + 1..]
  {
    if axes[0] == axis {
      p := 0;
    } else {
      var q := FirstOccurrence(axes[1..], axis);
      p := q + 1;
      assert axes[..p] == [axes[0]] + axes[1..][..q];
    }
  }

  /** An inverse transform along `axis` somewhere on the way back undoes the forward one that came last. */
  lemma BackPast(f: seq<Complex> -> seq<Complex>, g: seq<Complex> -> seq<Complex>, rf: (nat, nat) -> seq<Complex>,
                 rg: (nat, nat) -> seq<Complex>, z: seq<Complex>, d: seq<nat>, first: seq<nat>, axis: nat, rest: seq<nat>)
    requires Undoes(g, f) && IsWeighted(f, rf) && IsWeighted(g, rg) && |z| == Product(d) && axis !in first
    ensures Plain(g, Mapped(f, z, d, axis), d, first + [axis] + rest) == Plain(g, z, d, first + rest)
  {
    var w := Mapped(f, z, d, axis);
    PlainConcat(g, w, d, first + [axis], rest);
    PlainConcat(g, w, d, first, [axis]);
    PlainOne(g, Plain(g, w, d, first), d, axis);
    PlainExchange(f, g, rf, rg, z, d, first, axis);
    MappedUndone(f, g, Plain(g, z, d, first), d, axis);
    PlainConcat(g, z, d, first, rest);
  }

  lemma SameWithout(axes: seq<nat>, init: seq<nat>, last: nat, back: seq<nat>, first: seq<nat>, rest: seq<nat>)
    requires axes == init + [last] && back == first + [last] + rest && multiset(back) == multiset(axes)
    ensures multiset(first + rest) == multiset(init)
  {
    assert multiset(axes) == multiset(init) + multiset{last};
    assert multiset(back) == multiset(first) + multiset{last} + multiset(rest);
    assert multiset(first + rest) == multiset(back) - multiset{last};
    assert multiset(init) == multiset(axes) - multiset{last};
  }

  lemma {:induction false} AnyOrderRestores(f: seq<Complex> -> seq<Complex>, g: seq<Complex> -> seq<Complex>, rf: (nat, nat) -> seq<Complex>,
                                            rg: (nat, nat) -> seq<Complex>, v: seq<Complex>, d: seq<nat>, axes: seq<nat>, back: seq<nat>)
    requires Undoes(g, f) && IsWeighted(f, rf) && IsWeighted(g, rg) && |v| == Product(d) && multiset(back) == multiset(axes)
    ensures Plain(g, Plain(f, v, d, axes), d, back) == v
    decreases |axes|
  {
    assert |multiset(back)| == |multiset(axes)|;
    if axes != [] {
      var init, last := axes[..|axes| - 1], axes[|axes| - 1];
      assert axes == init + [last];
      assert last in multiset(back);
      var p := FirstOccurrence(back, last);
      var first, rest := back[..p], back[p + 1..];
      SameWithout(axes, init, last, back, first, rest);
      BackPast(f, g, rf, rg, Plain(f, v, d, init), d, first, last, rest);
      AnyOrderRestores(f, g, rf, rg, v, d, init, first + rest);
    }
  }

  // ----- the weights of the line transforms

  function LineRows(rows: (nat, nat) -> seq<Complex>, inverse: bool): (nat, nat) -> seq<Complex> {
    (n: nat, k: nat) =>
      if n <= 1 then seq(n, _ => Complex(1.0, 0.0))
      else if inverse then Scaled(rows(n, k), 1.0 / n as real)
      else rows(n, k)
  }

  lemma {:induction false} ScaledSum(weights: seq<Complex>, line: seq<Complex>, scale: real)
    requires |weights| == |line|
    ensures |Scaled(weights, scale)| == |line|
    ensures WeightedSum(Scaled(weights, scale), line) == WeightedSum(weights, line).Times(scale)
  {
    if line != [] {
      var n := |line| - 1;
      ScaledSum(weights[..n], line[..n], scale);
      assert Scaled(weights, scale)[..n] == Scaled(weights[..n], scale);
      TimesMoves(weights[n], line[n], scale, WeightedSum(weights[..n], line[..n]));
    }
  }

  lemma TimesMoves(a: Complex, b: Complex, scale: real, rest: Complex)
    ensures rest.Times(scale).Plus(a.Times(scale).By(b)) == rest.Plus(a.By(b)).Times(scale)
  {
    var scaled, product := a.Times(scale), a.By(b);
    var sum := rest.Plus(product);
    MovesInto(a.re, b.re, scale, scaled.re);
    MovesInto(a.im, b.im, scale, scaled.im);
    MovesInto(a.re, b.im, scale, scaled.re);
    MovesInto(a.im, b.re, scale, scaled.im);
    TimesDifference(scale, a.re * b.re, a.im * b.im, product.re);
    TimesSum(scale, a.re * b.im, a.im * b.re, product.im);
    TimesSum(scale, rest.re, product.re, sum.re);
    TimesSum(scale, rest.im, product.im, sum.im);
  }

  lemma MovesInto(a: real, b: real, scale: real, scaled: real)
    requires scaled == a * scale
    ensures scaled * b == scale * (a * b)
  {
  }

  lemma LineWeighted(f: seq<Complex> -> seq<Complex>, rows: (nat, nat) -> seq<Complex>, inverse: bool, line: seq<Complex>)
    requires IsWeighted(f, rows)
    ensures |LineTransform(f, inverse)(line)| == |line|
    ensures WeightedLine(line, LineRows(rows, inverse), LineTransform(f, inverse)(line))
  {
    var n, after := |line|, LineTransform(f, inverse)(line);
    assert WeightedLine(line, rows, f(line));
    forall k: nat | k < n
      ensures |LineRows(rows, inverse)(n, k)| == n && after[k] == WeightedSum(LineRows(rows, inverse)(n, k), line)
    {
      if n == 1 {
        OneWeight(line);
      } else if inverse {
        ScaledSum(rows(n, k), line, 1.0 / n as real);
      }
    }
  }

  lemma OneWeight(line: seq<Complex>)
    requires |line| == 1
    ensures WeightedSum(seq(1, _ => Complex(1.0, 0.0)), line) == line[0]
  {
    var one := seq(1, _ => Complex(1.0, 0.0));
    assert WeightedSum(one[..0], line[..0]) == Zero();
  }

  lemma LineTransformWeighted(f: seq<Complex> -> seq<Complex>, rows: (nat, nat) -> seq<Complex>, inverse: bool)
    requires IsWeighted(f, rows)
    ensures IsWeighted(LineTransform(f, inverse), LineRows(rows, inverse))
  {
    forall line: seq<Complex>
      ensures |LineTransform(f, inverse)(line)| == |line|
      ensures WeightedLine(line, LineRows(rows, inverse), LineTransform(f, inverse)(line))
    {
      LineWeighted(f, rows, inverse, line);
    }
  }

  // ----- a provider that meets the conditions

  function Same(line: seq<Complex>): seq<Complex> {
    line
  }

  function Lengthened(line: seq<Complex>): seq<Complex> {
    Scaled(line, |line| as real)
  }

  function SameRow(n: nat, k: nat): seq<Complex> {
    UnitRow(n, k, 1.0)
  }

  function LengthRow(n: nat, k: nat): seq<Complex> {
    UnitRow(n, k, n as real)
  }

  function UnitRow(n: nat, k: nat, scale: real): (row: seq<Complex>)
    ensures |row| == n
  {
    seq(n, j requires 0 <= j < n => if j == k then Complex(scale, 0.0) else Zero())
  }

  lemma UnitTerm(rest: Complex, scale: real, z: Complex)
    ensures Zero().Plus(Complex(scale, 0.0).By(z)) == z.Times(scale)
    ensures rest.Plus(Zero().By(z)) == rest
  {
  }

  lemma {:induction false} UnitSum(line: seq<Complex>, k: nat, scale: real)
    ensures WeightedSum(UnitRow(|line|, k, scale), line) == if k < |line| then line[k].Times(scale) else Zero()
  {
    if line != [] {
      var n := |line| - 1;
      UnitSum(line[..n], k, scale);
      assert UnitRow(|line|, k, scale)[..n] == UnitRow(n, k, scale);
      UnitTerm(WeightedSum(UnitRow(n, k, scale), line[..n]), scale, line[n]);
    }
  }

  lemma UnitLine(line: seq<Complex>)
    ensures WeightedLine(line, SameRow, Same(line)) && WeightedLine(line, LengthRow, Lengthened(line))
  {
    forall k: nat | k < |line|
      ensures Same(line)[k] == WeightedSum(SameRow(|line|, k), line)
      ensures Lengthened(line)[k] == WeightedSum(LengthRow(|line|, k), line)
    {
      UnitSum(line, k, 1.0);
      UnitSum(line, k, |line| as real);
    }
  }

  lemma LengthenedIsMultiple(line: seq<Complex>)
    ensures IsMultiple(Lengthened(Same(line)), |line|, line)
  {
  }

  /** The conditions on a provider can be met, on lines of every length. */
  lemma ConditionsCanBeMet()
    ensures InvertsAll(Same, Lengthened) && IsWeighted(Same, SameRow) && IsWeighted(Lengthened, LengthRow)
  {
    SamePairInverts();
    forall line: seq<Complex>
      ensures |Same(line)| == |line| && WeightedLine(line, SameRow, Same(line))
      ensures |Lengthened(line)| == |line| && WeightedLine(line, LengthRow, Lengthened(line))
    {
      UnitLine(line);
    }
  }

  lemma SamePairInverts()
    ensures InvertsAll(Same, Lengthened)
  {
    forall line: seq<Complex> ensures IsMultiple(Lengthened(Same(line)), |line|, line) {
      LengthenedIsMultiple(line);
    }
  }

  // ----- the loops run

  /** Forward along the axes and back along them in the opposite order. */
  method TransformAndUnwind(values: array<Complex>, dims: seq<nat>, axes: seq<nat>, f: seq<Complex> -> seq<Complex>, g: seq<Complex> -> seq<Complex>)
    returns (ok: bool)
    requires values.Length == Product(dims) && InvertsAll(f, g)
    modifies values
    ensures ok && values[..] == old(values[..])
  {
    LineTransformUndone(f, g);
    UnwoundRestores(LineTransform(f, false), LineTransform(g, true), values[..], dims, axes);
    ok := Transform(values, dims, axes, false, Nonsymmetric, f);
    ok := Transform(values, dims, Reversed(axes), true, Nonsymmetric, g);
  }

  /** Forward along the axes and back along them in any order. */
  method TransformAndBack(values: array<Complex>, dims: seq<nat>, axes: seq<nat>, back: seq<nat>, f: seq<Complex> -> seq<Complex>,
                          g: seq<Complex> -> seq<Complex>, ghost rf: (nat, nat) -> seq<Complex>, ghost rg: (nat, nat) -> seq<Complex>)
    returns (ok: bool)
    requires values.Length == Product(dims) && InvertsAll(f, g) && IsWeighted(f, rf) && IsWeighted(g, rg)
    requires multiset(back) == multiset(axes)
    modifies values
    ensures ok && values[..] == old(values[..])
  {
    LineTransformUndone(f, g);
    LineTransformWeighted(f, rf, false);
    LineTransformWeighted(g, rg, true);
    AnyOrderRestores(LineTransform(f, false), LineTransform(g, true), LineRows(rf, false), LineRows(rg, true),
                     values[..], dims, axes, back);
    ok := Transform(values, dims, axes, false, Nonsymmetric, f);
    ok := Transform(values, dims, back, true, Nonsymmetric, g);
  }
}
