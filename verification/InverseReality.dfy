/**
 Inverse transforms over several axes.  The transform of data is real exactly when the data are
 conjugate-symmetric over all axes together, which is what the test looks for; the `symmetric` option
 however enforces symmetry along one axis at a time between the transforms.  What it computes is the
 plain transform of data made symmetric along the first axis alone and folded over along each other one,
 so it leaves the result alone exactly when the data are symmetric along the first axis alone and along
 the first together with each other one.
 */
module InverseReality {
  import opened MixedRadix
  import opened Shapes
  import opened Coordinates
  import opened Lines
  import opened ComplexNumbers
  import opened ConjugateSymmetry
  import opened Fibres

  // ----- lines

  function Conjugated(line: seq<Complex>): (r: seq<Complex>)
    ensures |r| == |line|
  {
    seq(|line|, j requires 0 <= j < |line| => line[j].Conjugate())
  }

  /** The conjugate of the line read the other way round. */
  function Opposed(line: seq<Complex>): (r: seq<Complex>)
    ensures |r| == |line|
  {
    seq(|line|, j requires 0 <= j < |line| => line[Opposite(|line|, j)].Conjugate())
  }

  /** The position of the first half that is `j` or opposite to it. */
  function Fold(n: nat, j: nat): (k: nat)
    requires j < n
    ensures k < n
  {
    if 2 * j > n then n - j else j
  }

  lemma FoldCases(n: nat, j: nat)
    requires j < n
    ensures Fold(n, j) == j || Fold(n, j) == Opposite(n, j)
    ensures Fold(n, Opposite(n, j)) == Fold(n, j)
  {
    OppositeCases(n, j);
  }

  function FoldedLine(line: seq<Complex>): (r: seq<Complex>)
    ensures |r| == |line|
  {
    seq(|line|, j requires 0 <= j < |line| => line[Fold(|line|, j)])
  }

  ghost predicate KeepsLengths(g: seq<Complex> -> seq<Complex>) {
    forall n: nat :: KeepsLength(g, n)
  }

  /**
   What an inverse Fourier transform of a line does: it keeps the length, loses nothing, and turns the
   conjugate of the line read the other way round into the conjugate.
   */
  ghost predicate Lawful(g: seq<Complex> -> seq<Complex>) {
    && KeepsLengths(g)
    && Injective(g)
    && forall line: seq<Complex> :: g(Opposed(line)) == Conjugated(g(line))
  }

  ghost predicate IsReal(v: seq<Complex>) {
    forall o | 0 <= o < |v| :: v[o].im == 0.0
  }

  /** On real lines enforcing symmetry is folding. */
  lemma RealEnforced(line: seq<Complex>)
    requires IsReal(line)
    ensures EnforcedLine(line) == FoldedLine(line)
  {
  }

  // ----- symmetry by coordinates

  lemma MirrorInside(x: seq<nat>, d: seq<nat>, axes: set<nat>)
    requires Inside(x, d)
    ensures Inside(Mirror(x, d, axes), d)
  {
  }

  ghost function Mirrored(v: seq<Complex>, d: seq<nat>, axes: set<nat>, x: seq<nat>): Complex
    requires |v| == Product(d) && Inside(x, d)
  {
    MirrorInside(x, d, axes);
    Elem(v, d, Mirror(x, d, axes))
  }

  ghost predicate IsSymmetric(v: seq<Complex>, d: seq<nat>, axes: set<nat>) {
    |v| == Product(d) && forall x: seq<nat> | Inside(x, d) :: Elem(v, d, x) == Mirrored(v, d, axes, x).Conjugate()
  }

  ghost predicate Even(v: seq<Complex>, d: seq<nat>, axes: set<nat>) {
    |v| == Product(d) && forall x: seq<nat> | Inside(x, d) :: Elem(v, d, x) == Mirrored(v, d, axes, x)
  }

  lemma ExactByCoordinates(v: seq<Complex>, d: seq<nat>, axes: set<nat>)
    requires |v| == Product(d)
    ensures ExactlySymmetric(v, d, axes) <==> IsSymmetric(v, d, axes)
  {
    if ExactlySymmetric(v, d, axes) {
      forall x: seq<nat> | Inside(x, d) ensures Elem(v, d, x) == Mirrored(v, d, axes, x).Conjugate() {
        EncodeBound(x, d);
        DecodeEncode(x, d);
        assert Reflected(Encode(x, d), d, axes) < |v|;
      }
    }
    if IsSymmetric(v, d, axes) {
      forall o: nat | o < |v|
        ensures Reflected(o, d, axes) < |v| && v[o] == v[Reflected(o, d, axes)].Conjugate()
      {
        EncodeDecode(o, d);
        ReflectedInBounds(o, d, axes);
        assert Elem(v, d, Decode(o, d)) == Mirrored(v, d, axes, Decode(o, d)).Conjugate();
      }
    }
  }

  lemma MirrorPut(x: seq<nat>, d: seq<nat>, axes: set<nat>, axis: nat, j: nat)
    requires Inside(x, d) && axis !in axes && j < Extent(d, axis)
    ensures Mirror(Put(x, axis, j), d, axes) == Put(Mirror(x, d, axes), axis, j)
    ensures Mirror(Put(x, axis, j), d, axes + {axis}) == Put(Mirror(x, d, axes), axis, Opposite(Extent(d, axis), j))
  {
    var y, k := Mirror(x, d, axes), Opposite(Extent(d, axis), j);
    forall i | 0 <= i < |d|
      ensures Mirror(Put(x, axis, j), d, axes)[i] == Put(y, axis, j)[i]
      ensures Mirror(Put(x, axis, j), d, axes + {axis})[i] == Put(y, axis, k)[i]
    {
      if i != axis {
        assert Put(x, axis, j)[i] == x[i] && Put(y, axis, j)[i] == y[i] == Put(y, axis, k)[i];
      }
    }
  }

  // ----- symmetry by lines

  ghost predicate LinesConjugate(v: seq<Complex>, d: seq<nat>, axes: set<nat>, axis: nat)
    requires |v| == Product(d)
  {
    forall x: seq<nat> | Inside(x, d) :: Fibre(v, d, axis, x) == Conjugated(OtherFibre(v, d, axes, axis, x))
  }

  ghost predicate LinesOpposed(v: seq<Complex>, d: seq<nat>, axes: set<nat>, axis: nat)
    requires |v| == Product(d)
  {
    forall x: seq<nat> | Inside(x, d) :: Fibre(v, d, axis, x) == Opposed(OtherFibre(v, d, axes, axis, x))
  }

  /** The line through the mirror image of `x` in other axes. */
  ghost function OtherFibre(v: seq<Complex>, d: seq<nat>, axes: set<nat>, axis: nat, x: seq<nat>): (line: seq<Complex>)
    requires |v| == Product(d) && Inside(x, d)
    ensures |line| == Extent(d, axis)
  {
    MirrorInside(x, d, axes);
    Fibre(v, d, axis, Mirror(x, d, axes))
  }

  lemma OtherFibreAt(v: seq<Complex>, d: seq<nat>, axes: set<nat>, axis: nat, x: seq<nat>, j: nat)
    requires |v| == Product(d) && Inside(x, d) && axis !in axes && j < Extent(d, axis)
    ensures Inside(Put(x, axis, j), d)
    ensures OtherFibre(v, d, axes, axis, x)[j] == Mirrored(v, d, axes, Put(x, axis, j))
    ensures OtherFibre(v, d, axes, axis, x)[Opposite(Extent(d, axis), j)] == Mirrored(v, d, axes + {axis}, Put(x, axis, j))
  {
    MirrorInside(x, d, axes);
    PutInside(x, d, axis, j);
    MirrorPut(x, d, axes, axis, j);
    FibreAt(v, d, axis, Mirror(x, d, axes), j);
    FibreAt(v, d, axis, Mirror(x, d, axes), Opposite(Extent(d, axis), j));
  }

  lemma ConjugateLines(v: seq<Complex>, d: seq<nat>, axes: set<nat>, axis: nat)
    requires |v| == Product(d) && axis !in axes
    ensures IsSymmetric(v, d, axes) <==> LinesConjugate(v, d, axes, axis)
  {
    if IsSymmetric(v, d, axes) {
      forall x: seq<nat> | Inside(x, d) ensures Fibre(v, d, axis, x) == Conjugated(OtherFibre(v, d, axes, axis, x)) {
        forall j: nat | j < Extent(d, axis)
          ensures Fibre(v, d, axis, x)[j] == Conjugated(OtherFibre(v, d, axes, axis, x))[j]
        {
          FibreAt(v, d, axis, x, j);
          OtherFibreAt(v, d, axes, axis, x, j);
        }
      }
    }
    if LinesConjugate(v, d, axes, axis) {
      forall x: seq<nat> | Inside(x, d) ensures Elem(v, d, x) == Mirrored(v, d, axes, x).Conjugate() {
        ElemOnFibre(v, d, axis, x);
        OtherFibreAt(v, d, axes, axis, x, Coordinate(x, axis));
        PutInside(x, d, axis, Coordinate(x, axis));
      }
    }
  }

  lemma OpposedLines(v: seq<Complex>, d: seq<nat>, axes: set<nat>, axis: nat)
    requires |v| == Product(d) && axis !in axes
    ensures IsSymmetric(v, d, axes + {axis}) <==> LinesOpposed(v, d, axes, axis)
  {
    if IsSymmetric(v, d, axes + {axis}) {
      forall x: seq<nat> | Inside(x, d) ensures Fibre(v, d, axis, x) == Opposed(OtherFibre(v, d, axes, axis, x)) {
        forall j: nat | j < Extent(d, axis)
          ensures Fibre(v, d, axis, x)[j] == Opposed(OtherFibre(v, d, axes, axis, x))[j]
        {
          FibreAt(v, d, axis, x, j);
          OtherFibreAt(v, d, axes, axis, x, j);
        }
      }
    }
    if LinesOpposed(v, d, axes, axis) {
      forall x: seq<nat> | Inside(x, d) ensures Elem(v, d, x) == Mirrored(v, d, axes + {axis}, x).Conjugate() {
        ElemOnFibre(v, d, axis, x);
        OtherFibreAt(v, d, axes, axis, x, Coordinate(x, axis));
        PutInside(x, d, axis, Coordinate(x, axis));
      }
    }
  }

  /** Transforming along an axis takes that axis out of the symmetry. */
  lemma TransformedSymmetry(g: seq<Complex> -> seq<Complex>, v: seq<Complex>, d: seq<nat>, axes: set<nat>, axis: nat)
    requires Lawful(g) && |v| == Product(d) && axis !in axes
    ensures IsSymmetric(Mapped(g, v, d, axis), d, axes) <==> IsSymmetric(v, d, axes + {axis})
  {
    var w := Mapped(g, v, d, axis);
    OpposedLines(v, d, axes, axis);
    ConjugateLines(w, d, axes, axis);
    forall x: seq<nat> | Inside(x, d)
      ensures Fibre(w, d, axis, x) == Conjugated(OtherFibre(w, d, axes, axis, x)) <==>
              Fibre(v, d, axis, x) == Opposed(OtherFibre(v, d, axes, axis, x))
    {
      MirrorInside(x, d, axes);
      MappedFibre(g, v, d, axis, x);
      MappedFibre(g, v, d, axis, Mirror(x, d, axes));
      LawfulPair(g, Fibre(v, d, axis, x), OtherFibre(v, d, axes, axis, x));
    }
  }

  lemma LawfulPair(g: seq<Complex> -> seq<Complex>, a: seq<Complex>, b: seq<Complex>)
    requires Lawful(g) && |a| == |b|
    ensures g(a) == Conjugated(g(b)) <==> a == Opposed(b)
  {
    assert g(Opposed(b)) == Conjugated(g(b));
  }

  // ----- the plain transform

  /** The transforms along the axes, one after the other. */
  ghost function Plain(g: seq<Complex> -> seq<Complex>, v: seq<Complex>, d: seq<nat>, axes: seq<nat>): (w: seq<Complex>)
    requires KeepsLengths(g) && |v| == Product(d)
    ensures |w| == |v|
    decreases |axes|
  {
    if axes == [] then v
    else Mapped(g, Plain(g, v, d, axes[..|axes| - 1]), d, axes[|axes| - 1])
  }

  /** The axes as a set. */
  function All(axes: seq<nat>): set<nat> {
    set a | a in axes
  }

  lemma DistinctInit(axes: seq<nat>)
    requires Distinct(axes) && axes != []
    ensures Distinct(axes[..|axes| - 1]) && axes[|axes| - 1] !in axes[..|axes| - 1]
  {
  }

  lemma {:induction false} PlainSymmetry(g: seq<Complex> -> seq<Complex>, v: seq<Complex>, d: seq<nat>, axes: seq<nat>, more: set<nat>)
    requires Lawful(g) && |v| == Product(d) && Distinct(axes) && forall a | a in axes :: a !in more
    ensures IsSymmetric(Plain(g, v, d, axes), d, more) <==> IsSymmetric(v, d, more + All(axes))
    decreases |axes|
  {
    if axes == [] {
      assert more + All(axes) == more;
    } else {
      var init, last := axes[..|axes| - 1], axes[|axes| - 1];
      DistinctInit(axes);
      TransformedSymmetry(g, Plain(g, v, d, init), d, more, last);
      PlainSymmetry(g, v, d, init, more + {last});
      assert axes == init + [last];
      assert more + All(axes) == more + {last} + All(init);
    }
  }

  lemma RealBySymmetry(v: seq<Complex>, d: seq<nat>)
    requires |v| == Product(d)
    ensures IsSymmetric(v, d, {}) <==> IsReal(v)
  {
    if IsSymmetric(v, d, {}) {
      forall o | 0 <= o < |v| ensures v[o].im == 0.0 {
        EncodeDecode(o, d);
        var x := Decode(o, d);
        assert Mirror(x, d, {}) == x;
        assert Elem(v, d, x) == Mirrored(v, d, {}, x).Conjugate();
      }
    }
    if IsReal(v) {
      forall x: seq<nat> | Inside(x, d) ensures Elem(v, d, x) == Mirrored(v, d, {}, x).Conjugate() {
        assert Mirror(x, d, {}) == x;
        EncodeBound(x, d);
      }
    }
  }

  /** The transform is real exactly when the data are symmetric over all axes together. */
  lemma RealIffSymmetric(g: seq<Complex> -> seq<Complex>, v: seq<Complex>, d: seq<nat>, axes: seq<nat>)
    requires Lawful(g) && |v| == Product(d) && Distinct(axes)
    ensures IsReal(Plain(g, v, d, axes)) <==> ExactlySymmetric(v, d, All(axes))
  {
    PlainSymmetry(g, v, d, axes, {});
    assert {} + All(axes) == All(axes);
    RealBySymmetry(Plain(g, v, d, axes), d);
    ExactByCoordinates(v, d, All(axes));
  }

  lemma {:induction false} PlainInjective(g: seq<Complex> -> seq<Complex>, v: seq<Complex>, w: seq<Complex>, d: seq<nat>, axes: seq<nat>)
    requires Lawful(g) && |v| == Product(d) == |w| && Plain(g, v, d, axes) == Plain(g, w, d, axes)
    ensures v == w
    decreases |axes|
  {
    if axes != [] {
      var init := axes[..|axes| - 1];
      MappedInjective(g, Plain(g, v, d, init), Plain(g, w, d, init), d, axes[|axes| - 1]);
      PlainInjective(g, v, w, d, init);
    }
  }

  // ----- folding

  ghost function Folded(v: seq<Complex>, d: seq<nat>, axis: nat): (w: seq<Complex>)
    requires |v| == Product(d)
    ensures |w| == |v|
  {
    Mapped(FoldedLine, v, d, axis)
  }

  lemma FoldedAt(v: seq<Complex>, d: seq<nat>, axis: nat, x: seq<nat>)
    requires |v| == Product(d) && Inside(x, d)
    ensures Coordinate(x, axis) < Extent(d, axis)
    ensures var y := Put(x, axis, Fold(Extent(d, axis), Coordinate(x, axis)));
            Inside(y, d) && Elem(Folded(v, d, axis), d, x) == Elem(v, d, y)
  {
    MappedAt(FoldedLine, v, d, axis, x);
    FibreAt(v, d, axis, x, Fold(Extent(d, axis), Coordinate(x, axis)));
  }

  /** Folding along one axis and transforming along another can be done in either order. */
  lemma FoldCommutes(g: seq<Complex> -> seq<Complex>, v: seq<Complex>, d: seq<nat>, axis: nat, other: nat)
    requires Lawful(g) && |v| == Product(d) && axis != other
    ensures Folded(Mapped(g, v, d, other), d, axis) == Mapped(g, Folded(v, d, axis), d, other)
  {
    var w := Mapped(g, v, d, other);
    forall x: seq<nat> | Inside(x, d)
      ensures Elem(Folded(w, d, axis), d, x) == Elem(Mapped(g, Folded(v, d, axis), d, other), d, x)
    {
      FoldedAt(w, d, axis, x);
      var j := Fold(Extent(d, axis), Coordinate(x, axis));
      MappedAt(g, v, d, other, Put(x, axis, j));
      MappedAt(g, Folded(v, d, axis), d, other, x);
      FoldedFibre(v, d, axis, other, x, j);
      PutOther(x, axis, j, other, 0);
    }
    SameElems(Folded(w, d, axis), Mapped(g, Folded(v, d, axis), d, other), d);
  }

  lemma FoldedFibre(v: seq<Complex>, d: seq<nat>, axis: nat, other: nat, x: seq<nat>, j: nat)
    requires |v| == Product(d) && axis != other && Inside(x, d) && Coordinate(x, axis) < Extent(d, axis)
    requires j == Fold(Extent(d, axis), Coordinate(x, axis)) && Inside(Put(x, axis, j), d)
    ensures Fibre(Folded(v, d, axis), d, other, x) == Fibre(v, d, other, Put(x, axis, j))
  {
    forall k: nat | k < Extent(d, other)
      ensures Fibre(Folded(v, d, axis), d, other, x)[k] == Fibre(v, d, other, Put(x, axis, j))[k]
    {
      FibreAt(Folded(v, d, axis), d, other, x, k);
      FoldedAt(v, d, axis, Put(x, other, k));
      PutOther(x, other, k, axis, j);
      FibreAt(v, d, other, Put(x, axis, j), k);
    }
  }

  lemma {:induction false} FoldThroughPlain(g: seq<Complex> -> seq<Complex>, v: seq<Complex>, d: seq<nat>, axes: seq<nat>, axis: nat)
    requires Lawful(g) && |v| == Product(d) && axis !in axes
    ensures Folded(Plain(g, v, d, axes), d, axis) == Plain(g, Folded(v, d, axis), d, axes)
    decreases |axes|
  {
    if axes != [] {
      var init, last := axes[..|axes| - 1], axes[|axes| - 1];
      FoldThroughPlain(g, v, d, init, axis);
      FoldCommutes(g, Plain(g, v, d, init), d, axis, last);
    }
  }

  lemma MirrorIsPut(x: seq<nat>, d: seq<nat>, axis: nat)
    requires Inside(x, d)
    ensures Coordinate(x, axis) < Extent(d, axis)
    ensures Mirror(x, d, {axis}) == Put(x, axis, Opposite(Extent(d, axis), Coordinate(x, axis)))
  {
    InsideIsWithin(x, d);
    assert Coordinate(x, axis) < Extent(d, axis);
  }

  lemma FoldedEvenAt(v: seq<Complex>, d: seq<nat>, axis: nat, x: seq<nat>)
    requires |v| == Product(d) && Inside(x, d)
    ensures Elem(Folded(v, d, axis), d, x) == Mirrored(Folded(v, d, axis), d, {axis}, x)
  {
    MirrorIsPut(x, d, axis);
    var n, c := Extent(d, axis), Coordinate(x, axis);
    var y := Put(x, axis, Opposite(n, c));
    PutInside(x, d, axis, Opposite(n, c));
    FoldedAt(v, d, axis, x);
    FoldedAt(v, d, axis, y);
    FoldCases(n, c);
    assert Put(y, axis, Fold(n, c)) == Put(x, axis, Fold(n, c));
  }

  lemma EvenFoldedAt(v: seq<Complex>, d: seq<nat>, axis: nat, x: seq<nat>)
    requires Even(v, d, {axis}) && Inside(x, d)
    ensures Elem(Folded(v, d, axis), d, x) == Elem(v, d, x)
  {
    MirrorIsPut(x, d, axis);
    FoldedAt(v, d, axis, x);
    FoldCases(Extent(d, axis), Coordinate(x, axis));
    PutInside(x, d, axis, Coordinate(x, axis));
    assert Elem(v, d, x) == Mirrored(v, d, {axis}, x);
  }

  /** Folding makes an array even along the axis and changes nothing exactly when it was. */
  lemma FoldIsEven(v: seq<Complex>, d: seq<nat>, axis: nat)
    requires |v| == Product(d)
    ensures Even(Folded(v, d, axis), d, {axis})
    ensures Folded(v, d, axis) == v <==> Even(v, d, {axis})
  {
    forall x: seq<nat> | Inside(x, d) ensures Elem(Folded(v, d, axis), d, x) == Mirrored(Folded(v, d, axis), d, {axis}, x) {
      FoldedEvenAt(v, d, axis, x);
    }
    if Even(v, d, {axis}) {
      forall x: seq<nat> | Inside(x, d) ensures Elem(Folded(v, d, axis), d, x) == Elem(v, d, x) {
        EvenFoldedAt(v, d, axis, x);
      }
      SameElems(Folded(v, d, axis), v, d);
    }
  }

  lemma FoldKeeps(v: seq<Complex>, d: seq<nat>, axis: nat, other: nat)
    requires |v| == Product(d) && axis != other
    ensures Even(v, d, {other}) ==> Even(Folded(v, d, axis), d, {other})
    ensures IsSymmetric(v, d, {other}) ==> IsSymmetric(Folded(v, d, axis), d, {other})
  {
    var w := Folded(v, d, axis);
    forall x: seq<nat> | Inside(x, d)
      ensures Even(v, d, {other}) ==> Elem(w, d, x) == Mirrored(w, d, {other}, x)
      ensures IsSymmetric(v, d, {other}) ==> Elem(w, d, x) == Mirrored(w, d, {other}, x).Conjugate()
    {
      FoldedAt(v, d, axis, x);
      var j := Fold(Extent(d, axis), Coordinate(x, axis));
      MirrorInside(x, d, {other});
      FoldedAt(v, d, axis, Mirror(x, d, {other}));
      MirrorIsPut(x, d, other);
      PutOther(x, other, Opposite(Extent(d, other), Coordinate(x, other)), axis, j);
      MirrorPut(x, d, {other}, axis, j);
      assert Mirrored(w, d, {other}, x) == Mirrored(v, d, {other}, Put(x, axis, j));
    }
  }

  // ----- the transform with symmetry enforced

  ghost function Enforced(v: seq<Complex>, d: seq<nat>, axis: nat): (w: seq<Complex>)
    requires |v| == Product(d)
    ensures |w| == |v|
  {
    Mapped(EnforcedLine, v, d, axis)
  }

  /** Before every transform the data are made symmetric along its axis. */
  ghost function EnforcedTransform(g: seq<Complex> -> seq<Complex>, v: seq<Complex>, d: seq<nat>, axes: seq<nat>): (w: seq<Complex>)
    requires KeepsLengths(g) && |v| == Product(d)
    ensures |w| == |v|
    decreases |axes|
  {
    if axes == [] then v
    else
      var last := axes[|axes| - 1];
      Mapped(g, Enforced(EnforcedTransform(g, v, d, axes[..|axes| - 1]), d, last), d, last)
  }

  lemma EnforcedSymmetric(v: seq<Complex>, d: seq<nat>, axis: nat)
    requires |v| == Product(d)
    ensures IsSymmetric(Enforced(v, d, axis), d, {axis})
    ensures Enforced(v, d, axis) == v <==> IsSymmetric(v, d, {axis})
  {
    var w := Enforced(v, d, axis);
    assert {} + {axis} == {axis};
    OpposedLines(v, d, {}, axis);
    OpposedLines(w, d, {}, axis);
    forall x: seq<nat> | Inside(x, d)
      ensures Fibre(w, d, axis, x) == Opposed(OtherFibre(w, d, {}, axis, x))
      ensures Fibre(v, d, axis, x) == Opposed(OtherFibre(v, d, {}, axis, x)) <==> Fibre(w, d, axis, x) == Fibre(v, d, axis, x)
    {
      assert Mirror(x, d, {}) == x;
      MappedFibre(EnforcedLine, v, d, axis, x);
      EnforcedLineSymmetric(Fibre(v, d, axis, x));
      SymmetricIsOpposed(Fibre(v, d, axis, x));
      SymmetricIsOpposed(Fibre(w, d, axis, x));
    }
    if LinesOpposed(v, d, {}, axis) {
      SameFibres(w, v, d, axis);
    }
  }

  lemma SymmetricIsOpposed(line: seq<Complex>)
    ensures LineSymmetric(line) <==> line == Opposed(line)
  {
    if line == Opposed(line) {
      forall j: nat | j < |line| ensures line[j] == line[Opposite(|line|, j)].Conjugate() {
        assert line[j] == Opposed(line)[j];
      }
    }
  }

  lemma EnforcedIsReal(g: seq<Complex> -> seq<Complex>, v: seq<Complex>, d: seq<nat>, axes: seq<nat>)
    requires Lawful(g) && |v| == Product(d) && axes != []
    ensures IsReal(EnforcedTransform(g, v, d, axes))
  {
    var last := axes[|axes| - 1];
    var z := EnforcedTransform(g, v, d, axes[..|axes| - 1]);
    EnforcedSymmetric(z, d, last);
    assert {} + {last} == {last};
    TransformedSymmetry(g, Enforced(z, d, last), d, {}, last);
    RealBySymmetry(EnforcedTransform(g, v, d, axes), d);
  }

  lemma RealFolds(v: seq<Complex>, d: seq<nat>, axis: nat)
    requires |v| == Product(d) && IsReal(v)
    ensures Enforced(v, d, axis) == Folded(v, d, axis)
  {
    forall x: seq<nat> | Inside(x, d) ensures EnforcedLine(Fibre(v, d, axis, x)) == FoldedLine(Fibre(v, d, axis, x)) {
      forall j: nat | j < Extent(d, axis) ensures Fibre(v, d, axis, x)[j].im == 0.0 {
        FibreAt(v, d, axis, x, j);
        EncodeBound(Put(x, axis, j), d);
      }
      RealEnforced(Fibre(v, d, axis, x));
    }
    MappedSame(EnforcedLine, FoldedLine, v, d, axis);
  }

  /** Made symmetric along the first axis and folded along the others. */
  ghost function Refolded(v: seq<Complex>, d: seq<nat>, axes: seq<nat>): (w: seq<Complex>)
    requires |v| == Product(d)
    ensures |w| == |v|
    decreases |axes|
  {
    if axes == [] then v
    else if |axes| == 1 then Enforced(v, d, axes[0])
    else Folded(Refolded(v, d, axes[..|axes| - 1]), d, axes[|axes| - 1])
  }

  /** Enforcing between the transforms is transforming refolded data. */
  lemma {:induction false} EnforcedIsPlain(g: seq<Complex> -> seq<Complex>, v: seq<Complex>, d: seq<nat>, axes: seq<nat>)
    requires Lawful(g) && |v| == Product(d) && Distinct(axes)
    ensures EnforcedTransform(g, v, d, axes) == Plain(g, Refolded(v, d, axes), d, axes)
    decreases |axes|
  {
    if |axes| == 1 {
      assert axes[..0] == [];
    } else if |axes| > 1 {
      var init, last := axes[..|axes| - 1], axes[|axes| - 1];
      DistinctInit(axes);
      EnforcedIsPlain(g, v, d, init);
      EnforcedIsReal(g, v, d, init);
      RealFolds(EnforcedTransform(g, v, d, init), d, last);
      FoldThroughPlain(g, Refolded(v, d, init), d, init, last);
    }
  }

  /** Symmetric along the first axis and even along the others. */
  ghost predicate Fits(v: seq<Complex>, d: seq<nat>, axes: seq<nat>) {
    axes != [] ==> IsSymmetric(v, d, {axes[0]}) && forall k | 1 <= k < |axes| :: Even(v, d, {axes[k]})
  }

  lemma FoldedFits(v: seq<Complex>, d: seq<nat>, axes: seq<nat>, axis: nat)
    requires |v| == Product(d) && Fits(v, d, axes) && axes != [] && axis !in axes
    ensures Fits(Folded(v, d, axis), d, axes + [axis])
  {
    FoldIsEven(v, d, axis);
    FoldKeeps(v, d, axis, axes[0]);
    forall k | 1 <= k < |axes| ensures Even(Folded(v, d, axis), d, {axes[k]}) {
      FoldKeeps(v, d, axis, axes[k]);
    }
  }

  lemma FitsNext(v: seq<Complex>, d: seq<nat>, axes: seq<nat>, axis: nat)
    requires axes != []
    ensures Fits(v, d, axes + [axis]) <==> Fits(v, d, axes) && Even(v, d, {axis})
  {
    var all := axes + [axis];
    assert all[|axes|] == axis;
    assert forall k | 0 <= k < |axes| :: all[k] == axes[k];
  }

  lemma {:induction false} RefoldedFits(v: seq<Complex>, d: seq<nat>, axes: seq<nat>)
    requires |v| == Product(d) && Distinct(axes)
    ensures Fits(Refolded(v, d, axes), d, axes) && (Fits(v, d, axes) ==> Refolded(v, d, axes) == v)
    decreases |axes|
  {
    if |axes| == 1 {
      EnforcedSymmetric(v, d, axes[0]);
    } else if |axes| > 1 {
      var init, last := axes[..|axes| - 1], axes[|axes| - 1];
      assert axes == init + [last];
      DistinctInit(axes);
      RefoldedFits(v, d, init);
      FoldedFits(Refolded(v, d, init), d, init, last);
      FitsNext(v, d, init, last);
      FoldIsEven(v, d, last);
    }
  }

  /** Beside symmetry along one axis, symmetry along two is evenness along the other. */
  lemma EvenBeside(v: seq<Complex>, d: seq<nat>, axis: nat, other: nat)
    requires |v| == Product(d) && IsSymmetric(v, d, {axis}) && axis != other
    ensures IsSymmetric(v, d, {axis, other}) <==> Even(v, d, {other})
  {
    forall x: seq<nat> | Inside(x, d)
      ensures Mirrored(v, d, {other}, x) == Mirrored(v, d, {axis, other}, x).Conjugate()
    {
      var y := Mirror(x, d, {other});
      MirrorInside(x, d, {other});
      assert Mirror(y, d, {axis}) == Mirror(x, d, {axis, other});
      assert Elem(v, d, y) == Mirrored(v, d, {axis}, y).Conjugate();
    }
  }

  /** What a caller can check: exact symmetry along the first axis alone, and with each other one. */
  ghost predicate FirstWithEach(v: seq<Complex>, d: seq<nat>, axes: seq<nat>) {
    forall k | 0 <= k < |axes| :: ExactlySymmetric(v, d, {axes[0], axes[k]})
  }

  lemma FitsIsFirstWithEach(v: seq<Complex>, d: seq<nat>, axes: seq<nat>)
    requires |v| == Product(d) && Distinct(axes)
    ensures Fits(v, d, axes) <==> FirstWithEach(v, d, axes)
  {
    if axes != [] {
      var a := axes[0];
      assert {a, axes[0]} == {a};
      ExactByCoordinates(v, d, {a});
      assert FirstWithEach(v, d, axes) ==> ExactlySymmetric(v, d, {axes[0], axes[0]});
      if IsSymmetric(v, d, {a}) {
        forall k | 1 <= k < |axes| ensures ExactlySymmetric(v, d, {a, axes[k]}) <==> Even(v, d, {axes[k]}) {
          ExactByCoordinates(v, d, {a, axes[k]});
          EvenBeside(v, d, a, axes[k]);
        }
      }
    }
  }

  /** When enforcement makes no difference to the result. */
  lemma EnforcementKeeps(g: seq<Complex> -> seq<Complex>, v: seq<Complex>, d: seq<nat>, axes: seq<nat>)
    requires Lawful(g) && |v| == Product(d) && Distinct(axes)
    ensures EnforcedTransform(g, v, d, axes) == Plain(g, v, d, axes) <==> FirstWithEach(v, d, axes)
  {
    EnforcedIsPlain(g, v, d, axes);
    RefoldedFits(v, d, axes);
    FitsIsFirstWithEach(v, d, axes);
    if EnforcedTransform(g, v, d, axes) == Plain(g, v, d, axes) {
      PlainInjective(g, v, Refolded(v, d, axes), d, axes);
    }
  }
}
