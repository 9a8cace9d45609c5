/**
 Where the faces of the mesh lie between the corners of their tetrahedra.

 Along the normal of a kept face the field of its tetrahedron does not fall: the height of a corner above the
 plane of the face is a nonnegative multiple of its value above the iso-value.  So the corners below the
 iso-value are on the inner side of the face and the others on the outer side, and nothing is said here about
 how the extractor decides where to put a vertex or which way to wind a triangle.
 */
module LevelFaces {
  import opened Tetrahedra
  import opened Isosurface
  import opened Sealing
  import opened Surfaces
  import opened IsoMeshes
  import opened Determinants
  import opened Winding
  import opened ClosedSurface
  import opened OrientedSurface

  // ----- vertices

  /** The point is a fraction `t` of the way along the grid edge, and the field, linear along it, is at the iso-value there. */
  ghost predicate MeetsIso(f: Field, e: Edge, p: Vec, t: real)
    requires f.Valid() && e.first < |f.values| && e.second < |f.values|
  {
    && 0.0 <= t <= 1.0
    && p == Along(f.Position(e.first), f.Position(e.second), t)
    && f.values[e.first] + t * (f.values[e.second] - f.values[e.first]) == f.iso
  }

  lemma IsoPointMeets(f: Field, e: Edge) returns (t: real)
    requires f.Valid() && Crossing(f, e)
    ensures MeetsIso(f, e, IsoPoint(f, e), t)
  {
    var u, v := f.values[e.first], f.values[e.second];
    FractionInRange(u, v, f.iso);
    t := (f.iso - u) / (v - u);
    assert t * (v - u) == f.iso - u;
  }

  // ----- heights above a plane

  /** The height of a point above the plane through `base`, in units of the normal's length. */
  function Height(n: Vec, base: Vec, p: Vec): real {
    Dot(n, Sub(p, base))
  }

  lemma BetweenTimes(n: real, a: real, b: real, t: real, base: real)
    ensures n * (Between(a, b, t) - base) == n * (a - base) + t * (n * (b - base) - n * (a - base))
  {
    var d := b - a;
    assert n * (t * d) == t * (n * d);
    assert n * d == n * (b - base) - n * (a - base);
    Times(t, n * d, t, n * (b - base) - n * (a - base));
    assert n * (a + t * d - base) == n * (a - base) + n * (t * d);
  }

  lemma HeightAlong(n: Vec, base: Vec, a: Vec, b: Vec, t: real)
    ensures Height(n, base, Along(a, b, t)) == Height(n, base, a) + t * (Height(n, base, b) - Height(n, base, a))
  {
    BetweenTimes(n.x, a.x, b.x, t, base.x);
    BetweenTimes(n.y, a.y, b.y, t, base.y);
    BetweenTimes(n.z, a.z, b.z, t, base.z);
    Gather(t, n.x * (b.x - base.x) - n.x * (a.x - base.x), n.y * (b.y - base.y) - n.y * (a.y - base.y),
           n.z * (b.z - base.z) - n.z * (a.z - base.z), Height(n, base, b) - Height(n, base, a));
  }

  lemma Proportional(h: real, k: real, u: real, v: real, t: real)
    requires h + t * (k - h) == 0.0 && u + t * (v - u) == 0.0
    ensures h * v == k * u
  {
    var d := h * v - k * u;
    assert t * d == (t * h) * v - (t * k) * u;
    assert t * k == t * h - h && t * v == t * u - u;
    assert (t * h) * v == h * (t * v) && (t * k) * u == k * (t * u);
    ProportionalFrom(h, k, u, v, t * h, t * u, t * k, t * v, t);
  }

  lemma ProportionalFrom(h: real, k: real, u: real, v: real, th: real, tu: real, tk: real, tv: real, t: real)
    requires tk == th - h && tv == tu - u && th == t * h && tu == t * u && tk == t * k && tv == t * v
    ensures h * v == k * u
  {
    Times(h, tv, h, tu - u);
    Times(tk, u, th - h, u);
    assert t * (h * v) == h * tv == h * tu - h * u;
    assert t * (k * u) == tk * u == th * u - h * u;
    assert h * tu == t * (h * u) == th * u;
    Times(th, v, tk + h, v);
    Times(k, tu, k, tv + u);
    assert th * v == tk * v + h * v && k * tu == k * tv + k * u;
    assert th * v == t * (h * v) && tk * v == t * (k * v) == k * tv && k * tu == t * (k * u);
  }

  lemma Ratio(h: real, k: real, u: real, v: real, l: real)
    requires h * v == k * u && u != 0.0 && h == l * u
    ensures k == l * v
  {
    var d := k - l * v;
    assert d * u == k * u - (l * u) * v;
    assert d * u == 0.0;
  }

  // ----- heights of the corners of a cut tetrahedron

  /** The point between `p` and `q` at which the field, `u` at one end and `v` at the other, is at the iso-value. */
  ghost predicate Meets(p: Vec, q: Vec, u: real, v: real, iso: real, m: Vec) {
    exists t: real :: MeetsAt(p, q, u, v, iso, m, t)
  }

  ghost predicate MeetsAt(p: Vec, q: Vec, u: real, v: real, iso: real, m: Vec, t: real) {
    m == Along(p, q, t) && u + t * (v - u) == iso
  }

  lemma MeetsBack(p: Vec, q: Vec, u: real, v: real, iso: real, m: Vec)
    requires Meets(p, q, u, v, iso, m)
    ensures Meets(q, p, v, u, iso, m)
  {
    var t :| MeetsAt(p, q, u, v, iso, m, t);
    AlongReversed(p, q, t, 1.0 - t);
    OneReversed(u, v, t, 1.0 - t);
    assert MeetsAt(q, p, v, u, iso, m, 1.0 - t);
  }

  lemma AboveIso(u: real, v: real, iso: real, t: real)
    requires u + t * (v - u) == iso
    ensures (u - iso) + t * ((v - iso) - (u - iso)) == 0.0
  {
  }

  lemma StepBetween(h: real, k: real, u: real, v: real, iso: real, l: real, t: real)
    requires h + t * (k - h) == 0.0 && u + t * (v - u) == iso && h == l * (u - iso) && u != iso
    ensures k == l * (v - iso)
  {
    AboveIso(u, v, iso, t);
    Proportional(h, k, u - iso, v - iso, t);
    Ratio(h, k, u - iso, v - iso, l);
  }

  /** `height` gives heights above the plane; looked into only where `Unseal` is mentioned. */
  ghost predicate IsHeight(height: Vec -> real, n: Vec, base: Vec) {
    forall k {:trigger Unseal(k)} :: Unseal(k) ==> forall p {:trigger height(p)} :: height(p) == Height(n, base, p)
  }

  /** `slope` multiplies by `l`; looked into only where `Unseal` is mentioned. */
  ghost predicate IsSlope(slope: real -> real, l: real) {
    forall k {:trigger Unseal(k)} :: Unseal(k) ==> forall x {:trigger slope(x)} :: slope(x) == l * x
  }

  /** From one end of a cut edge to the other: heights are as the slope says of the values above the iso-value. */
  lemma HeightStep(height: Vec -> real, n: Vec, base: Vec, p: Vec, q: Vec, u: real, v: real, iso: real, m: Vec,
                   slope: real -> real, l: real)
    requires IsHeight(height, n, base) && IsSlope(slope, l) && Meets(p, q, u, v, iso, m) && height(m) == 0.0
    requires height(p) == slope(u - iso) && u != iso
    ensures height(q) == slope(v - iso)
  {
    var t := HeightMeets(height, n, base, p, q, u, v, iso, m);
    SlopeBetween(height(p), height(q), u, v, iso, slope, l, t);
  }

  lemma SlopeBetween(h: real, k: real, u: real, v: real, iso: real, slope: real -> real, l: real, t: real)
    requires h + t * (k - h) == 0.0 && u + t * (v - u) == iso && IsSlope(slope, l) && h == slope(u - iso) && u != iso
    ensures k == slope(v - iso)
  {
    assert Unseal(0);
    StepBetween(h, k, u, v, iso, l, t);
  }

  lemma HeightMeets(height: Vec -> real, n: Vec, base: Vec, p: Vec, q: Vec, u: real, v: real, iso: real, m: Vec) returns (t: real)
    requires IsHeight(height, n, base) && Meets(p, q, u, v, iso, m)
    ensures height(m) == height(p) + t * (height(q) - height(p)) && u + t * (v - u) == iso
  {
    t :| MeetsAt(p, q, u, v, iso, m, t);
    HeightAlong(n, base, p, q, t);
    assert Unseal(0);
  }

  lemma MeetsSomewhere(p: Vec, q: Vec, u: real, v: real, iso: real, m: Vec, t: real)
    requires MeetsAt(p, q, u, v, iso, m, t)
    ensures Meets(p, q, u, v, iso, m)
  {
  }

  lemma MeetsInOrder(f: Field, a: nat, b: nat, p: Vec, q: Vec, u: real, v: real)
    requires f.Valid() && a < b < |f.values| && f.Low(a) != f.Low(b)
    requires p == f.Position(a) && q == f.Position(b) && u == f.values[a] && v == f.values[b]
    ensures Crossing(f, Edge(a, b)) && Meets(p, q, u, v, f.iso, IsoPoint(f, Edge(a, b)))
  {
    var t := IsoPointMeets(f, Edge(a, b));
    MeetsSomewhere(p, q, u, v, f.iso, IsoPoint(f, Edge(a, b)), t);
  }

  /** Whichever end is named first. */
  lemma MeetsEither(f: Field, a: nat, b: nat)
    requires f.Valid() && a < |f.values| && b < |f.values| && f.Low(a) != f.Low(b)
    ensures Crossing(f, Key(a, b)) && Meets(f.Position(a), f.Position(b), f.values[a], f.values[b], f.iso, IsoPoint(f, Key(a, b)))
  {
    var p, q, u, v := f.Position(a), f.Position(b), f.values[a], f.values[b];
    if a < b {
      MeetsInOrder(f, a, b, p, q, u, v);
    } else {
      MeetsInOrder(f, b, a, q, p, v, u);
      MeetsBack(q, p, v, u, f.iso, IsoPoint(f, Edge(b, a)));
    }
  }

  /** The height of grid point `o` is what the slope makes of its value above the iso-value. */
  ghost predicate Level(f: Field, height: Vec -> real, slope: real -> real, o: nat)
    requires f.Valid() && o < |f.values|
  {
    height(f.Position(o)) == slope(f.values[o] - f.iso)
  }

  lemma SlopeFrom(h: real, d: real) returns (slope: real -> real, l: real)
    requires d != 0.0
    ensures IsSlope(slope, l) && h == slope(d)
  {
    l := h / d;
    assert l * d == h;
    slope := x => l * x;
  }

  /** The plane goes through the point at which the grid edge is cut. */
  ghost predicate Through(f: Field, height: Vec -> real, a: nat, b: nat)
    requires f.Valid()
  {
    a < |f.values| && b < |f.values| && exists m: Vec :: CutAt(f, height, a, b, m)
  }

  ghost predicate CutAt(f: Field, height: Vec -> real, a: nat, b: nat, m: Vec)
    requires f.Valid() && a < |f.values| && b < |f.values|
  {
    Meets(f.Position(a), f.Position(b), f.values[a], f.values[b], f.iso, m) && height(m) == 0.0
  }

  lemma ThroughIsoPoint(f: Field, height: Vec -> real, a: nat, b: nat)
    requires f.Valid() && a < |f.values| && b < |f.values| && f.Low(a) != f.Low(b)
    requires Crossing(f, Key(a, b)) ==> height(IsoPoint(f, Key(a, b))) == 0.0
    ensures Through(f, height, a, b) && Through(f, height, b, a)
  {
    MeetsEither(f, a, b);
    MeetsEither(f, b, a);
    assert CutAt(f, height, a, b, IsoPoint(f, Key(a, b)));
    assert CutAt(f, height, b, a, IsoPoint(f, Key(a, b)));
  }

  lemma LevelStep(f: Field, height: Vec -> real, n: Vec, base: Vec, slope: real -> real, l: real, a: nat, b: nat)
    requires f.Valid() && IsHeight(height, n, base) && IsSlope(slope, l) && Through(f, height, a, b)
    requires Level(f, height, slope, a) && f.values[a] != f.iso
    ensures Level(f, height, slope, b)
  {
    var m :| CutAt(f, height, a, b, m);
    HeightStep(height, n, base, f.Position(a), f.Position(b), f.values[a], f.values[b], f.iso, m, slope, l);
  }

  // ----- all four corners

  /** The heights of four corners are as the slope says. */
  ghost predicate Levels(f: Field, height: Vec -> real, slope: real -> real, a: nat, b: nat, c: nat, d: nat)
    requires f.Valid() && HasCorners(f, a, b, c, d)
  {
    Level(f, height, slope, a) && Level(f, height, slope, b) && Level(f, height, slope, c) && Level(f, height, slope, d)
  }

  lemma AroundCorner(f: Field, height: Vec -> real, n: Vec, base: Vec, a: nat, b: nat, c: nat, d: nat)
    returns (slope: real -> real, l: real)
    requires f.Valid() && IsHeight(height, n, base) && HasCorners(f, a, b, c, d) && f.values[a] != f.iso
    requires Through(f, height, a, b) && Through(f, height, a, c) && Through(f, height, a, d)
    ensures IsSlope(slope, l) && Levels(f, height, slope, a, b, c, d)
  {
    slope, l := SlopeFrom(height(f.Position(a)), f.values[a] - f.iso);
    LevelStep(f, height, n, base, slope, l, a, b);
    LevelStep(f, height, n, base, slope, l, a, c);
    LevelStep(f, height, n, base, slope, l, a, d);
  }

  lemma AlongPath(f: Field, height: Vec -> real, n: Vec, base: Vec, a: nat, b: nat, c: nat, d: nat)
    returns (slope: real -> real, l: real)
    requires f.Valid() && IsHeight(height, n, base) && HasCorners(f, a, b, c, d) && f.values[a] != f.iso && f.values[d] != f.iso
    requires Through(f, height, a, c) && Through(f, height, a, d) && Through(f, height, d, b)
    ensures IsSlope(slope, l) && Levels(f, height, slope, a, b, c, d)
  {
    slope, l := SlopeFrom(height(f.Position(a)), f.values[a] - f.iso);
    LevelStep(f, height, n, base, slope, l, a, c);
    LevelStep(f, height, n, base, slope, l, a, d);
    LevelStep(f, height, n, base, slope, l, d, b);
  }

  // ----- which side is up

  lemma Rise(height: Vec -> real, n: Vec, base: Vec, near: Vec, far: Vec)
    requires IsHeight(height, n, base)
    ensures Dot(n, Sub(far, near)) == height(far) - height(near)
  {
    assert Unseal(0);
    RiseAlong(n.x, far.x, near.x, base.x);
    RiseAlong(n.y, far.y, near.y, base.y);
    RiseAlong(n.z, far.z, near.z, base.z);
  }

  lemma RiseAlong(n: real, far: real, near: real, base: real)
    ensures n * (far - near) == n * (far - base) - n * (near - base)
  {
  }

  lemma RiseCombined(height: Vec -> real, n: Vec, base: Vec, c: Vec, p: Vec, q: Vec, r: Vec, s: Vec)
    requires IsHeight(height, n, base)
    ensures Dot(n, Combine(c, Sub(q, p), Sub(r, p), Sub(s, p)))
         == c.x * (height(q) - height(p)) + c.y * (height(r) - height(p)) + c.z * (height(s) - height(p))
  {
    DotCombine(n, c, Sub(q, p), Sub(r, p), Sub(s, p));
    Rise(height, n, base, p, q);
    Rise(height, n, base, p, r);
    Rise(height, n, base, p, s);
    Times(c.x, Dot(n, Sub(q, p)), c.x, height(q) - height(p));
    Times(c.y, Dot(n, Sub(r, p)), c.y, height(r) - height(p));
    Times(c.z, Dot(n, Sub(s, p)), c.z, height(s) - height(p));
  }

  /** From a corner to the middle of the opposite face and back, and between the middles of opposite edges. */
  lemma RiseOutward(height: Vec -> real, n: Vec, base: Vec, p: Vec, q: Vec, r: Vec, s: Vec, v: Vec, w: Vec, x: Vec)
    requires IsHeight(height, n, base)
    requires v == Combine(Vec(1.0 / 3.0, 1.0 / 3.0, 1.0 / 3.0), Sub(q, p), Sub(r, p), Sub(s, p))
    requires w == Combine(Vec(-1.0 / 3.0, -1.0 / 3.0, -1.0 / 3.0), Sub(q, p), Sub(r, p), Sub(s, p))
    requires x == Combine(Vec(-0.5, 0.5, 0.5), Sub(q, p), Sub(r, p), Sub(s, p))
    ensures 3.0 * Dot(n, v) == height(q) + height(r) + height(s) - 3.0 * height(p)
    ensures 3.0 * Dot(n, w) == 3.0 * height(p) - height(q) - height(r) - height(s)
    ensures 2.0 * Dot(n, x) == height(r) + height(s) - height(p) - height(q)
  {
    RiseCombined(height, n, base, Vec(1.0 / 3.0, 1.0 / 3.0, 1.0 / 3.0), p, q, r, s);
    RiseCombined(height, n, base, Vec(-1.0 / 3.0, -1.0 / 3.0, -1.0 / 3.0), p, q, r, s);
    RiseCombined(height, n, base, Vec(-0.5, 0.5, 0.5), p, q, r, s);
  }

  lemma SlopeSign(l: real, w: real, rise: real)
    requires w > 0.0 && rise == l * w && rise >= 0.0
    ensures l >= 0.0
  {
  }

  /** Heights that the slope makes of values, and that rise from the low corners to the others on average. */
  lemma SlopeRises(slope: real -> real, l: real, u: real, v: real, w: real, x: real, rise: real)
    requires IsSlope(slope, l) && rise >= 0.0
    requires || (rise == slope(v) + slope(w) + slope(x) - 3.0 * slope(u) && u < 0.0 && v >= 0.0 && w >= 0.0 && x >= 0.0)
             || (rise == 3.0 * slope(u) - slope(v) - slope(w) - slope(x) && u > 0.0 && v < 0.0 && w < 0.0 && x < 0.0)
             || (rise == slope(w) + slope(x) - slope(u) - slope(v) && u < 0.0 && v < 0.0 && w >= 0.0 && x >= 0.0)
    ensures l >= 0.0
  {
    assert Unseal(0);
    if v >= 0.0 {
      SlopeSign(l, v + w + x - 3.0 * u, rise);
    } else if u > 0.0 {
      SlopeSign(l, 3.0 * u - v - w - x, rise);
    } else {
      SlopeSign(l, w + x - u - v, rise);
    }
  }

  /** If the heights rise outward, the slope is not negative. */
  lemma LevelsRise(f: Field, height: Vec -> real, slope: real -> real, l: real, a: nat, b: nat, c: nat, d: nat, rise: real)
    requires f.Valid() && IsSlope(slope, l) && HasCorners(f, a, b, c, d) && Levels(f, height, slope, a, b, c, d) && rise >= 0.0
    requires var p, q, r, s := f.Position(a), f.Position(b), f.Position(c), f.Position(d);
      || (rise == height(q) + height(r) + height(s) - 3.0 * height(p) && f.Low(a) && !f.Low(b) && !f.Low(c) && !f.Low(d))
      || (rise == 3.0 * height(p) - height(q) - height(r) - height(s) && f.values[a] > f.iso && f.Low(b) && f.Low(c) && f.Low(d))
      || (rise == height(r) + height(s) - height(p) - height(q) && f.Low(a) && f.Low(b) && !f.Low(c) && !f.Low(d))
    ensures l >= 0.0
  {
    SlopeRises(slope, l, f.values[a] - f.iso, f.values[b] - f.iso, f.values[c] - f.iso, f.values[d] - f.iso, rise);
  }

  // ----- the triangles of a tetrahedron

  lemma CornersInPlane(a: Vec, b: Vec, c: Vec, n: Vec)
    requires n == Cross(Sub(b, a), Sub(c, a))
    ensures Height(n, a, a) == 0.0 && Height(n, a, b) == 0.0 && Height(n, a, c) == 0.0
  {
    var u, v := Sub(b, a), Sub(c, a);
    Determinant(u, v, u);
    Determinant(u, v, v);
  }

  /** The plane goes through every vertex of the triangle. */
  ghost predicate InPlane(f: Field, height: Vec -> real, u: Triangle)
    requires f.Valid() && Crosses(f, u)
  {
    height(IsoPoint(f, u.a)) == 0.0 && height(IsoPoint(f, u.b)) == 0.0 && height(IsoPoint(f, u.c)) == 0.0
  }

  lemma HeightOf(f: Field, u: Triangle, n: Vec, base: Vec) returns (height: Vec -> real)
    requires f.Valid() && Crosses(f, u) && n == Normal(f, u) && base == IsoPoint(f, u.a)
    ensures IsHeight(height, n, base) && InPlane(f, height, u)
  {
    height := p => Height(n, base, p);
    CornersInPlane(base, IsoPoint(f, u.b), IsoPoint(f, u.c), n);
  }

  /** Winding does not matter for visibility, nor for the plane. */
  lemma InPlaneOriented(f: Field, height: Vec -> real, t: Triangle, w: Vec)
    requires f.Valid() && Crosses(f, t)
    ensures InPlane(f, height, Oriented(f, t, w)) <==> InPlane(f, height, t)
    ensures Visible(f, Oriented(f, t, w)) <==> Visible(f, t)
  {
    VisibleSwapped(f, t);
  }

  /** At an end that is at the iso-value the edge is cut in that end. */
  lemma CutAtEnd(f: Field, i: nat, o: nat)
    requires f.Valid() && i < |f.values| && o < |f.values| && f.Low(i) && f.values[o] == f.iso
    ensures Crossing(f, Key(i, o)) && IsoPoint(f, Key(i, o)) == f.Position(o)
  {
    var t := IsoPointFrom(f, i, o);
    AlongNowhere(f.Position(i), f.Position(o));
  }

  /** A visible quadrilateral half is not cut in an outside corner that two of its edges share. */
  lemma SharedCornerAbove(f: Field, t: Triangle, i: nat, j: nat, o: nat)
    requires f.Valid() && Crosses(f, t) && Visible(f, t)
    requires i < |f.values| && j < |f.values| && o < |f.values| && f.Low(i) && f.Low(j) && !f.Low(o)
    requires t.c == Key(j, o) && (t.a == Key(i, o) || t.b == Key(i, o))
    ensures f.values[o] != f.iso
  {
    if f.values[o] == f.iso {
      CutAtEnd(f, i, o);
      CutAtEnd(f, j, o);
      FlatWinds(f, t, Vec(0.0, 0.0, 0.0), 0.0);
    }
  }

  /** Heights above a triangle are a nonnegative multiple of the values above the iso-value at the four corners. */
  ghost predicate Climbs(f: Field, height: Vec -> real, a: nat, b: nat, c: nat, d: nat)
    requires f.Valid() && HasCorners(f, a, b, c, d)
  {
    exists slope: real -> real, l: real :: ClimbsBy(f, height, a, b, c, d, slope, l)
  }

  ghost predicate ClimbsBy(f: Field, height: Vec -> real, a: nat, b: nat, c: nat, d: nat, slope: real -> real, l: real)
    requires f.Valid() && HasCorners(f, a, b, c, d)
  {
    IsSlope(slope, l) && l >= 0.0 && Levels(f, height, slope, a, b, c, d)
  }

  lemma CornerClimbs(f: Field, height: Vec -> real, n: Vec, base: Vec, a: nat, b: nat, c: nat, d: nat, rise: real)
    requires f.Valid() && HasCorners(f, a, b, c, d) && f.Low(b) == f.Low(c) == f.Low(d) && f.Low(a) != f.Low(b)
    requires var t := Triangle(Key(a, b), Key(a, c), Key(a, d));
             Crosses(f, t) && InPlane(f, height, t) && IsHeight(height, n, base)
    requires f.values[a] != f.iso && rise >= 0.0
    requires var p, q, r, s := f.Position(a), f.Position(b), f.Position(c), f.Position(d);
             rise == (if f.Low(a) then height(q) + height(r) + height(s) - 3.0 * height(p)
                      else 3.0 * height(p) - height(q) - height(r) - height(s))
    ensures Climbs(f, height, a, b, c, d)
  {
    ThroughIsoPoint(f, height, a, b);
    ThroughIsoPoint(f, height, a, c);
    ThroughIsoPoint(f, height, a, d);
    var slope, l := AroundCorner(f, height, n, base, a, b, c, d);
    LevelsRise(f, height, slope, l, a, b, c, d, rise);
    assert ClimbsBy(f, height, a, b, c, d, slope, l);
  }

  /** The half of a quadrilateral that is cut in the edges `a-c`, `a-d` and `b-d`. */
  lemma MiddleClimbs(f: Field, height: Vec -> real, n: Vec, base: Vec, a: nat, b: nat, c: nat, d: nat, rise: real)
    requires f.Valid() && HasCorners(f, a, b, c, d) && f.Low(a) && f.Low(b) && !f.Low(c) && !f.Low(d)
    requires var t := Triangle(Key(a, c), Key(a, d), Key(b, d));
             Crosses(f, t) && InPlane(f, height, t) && IsHeight(height, n, base)
    requires f.values[d] != f.iso && rise >= 0.0
    requires rise == height(f.Position(c)) + height(f.Position(d)) - height(f.Position(a)) - height(f.Position(b))
    ensures Climbs(f, height, a, b, c, d)
  {
    ThroughIsoPoint(f, height, a, c);
    ThroughIsoPoint(f, height, a, d);
    ThroughIsoPoint(f, height, b, d);
    var slope, l := AlongPath(f, height, n, base, a, b, c, d);
    LevelsRise(f, height, slope, l, a, b, c, d, rise);
    assert ClimbsBy(f, height, a, b, c, d, slope, l);
  }

  /** How much heights rise outward, in the three kinds of cut. */
  lemma OutwardRises(f: Field, height: Vec -> real, n: Vec, base: Vec, a: nat, b: nat, c: nat, d: nat)
    requires f.Valid() && HasCorners(f, a, b, c, d) && IsHeight(height, n, base)
    ensures f.Covers([a]) && f.Covers([b, c, d]) && f.Covers([a, b]) && f.Covers([c, d])
    ensures var p, q, r, s := f.Position(a), f.Position(b), f.Position(c), f.Position(d);
            && 3.0 * Dot(n, Outward(f, [a], [b, c, d])) == height(q) + height(r) + height(s) - 3.0 * height(p)
            && 3.0 * Dot(n, Outward(f, [b, c, d], [a])) == 3.0 * height(p) - height(q) - height(r) - height(s)
            && 2.0 * Dot(n, Outward(f, [a, b], [c, d])) == height(r) + height(s) - height(p) - height(q)
  {
    CornerOutward(f, a, b, c, d);
    EdgeOutward(f, a, b, c, d);
    RiseOutward(height, n, base, f.Position(a), f.Position(b), f.Position(c), f.Position(d),
                Outward(f, [a], [b, c, d]), Outward(f, [b, c, d], [a]), Outward(f, [a, b], [c, d]));
  }

  /** The visible triangle `u` is `t` wound along `w`. */
  ghost predicate WoundAlong(f: Field, t: Triangle, w: Vec, u: Triangle)
    requires f.Valid()
  {
    Crosses(f, t) && u == Oriented(f, t, w) && Visible(f, u)
  }

  lemma OneInsideClimbs(f: Field, a: nat, b: nat, c: nat, d: nat, u: Triangle, height: Vec -> real, n: Vec, base: Vec, w: Vec)
    requires f.Valid() && HasCorners(f, a, b, c, d) && f.Low(a) && !f.Low(b) && !f.Low(c) && !f.Low(d)
    requires f.Covers([a]) && f.Covers([b, c, d]) && w == Outward(f, [a], [b, c, d])
    requires WoundAlong(f, Triangle(Key(a, b), Key(a, c), Key(a, d)), w, u)
    requires IsHeight(height, n, base) && n == Normal(f, u) && InPlane(f, height, u)
    ensures Climbs(f, height, a, b, c, d)
  {
    InPlaneOriented(f, height, Triangle(Key(a, b), Key(a, c), Key(a, d)), w);
    OutwardRises(f, height, n, base, a, b, c, d);
    CornerClimbs(f, height, n, base, a, b, c, d, 3.0 * Dot(n, w));
  }

  lemma OneOutsideClimbs(f: Field, a: nat, b: nat, c: nat, d: nat, u: Triangle, height: Vec -> real, n: Vec, base: Vec, w: Vec)
    requires f.Valid() && HasCorners(f, a, b, c, d) && !f.Low(a) && f.Low(b) && f.Low(c) && f.Low(d)
    requires f.Covers([a]) && f.Covers([b, c, d]) && w == Outward(f, [b, c, d], [a])
    requires WoundAlong(f, Triangle(Key(a, b), Key(a, c), Key(a, d)), w, u)
    requires IsHeight(height, n, base) && n == Normal(f, u) && InPlane(f, height, u)
    ensures Climbs(f, height, a, b, c, d)
  {
    InPlaneOriented(f, height, Triangle(Key(a, b), Key(a, c), Key(a, d)), w);
    OutsideCorner(f, a, b, c, d);
    OutwardRises(f, height, n, base, a, b, c, d);
    CornerClimbs(f, height, n, base, a, b, c, d, 3.0 * Dot(n, w));
  }

  lemma FirstHalfClimbs(f: Field, a: nat, b: nat, c: nat, d: nat, u: Triangle, height: Vec -> real, n: Vec, base: Vec, w: Vec)
    requires f.Valid() && HasCorners(f, a, b, c, d) && f.Low(a) && f.Low(b) && !f.Low(c) && !f.Low(d)
    requires f.Covers([a, b]) && f.Covers([c, d]) && w == Outward(f, [a, b], [c, d])
    requires WoundAlong(f, Triangle(Key(a, c), Key(a, d), Key(b, d)), w, u)
    requires IsHeight(height, n, base) && n == Normal(f, u) && InPlane(f, height, u)
    ensures Climbs(f, height, a, b, c, d)
  {
    var t := Triangle(Key(a, c), Key(a, d), Key(b, d));
    InPlaneOriented(f, height, t, w);
    SharedCornerAbove(f, t, a, b, d);
    OutwardRises(f, height, n, base, a, b, c, d);
    MiddleClimbs(f, height, n, base, a, b, c, d, 2.0 * Dot(n, w));
  }

  lemma SecondHalfClimbs(f: Field, a: nat, b: nat, c: nat, d: nat, u: Triangle, height: Vec -> real, n: Vec, base: Vec, w: Vec)
    requires f.Valid() && HasCorners(f, a, b, c, d) && f.Low(a) && f.Low(b) && !f.Low(c) && !f.Low(d)
    requires f.Covers([a, b]) && f.Covers([c, d]) && w == Outward(f, [a, b], [c, d])
    requires WoundAlong(f, Triangle(Key(a, c), Key(b, d), Key(b, c)), w, u)
    requires IsHeight(height, n, base) && n == Normal(f, u) && InPlane(f, height, u)
    ensures Climbs(f, height, b, a, d, c)
  {
    var t := Triangle(Key(a, c), Key(b, d), Key(b, c));
    InPlaneOriented(f, height, t, w);
    SharedCornerAbove(f, t, a, b, c);
    OutwardRises(f, height, n, base, a, b, c, d);
    assert InPlane(f, height, Triangle(Key(b, d), Key(b, c), Key(a, c)));
    MiddleClimbs(f, height, n, base, b, a, d, c, 2.0 * Dot(n, w));
  }

  /**
   The triangle with corners `a`, `b` and `c` lies level in the field: along its normal the field of the
   grid points `q`, which is linear between them, does not fall.
   */
  ghost predicate LiesLevel(f: Field, q: seq<nat>, a: Vec, b: Vec, c: Vec)
    requires f.Valid() && f.Covers(q)
  {
    exists l: real :: LiesLevelBy(f, q, a, b, c, l)
  }

  ghost predicate LiesLevelBy(f: Field, q: seq<nat>, a: Vec, b: Vec, c: Vec, l: real)
    requires f.Valid() && f.Covers(q)
  {
    l >= 0.0 && forall i | 0 <= i < |q| :: IsAt(Cross(Sub(b, a), Sub(c, a)), a, f.Position(q[i]), l, f.values[q[i]] - f.iso)
  }

  /** The height of `p` is `l` times the value. */
  predicate IsAt(n: Vec, base: Vec, p: Vec, l: real, value: real) {
    Dot(n, Sub(p, base)) == l * value
  }

  lemma HeightIsAt(height: Vec -> real, n: Vec, base: Vec, p: Vec, slope: real -> real, l: real, value: real)
    requires IsHeight(height, n, base) && IsSlope(slope, l) && height(p) == slope(value)
    ensures IsAt(n, base, p, l, value)
  {
    assert Unseal(0);
  }

  lemma ClimbsIsLevel(f: Field, q: seq<nat>, height: Vec -> real, n: Vec, base: Vec, g: Vec, h: Vec, a: nat, b: nat, c: nat, d: nat)
    requires f.Valid() && f.Covers(q) && HasCorners(f, a, b, c, d) && Climbs(f, height, a, b, c, d)
    requires IsHeight(height, n, base) && n == Cross(Sub(g, base), Sub(h, base))
    requires forall i | 0 <= i < |q| :: q[i] == a || q[i] == b || q[i] == c || q[i] == d
    ensures LiesLevel(f, q, base, g, h)
  {
    var slope, l :| ClimbsBy(f, height, a, b, c, d, slope, l);
    forall i | 0 <= i < |q| ensures IsAt(n, base, f.Position(q[i]), l, f.values[q[i]] - f.iso) {
      assert Level(f, height, slope, q[i]);
      HeightIsAt(height, n, base, f.Position(q[i]), slope, l, f.values[q[i]] - f.iso);
    }
    assert LiesLevelBy(f, q, base, g, h, l);
  }

  lemma CornerLiesLevel(f: Field, a: nat, b: nat, c: nat, d: nat, q: seq<nat>, u: Triangle, w: Vec,
                        height: Vec -> real, n: Vec, base: Vec)
    requires f.Valid() && HasCorners(f, a, b, c, d) && f.Low(b) == f.Low(c) == f.Low(d) && f.Low(a) != f.Low(b)
    requires f.Covers(q) && forall i | 0 <= i < |q| :: q[i] == a || q[i] == b || q[i] == c || q[i] == d
    requires f.Covers([a]) && f.Covers([b, c, d])
    requires w == if f.Low(a) then Outward(f, [a], [b, c, d]) else Outward(f, [b, c, d], [a])
    requires WoundAlong(f, Triangle(Key(a, b), Key(a, c), Key(a, d)), w, u)
    requires IsHeight(height, n, base) && n == Normal(f, u) && base == IsoPoint(f, u.a) && InPlane(f, height, u)
    ensures LiesLevel(f, q, base, IsoPoint(f, u.b), IsoPoint(f, u.c))
  {
    if f.Low(a) {
      OneInsideClimbs(f, a, b, c, d, u, height, n, base, w);
    } else {
      OneOutsideClimbs(f, a, b, c, d, u, height, n, base, w);
    }
    ClimbsIsLevel(f, q, height, n, base, IsoPoint(f, u.b), IsoPoint(f, u.c), a, b, c, d);
  }

  lemma HalfLiesLevel(f: Field, a: nat, b: nat, c: nat, d: nat, q: seq<nat>, t: Triangle, u: Triangle, w: Vec,
                      height: Vec -> real, n: Vec, base: Vec)
    requires f.Valid() && HasCorners(f, a, b, c, d) && f.Low(a) && f.Low(b) && !f.Low(c) && !f.Low(d)
    requires f.Covers(q) && forall i | 0 <= i < |q| :: q[i] == a || q[i] == b || q[i] == c || q[i] == d
    requires t == Triangle(Key(a, c), Key(a, d), Key(b, d)) || t == Triangle(Key(a, c), Key(b, d), Key(b, c))
    requires f.Covers([a, b]) && f.Covers([c, d]) && w == Outward(f, [a, b], [c, d]) && WoundAlong(f, t, w, u)
    requires IsHeight(height, n, base) && n == Normal(f, u) && base == IsoPoint(f, u.a) && InPlane(f, height, u)
    ensures LiesLevel(f, q, base, IsoPoint(f, u.b), IsoPoint(f, u.c))
  {
    var g, h := IsoPoint(f, u.b), IsoPoint(f, u.c);
    if t == Triangle(Key(a, c), Key(a, d), Key(b, d)) {
      FirstHalfClimbs(f, a, b, c, d, u, height, n, base, w);
      ClimbsIsLevel(f, q, height, n, base, g, h, a, b, c, d);
    } else {
      SecondHalfClimbs(f, a, b, c, d, u, height, n, base, w);
      ClimbsIsLevel(f, q, height, n, base, g, h, b, a, d, c);
    }
  }

  /** Triangle `u` is `t`, one of those cut between the corners, wound along `w`; looked into only where `Unseal` is mentioned. */
  ghost predicate CutBetween(f: Field, ins: seq<nat>, outs: seq<nat>, q: seq<nat>, t: Triangle, u: Triangle, w: Vec,
                             height: Vec -> real, n: Vec, base: Vec)
    requires f.Valid()
  {
    forall k {:trigger Unseal(k)} :: Unseal(k) ==>
      && Divides(f, ins, outs) && ins != [] && outs != [] && t in Cut(ins, outs)
      && (forall i | 0 <= i < |q| :: q[i] in ins || q[i] in outs)
      && w == Outward(f, ins, outs) && WoundAlong(f, t, w, u)
      && IsHeight(height, n, base) && n == Normal(f, u) && base == IsoPoint(f, u.a) && InPlane(f, height, u)
  }

  lemma OneInsideLevel(f: Field, ins: seq<nat>, outs: seq<nat>, q: seq<nat>, t: Triangle, u: Triangle, w: Vec,
              height: Vec -> real, n: Vec, base: Vec, a: nat, b: nat, c: nat, d: nat)
    requires f.Valid() && f.Covers(q) && Crosses(f, u) && ins == [a] && outs == [b, c, d]
    requires CutBetween(f, ins, outs, q, t, u, w, height, n, base)
    ensures LiesLevel(f, q, base, IsoPoint(f, u.b), IsoPoint(f, u.c))
  {
    assert Unseal(0);
    assert ins[0] == a && outs[0] == b && outs[1] == c && outs[2] == d;
    CornerLiesLevel(f, a, b, c, d, q, u, w, height, n, base);
  }

  lemma OneOutsideLevel(f: Field, ins: seq<nat>, outs: seq<nat>, q: seq<nat>, t: Triangle, u: Triangle, w: Vec,
              height: Vec -> real, n: Vec, base: Vec, a: nat, b: nat, c: nat, d: nat)
    requires f.Valid() && f.Covers(q) && Crosses(f, u) && outs == [a] && ins == [b, c, d]
    requires CutBetween(f, ins, outs, q, t, u, w, height, n, base)
    ensures LiesLevel(f, q, base, IsoPoint(f, u.b), IsoPoint(f, u.c))
  {
    assert Unseal(0);
    assert outs[0] == a && ins[0] == b && ins[1] == c && ins[2] == d;
    CornerLiesLevel(f, a, b, c, d, q, u, w, height, n, base);
  }

  lemma TwoInsideLevel(f: Field, ins: seq<nat>, outs: seq<nat>, q: seq<nat>, t: Triangle, u: Triangle, w: Vec,
              height: Vec -> real, n: Vec, base: Vec, a: nat, b: nat, c: nat, d: nat)
    requires f.Valid() && f.Covers(q) && Crosses(f, u) && ins == [a, b] && outs == [c, d]
    requires CutBetween(f, ins, outs, q, t, u, w, height, n, base)
    ensures LiesLevel(f, q, base, IsoPoint(f, u.b), IsoPoint(f, u.c))
  {
    assert Unseal(0);
    assert ins[0] == a && ins[1] == b && outs[0] == c && outs[1] == d;
    HalfLiesLevel(f, a, b, c, d, q, t, u, w, height, n, base);
  }

  lemma CutLiesLevel(f: Field, ins: seq<nat>, outs: seq<nat>, q: seq<nat>, t: Triangle, u: Triangle, w: Vec,
                     height: Vec -> real, n: Vec, base: Vec)
    requires f.Valid() && f.Covers(q) && Crosses(f, u) && |ins| + |outs| == 4 && ins != [] && outs != []
    requires CutBetween(f, ins, outs, q, t, u, w, height, n, base)
    ensures LiesLevel(f, q, base, IsoPoint(f, u.b), IsoPoint(f, u.c))
  {
    if |ins| == 1 {
      OneInsideLevel(f, ins, outs, q, t, u, w, height, n, base, ins[0], outs[0], outs[1], outs[2]);
    } else if |ins| == 3 {
      OneOutsideLevel(f, ins, outs, q, t, u, w, height, n, base, outs[0], ins[0], ins[1], ins[2]);
    } else {
      TwoInsideLevel(f, ins, outs, q, t, u, w, height, n, base, ins[0], ins[1], outs[0], outs[1]);
    }
  }

  lemma PartsCoverAll(f: Field, q: seq<nat>)
    requires f.Covers(q)
    ensures forall i | 0 <= i < |q| :: q[i] in Below(f, q) || q[i] in NotBelow(f, q)
  {
    forall i | 0 <= i < |q| ensures q[i] in Below(f, q) || q[i] in NotBelow(f, q) {
      PartsMembers(f, q, q[i]);
    }
  }

  lemma PatchMember(f: Field, t: Tetrahedron, u: Triangle, ins: seq<nat>, outs: seq<nat>) returns (cut: Triangle, w: Vec)
    requires f.Valid() && f.extents.HasTetrahedron(t) && u in Patch(f, t)
    requires ins == Below(f, CornerOffsets(f, t)) && outs == NotBelow(f, CornerOffsets(f, t))
    ensures ins != [] && outs != [] && w == Outward(f, ins, outs)
    ensures cut in Cut(ins, outs) && Crosses(f, cut) && u == Oriented(f, cut, w)
  {
    CutCrosses(f, CornerOffsets(f, t));
    var k :| 0 <= k < |Patch(f, t)| && Patch(f, t)[k] == u;
    cut, w := Cut(ins, outs)[k], Outward(f, ins, outs);
  }

  lemma WoundLiesLevel(f: Field, ins: seq<nat>, outs: seq<nat>, q: seq<nat>, t: Triangle, u: Triangle, w: Vec)
    requires f.Valid() && f.Covers(q) && Divides(f, ins, outs) && ins != [] && outs != [] && t in Cut(ins, outs)
    requires forall i | 0 <= i < |q| :: q[i] in ins || q[i] in outs
    requires w == Outward(f, ins, outs) && WoundAlong(f, t, w, u)
    ensures LiesLevel(f, q, IsoPoint(f, u.a), IsoPoint(f, u.b), IsoPoint(f, u.c))
  {
    var n, base := Normal(f, u), IsoPoint(f, u.a);
    var height := HeightOf(f, u, n, base);
    CutLiesLevel(f, ins, outs, q, t, u, w, height, n, base);
  }

  /** Every visible triangle that a tetrahedron contributes lies level between its corners. */
  lemma PatchLiesLevel(f: Field, t: Tetrahedron, u: Triangle)
    requires f.Valid() && f.extents.HasTetrahedron(t) && u in Patch(f, t) && Crosses(f, u) && Visible(f, u)
    ensures LiesLevel(f, CornerOffsets(f, t), IsoPoint(f, u.a), IsoPoint(f, u.b), IsoPoint(f, u.c))
  {
    var q := CornerOffsets(f, t);
    var ins, outs := Below(f, q), NotBelow(f, q);
    PartsDivide(f, t);
    PartsCoverAll(f, q);
    var cut, w := PatchMember(f, t, u, ins, outs);
    WoundLiesLevel(f, ins, outs, q, cut, u, w);
  }
}
