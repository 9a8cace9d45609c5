/**
 How the triangles of a cut tetrahedron are wound.

 The extractor winds each triangle along the vector from the inside corners to the outside ones.  That
 decision comes out the same for every visible triangle of a tetrahedron and depends on nothing but
 which way its corners turn: not on the values of the field, nor on where the edges are cut.
 */
module Winding {
  import opened Isosurface
  import opened Sealing
  import opened Determinants
  import opened IsoMeshes

  predicate HasCorners(f: Field, a: nat, b: nat, c: nat, d: nat) {
    a < |f.values| && b < |f.values| && c < |f.values| && d < |f.values|
  }

  /** Six times the signed volume of the tetrahedron with the given corners. */
  function Turn(f: Field, a: nat, b: nat, c: nat, d: nat): real
    requires f.Valid() && HasCorners(f, a, b, c, d)
  {
    TurnOf(f.Position(a), f.Position(b), f.Position(c), f.Position(d))
  }

  function TurnOf(a: Vec, b: Vec, c: Vec, d: Vec): real {
    Det(Sub(b, a), Sub(c, a), Sub(d, a))
  }

  // ----- where an edge is cut

  lemma FractionFrom(n: real, d: real, t: real)
    requires 0.0 < n <= d && t * d == n
    ensures 0.0 < t <= 1.0 && (t == 1.0 <==> n == d)
  {
  }

  /** The iso-point seen from the inside end of its edge. */
  lemma IsoPointFrom(f: Field, i: nat, o: nat) returns (t: real)
    requires f.Valid() && i < |f.values| && o < |f.values| && f.Low(i) && !f.Low(o)
    ensures 0.0 < t <= 1.0 && (t == 1.0 <==> f.values[o] == f.iso)
    ensures Crossing(f, Key(i, o)) && IsoPoint(f, Key(i, o)) == Along(f.Position(i), f.Position(o), t)
  {
    var u, v := f.values[i], f.values[o];
    t := (f.iso - u) / (v - u);
    assert t * (v - u) == f.iso - u;
    FractionFrom(f.iso - u, v - u, t);
    InterpolatedIsIsoPoint(f, i, o);
  }

  // ----- the direction outward

  lemma MeanOfFew(f: Field, a: nat, b: nat, c: nat)
    requires f.Valid() && HasCorners(f, a, b, c, c)
    ensures f.Covers([a]) && f.Covers([a, b]) && f.Covers([a, b, c])
    ensures var p, q, r := f.Position(a), f.Position(b), f.Position(c);
            && Mean(f, [a]) == p
            && Mean(f, [a, b]) == Vec((p.x + q.x) / 2.0, (p.y + q.y) / 2.0, (p.z + q.z) / 2.0)
            && Mean(f, [a, b, c]) == Vec((p.x + q.x + r.x) / 3.0, (p.y + q.y + r.y) / 3.0, (p.z + q.z + r.z) / 3.0)
  {
    assert [a, b, c][0] == a && [a, b, c][1] == b;
    assert [a][..0] == [] && [a, b][..1] == [a] && [a, b, c][..2] == [a, b];
    assert SumOfPositions(f, [a]) == f.Position(a);
  }

  /** From a corner to the middle of the opposite face. */
  lemma OutwardOfCorner(a: Vec, b: Vec, c: Vec, d: Vec, middle: Vec)
    requires middle == Vec((b.x + c.x + d.x) / 3.0, (b.y + c.y + d.y) / 3.0, (b.z + c.z + d.z) / 3.0)
    ensures Sub(middle, a) == Combine(Vec(1.0 / 3.0, 1.0 / 3.0, 1.0 / 3.0), Sub(b, a), Sub(c, a), Sub(d, a))
    ensures Sub(a, middle) == Combine(Vec(-1.0 / 3.0, -1.0 / 3.0, -1.0 / 3.0), Sub(b, a), Sub(c, a), Sub(d, a))
  {
  }

  /** From the middle of an edge to the middle of the opposite edge. */
  lemma OutwardOfEdge(a: Vec, b: Vec, c: Vec, d: Vec, near: Vec, far: Vec)
    requires near == Vec((a.x + b.x) / 2.0, (a.y + b.y) / 2.0, (a.z + b.z) / 2.0)
    requires far == Vec((c.x + d.x) / 2.0, (c.y + d.y) / 2.0, (c.z + d.z) / 2.0)
    ensures Sub(far, near) == Combine(Vec(-0.5, 0.5, 0.5), Sub(b, a), Sub(c, a), Sub(d, a))
  {
  }

  // ----- the coefficients of the normals

  lemma CornerFactor(x: real, y: real, z: real, m: real, factor: real)
    requires factor == y * z + x * z + x * y
    ensures Det(Sub(Vec(0.0, y, 0.0), Vec(x, 0.0, 0.0)), Sub(Vec(0.0, 0.0, z), Vec(x, 0.0, 0.0)), Vec(m, m, m))
         == m * factor
  {
    Times(m, factor, m, y * z + x * z + x * y);
    Determinant(Vec(0.0 - x, y, 0.0), Vec(0.0 - x, 0.0, z), Vec(m, m, m));
  }

  lemma FirstFactor(p: real, q: real, s: real, factor: real)
    requires factor == q * (1.0 - s) + p * (1.0 - q)
    ensures Det(Sub(Vec(0.0, 0.0, q), Vec(0.0, p, 0.0)), Sub(Vec(1.0 - s, 0.0, s), Vec(0.0, p, 0.0)), Vec(-0.5, 0.5, 0.5))
         == 0.5 * factor
  {
    Determinant(Vec(0.0, 0.0 - p, q), Vec(1.0 - s, 0.0 - p, s), Vec(-0.5, 0.5, 0.5));
  }

  lemma SecondFactor(p: real, r: real, s: real, factor: real)
    requires factor == s * (1.0 - r) + r * (1.0 - p)
    ensures Det(Sub(Vec(1.0 - s, 0.0, s), Vec(0.0, p, 0.0)), Sub(Vec(1.0 - r, r, 0.0), Vec(0.0, p, 0.0)), Vec(-0.5, 0.5, 0.5))
         == 0.5 * factor
  {
    Determinant(Vec(1.0 - s, 0.0 - p, s), Vec(1.0 - r, r - p, 0.0), Vec(-0.5, 0.5, 0.5));
  }

  // ----- the triangles against the direction outward

  /** Winding along `outward` is decided by the sign of `turn`; looked into only where `Unseal` is mentioned. */
  ghost predicate Winds(f: Field, t: Triangle, outward: Vec, turn: real)
    requires f.Valid() && Crosses(f, t)
  {
    forall k {:trigger Unseal(k)} :: Unseal(k) ==>
      Visible(f, t) ==> Oriented(f, t, outward) == if turn < 0.0 then Triangle(t.a, t.c, t.b) else t
  }

  /** The normal of a triangle points against the direction. */
  predicate Against(e: Vec, g: Vec, h: Vec, direction: Vec) {
    Dot(Cross(Sub(g, e), Sub(h, e)), direction) < 0.0
  }

  lemma WindsAt(f: Field, t: Triangle, e: Vec, g: Vec, h: Vec, w: Vec, turn: real)
    requires f.Valid() && Crosses(f, t)
    requires IsoPoint(f, t.a) == e && IsoPoint(f, t.b) == g && IsoPoint(f, t.c) == h
    requires Against(e, g, h, w) <==> turn < 0.0
    ensures Winds(f, t, w, turn)
  {
  }

  lemma SignOfScaled(m: real, factor: real, turn: real, product: real)
    requires factor > 0.0 && m != 0.0 && product == (m * factor) * turn
    ensures product < 0.0 <==> (if m > 0.0 then turn else 0.0 - turn) < 0.0
  {
    var k := m * factor;
    assert m > 0.0 ==> k > 0.0;
    assert m < 0.0 ==> k < 0.0;
    assert product == k * turn;
  }

  lemma NoArea(e: Vec, g: Vec, h: Vec)
    requires e == h || g == h
    ensures var n := Cross(Sub(g, e), Sub(h, e)); Dot(n, n) == 0.0
  {
    var u, v := Sub(g, e), Sub(h, e);
    var n := Cross(u, v);
    assert n == Vec(0.0, 0.0, 0.0);
  }

  /** Triangles with two corners in one place are not visible. */
  lemma FlatWinds(f: Field, t: Triangle, outward: Vec, turn: real)
    requires f.Valid() && Crosses(f, t)
    requires IsoPoint(f, t.a) == IsoPoint(f, t.c) || IsoPoint(f, t.b) == IsoPoint(f, t.c)
    ensures !Visible(f, t) && Winds(f, t, outward, turn)
  {
    NoArea(IsoPoint(f, t.a), IsoPoint(f, t.b), IsoPoint(f, t.c));
  }

  lemma PairsPositive(x: real, y: real, z: real) returns (factor: real)
    requires x > 0.0 && y > 0.0 && z > 0.0
    ensures factor == y * z + x * z + x * y && factor > 0.0
  {
    factor := y * z + x * z + x * y;
    assert y * z > 0.0 && x * z > 0.0 && x * y > 0.0;
  }

  /** The direction outward when one corner is on one side of the iso-value. */
  lemma CornerOutward(f: Field, a: nat, b: nat, c: nat, d: nat)
    requires f.Valid() && HasCorners(f, a, b, c, d)
    ensures f.Covers([a]) && f.Covers([b, c, d])
    ensures var p, q, r, s := f.Position(a), f.Position(b), f.Position(c), f.Position(d);
            && Outward(f, [a], [b, c, d]) == Combine(Vec(1.0 / 3.0, 1.0 / 3.0, 1.0 / 3.0), Sub(q, p), Sub(r, p), Sub(s, p))
            && Outward(f, [b, c, d], [a]) == Combine(Vec(-1.0 / 3.0, -1.0 / 3.0, -1.0 / 3.0), Sub(q, p), Sub(r, p), Sub(s, p))
  {
    MeanOfFew(f, a, a, a);
    MeanOfFew(f, b, c, d);
    OutwardOfCorner(f.Position(a), f.Position(b), f.Position(c), f.Position(d), Mean(f, [b, c, d]));
  }

  /** The triangle cut off a corner at given fractions of its edges. */
  lemma CornerSign(a: Vec, b: Vec, c: Vec, d: Vec, x: real, y: real, z: real, w: Vec, m: real)
    requires x > 0.0 && y > 0.0 && z > 0.0 && m != 0.0
    requires w == Combine(Vec(m, m, m), Sub(b, a), Sub(c, a), Sub(d, a))
    ensures Against(Along(a, b, x), Along(a, c, y), Along(a, d, z), w) <==>
            (if m > 0.0 then TurnOf(a, b, c, d) else 0.0 - TurnOf(a, b, c, d)) < 0.0
  {
    var factor := PairsPositive(x, y, z);
    CornerNormal(a, b, c, d, x, y, z, w, m, factor);
    var e, g, h := Along(a, b, x), Along(a, c, y), Along(a, d, z);
    SignOfScaled(m, factor, TurnOf(a, b, c, d), Dot(Cross(Sub(g, e), Sub(h, e)), w));
  }

  /** One corner inside: its triangle is wound by the turn of the corners as they are. */
  lemma InsideCorner(f: Field, a: nat, b: nat, c: nat, d: nat)
    requires f.Valid() && HasCorners(f, a, b, c, d) && f.Low(a) && !f.Low(b) && !f.Low(c) && !f.Low(d)
    ensures var t := Triangle(Key(a, b), Key(a, c), Key(a, d));
            && Crosses(f, t) && f.Covers([a]) && f.Covers([b, c, d])
            && Winds(f, t, Outward(f, [a], [b, c, d]), Turn(f, a, b, c, d))
  {
    var x := IsoPointFrom(f, a, b);
    var y := IsoPointFrom(f, a, c);
    var z := IsoPointFrom(f, a, d);
    CornerOutward(f, a, b, c, d);
    var p, q, r, s, w := f.Position(a), f.Position(b), f.Position(c), f.Position(d), Outward(f, [a], [b, c, d]);
    CornerSign(p, q, r, s, x, y, z, w, 1.0 / 3.0);
    WindsAt(f, Triangle(Key(a, b), Key(a, c), Key(a, d)), Along(p, q, x), Along(p, r, y), Along(p, s, z), w, Turn(f, a, b, c, d));
  }

  /** The iso-point seen from the outside end of its edge. */
  lemma IsoPointInto(f: Field, o: nat, i: nat) returns (t: real)
    requires f.Valid() && i < |f.values| && o < |f.values| && f.Low(i) && !f.Low(o)
    ensures 0.0 <= t < 1.0 && (t == 0.0 <==> f.values[o] == f.iso)
    ensures Crossing(f, Key(o, i)) && IsoPoint(f, Key(o, i)) == Along(f.Position(o), f.Position(i), t)
  {
    var s := IsoPointFrom(f, i, o);
    t := 1.0 - s;
    AlongReversed(f.Position(i), f.Position(o), s, t);
  }

  lemma AlongNowhere(a: Vec, b: Vec)
    ensures Along(a, b, 0.0) == a && Along(a, b, 1.0) == b
  {
  }

  /**
   One corner outside: the triangle is wound by the opposite turn, since outward is toward the corner.  With
   the corner at the iso-value the triangle is that one point and not visible.
   */
  lemma OutsideCorner(f: Field, a: nat, b: nat, c: nat, d: nat)
    requires f.Valid() && HasCorners(f, a, b, c, d) && !f.Low(a) && f.Low(b) && f.Low(c) && f.Low(d)
    ensures var t := Triangle(Key(a, b), Key(a, c), Key(a, d));
            && Crosses(f, t) && f.Covers([a]) && f.Covers([b, c, d])
            && Winds(f, t, Outward(f, [b, c, d], [a]), 0.0 - Turn(f, a, b, c, d))
            && (f.values[a] == f.iso ==> !Visible(f, t))
  {
    var x := IsoPointInto(f, a, b);
    var y := IsoPointInto(f, a, c);
    var z := IsoPointInto(f, a, d);
    var t := Triangle(Key(a, b), Key(a, c), Key(a, d));
    CornerOutward(f, a, b, c, d);
    if f.values[a] == f.iso {
      AlongNowhere(f.Position(a), f.Position(b));
      AlongNowhere(f.Position(a), f.Position(d));
      FlatWinds(f, t, Outward(f, [b, c, d], [a]), 0.0 - Turn(f, a, b, c, d));
    } else {
      var p, q, r, s, w := f.Position(a), f.Position(b), f.Position(c), f.Position(d), Outward(f, [b, c, d], [a]);
      CornerSign(p, q, r, s, x, y, z, w, -1.0 / 3.0);
      WindsAt(f, t, Along(p, q, x), Along(p, r, y), Along(p, s, z), w, 0.0 - Turn(f, a, b, c, d));
    }
  }

  // ----- two corners inside

  lemma EdgeOutward(f: Field, a: nat, b: nat, c: nat, d: nat)
    requires f.Valid() && HasCorners(f, a, b, c, d)
    ensures f.Covers([a, b]) && f.Covers([c, d])
    ensures var p, q, r, s := f.Position(a), f.Position(b), f.Position(c), f.Position(d);
            Outward(f, [a, b], [c, d]) == Combine(Vec(-0.5, 0.5, 0.5), Sub(q, p), Sub(r, p), Sub(s, p))
  {
    MeanOfFew(f, a, b, b);
    MeanOfFew(f, c, d, d);
    OutwardOfEdge(f.Position(a), f.Position(b), f.Position(c), f.Position(d), Mean(f, [a, b]), Mean(f, [c, d]));
  }

  lemma EdgePointsAt(a: Vec, b: Vec, c: Vec, d: Vec, p: real, q: real, r: real, s: real)
    ensures var u, v, w := Sub(b, a), Sub(c, a), Sub(d, a);
            && At(Along(a, c, p), Vec(0.0, p, 0.0), a, u, v, w) && At(Along(a, d, q), Vec(0.0, 0.0, q), a, u, v, w)
            && At(Along(b, c, r), Vec(1.0 - r, r, 0.0), a, u, v, w) && At(Along(b, d, s), Vec(1.0 - s, 0.0, s), a, u, v, w)
  {
    var u, v, w := Sub(b, a), Sub(c, a), Sub(d, a);
    var o, i, j, k := Vec(0.0, 0.0, 0.0), Vec(1.0, 0.0, 0.0), Vec(0.0, 1.0, 0.0), Vec(0.0, 0.0, 1.0);
    CornersAt(a, b, c, d);
    AlongAt(a, o, c, j, p, a, u, v, w);
    AlongAt(a, o, d, k, q, a, u, v, w);
    AlongAt(b, i, c, j, r, a, u, v, w);
    AlongAt(b, i, d, k, s, a, u, v, w);
    assert Along(o, j, p) == Vec(0.0, p, 0.0) && Along(o, k, q) == Vec(0.0, 0.0, q);
    assert Along(i, j, r) == Vec(1.0 - r, r, 0.0) && Along(i, k, s) == Vec(1.0 - s, 0.0, s);
  }

  lemma FirstNormal(a: Vec, b: Vec, c: Vec, d: Vec, p: real, q: real, s: real, w: Vec, factor: real)
    requires w == Combine(Vec(-0.5, 0.5, 0.5), Sub(b, a), Sub(c, a), Sub(d, a)) && factor == q * (1.0 - s) + p * (1.0 - q)
    ensures var ac, ad, bd := Along(a, c, p), Along(a, d, q), Along(b, d, s);
            Dot(Cross(Sub(ad, ac), Sub(bd, ac)), w) == (0.5 * factor) * TurnOf(a, b, c, d)
  {
    EdgePointsAt(a, b, c, d, p, q, 0.0, s);
    NormalAt(Along(a, c, p), Along(a, d, q), Along(b, d, s), Vec(0.0, p, 0.0), Vec(0.0, 0.0, q), Vec(1.0 - s, 0.0, s),
             w, Vec(-0.5, 0.5, 0.5), a, Sub(b, a), Sub(c, a), Sub(d, a));
    FirstFactor(p, q, s, factor);
  }

  lemma SecondNormal(a: Vec, b: Vec, c: Vec, d: Vec, p: real, r: real, s: real, w: Vec, factor: real)
    requires w == Combine(Vec(-0.5, 0.5, 0.5), Sub(b, a), Sub(c, a), Sub(d, a)) && factor == s * (1.0 - r) + r * (1.0 - p)
    ensures var ac, bc, bd := Along(a, c, p), Along(b, c, r), Along(b, d, s);
            Dot(Cross(Sub(bd, ac), Sub(bc, ac)), w) == (0.5 * factor) * TurnOf(a, b, c, d)
  {
    EdgePointsAt(a, b, c, d, p, 0.0, r, s);
    NormalAt(Along(a, c, p), Along(b, d, s), Along(b, c, r), Vec(0.0, p, 0.0), Vec(1.0 - s, 0.0, s), Vec(1.0 - r, r, 0.0),
             w, Vec(-0.5, 0.5, 0.5), a, Sub(b, a), Sub(c, a), Sub(d, a));
    SecondFactor(p, r, s, factor);
  }

  lemma NonnegativeProduct(x: real, y: real)
    requires x >= 0.0 && y >= 0.0
    ensures x * y >= 0.0 && (x > 0.0 && y > 0.0 ==> x * y > 0.0)
  {
  }

  lemma MixPositive(x: real, y: real, z: real, factor: real)
    requires 0.0 < x <= 1.0 && 0.0 < y && 0.0 < z < 1.0 && factor == z * (1.0 - x) + y * (1.0 - z)
    ensures factor > 0.0
  {
    NonnegativeProduct(z, 1.0 - x);
    NonnegativeProduct(y, 1.0 - z);
  }

  lemma FirstSign(a: Vec, b: Vec, c: Vec, d: Vec, p: real, q: real, s: real, w: Vec)
    requires 0.0 < p <= 1.0 && 0.0 < q < 1.0 && 0.0 < s <= 1.0
    requires w == Combine(Vec(-0.5, 0.5, 0.5), Sub(b, a), Sub(c, a), Sub(d, a))
    ensures Against(Along(a, c, p), Along(a, d, q), Along(b, d, s), w) <==> TurnOf(a, b, c, d) < 0.0
  {
    var factor := q * (1.0 - s) + p * (1.0 - q);
    MixPositive(s, p, q, factor);
    FirstNormal(a, b, c, d, p, q, s, w, factor);
    var e, g, h := Along(a, c, p), Along(a, d, q), Along(b, d, s);
    SignOfScaled(0.5, factor, TurnOf(a, b, c, d), Dot(Cross(Sub(g, e), Sub(h, e)), w));
  }

  lemma SecondSign(a: Vec, b: Vec, c: Vec, d: Vec, p: real, r: real, s: real, w: Vec)
    requires 0.0 < p <= 1.0 && 0.0 < r < 1.0 && 0.0 < s <= 1.0
    requires w == Combine(Vec(-0.5, 0.5, 0.5), Sub(b, a), Sub(c, a), Sub(d, a))
    ensures Against(Along(a, c, p), Along(b, d, s), Along(b, c, r), w) <==> TurnOf(a, b, c, d) < 0.0
  {
    var factor := s * (1.0 - r) + r * (1.0 - p);
    MixPositive(p, s, r, factor);
    SecondNormal(a, b, c, d, p, r, s, w, factor);
    var e, g, h := Along(a, c, p), Along(b, d, s), Along(b, c, r);
    SignOfScaled(0.5, factor, TurnOf(a, b, c, d), Dot(Cross(Sub(g, e), Sub(h, e)), w));
  }

  /** Two corners inside: both triangles are wound by the turn of the corners as they are. */
  lemma InsideEdge(f: Field, a: nat, b: nat, c: nat, d: nat)
    requires f.Valid() && HasCorners(f, a, b, c, d) && f.Low(a) && f.Low(b) && !f.Low(c) && !f.Low(d)
    ensures var ac, ad, bc, bd := Key(a, c), Key(a, d), Key(b, c), Key(b, d);
            && Crossing(f, ac) && Crossing(f, ad) && Crossing(f, bc) && Crossing(f, bd)
            && f.Covers([a, b]) && f.Covers([c, d])
            && Winds(f, Triangle(ac, ad, bd), Outward(f, [a, b], [c, d]), Turn(f, a, b, c, d))
            && Winds(f, Triangle(ac, bd, bc), Outward(f, [a, b], [c, d]), Turn(f, a, b, c, d))
  {
    EdgeOutward(f, a, b, c, d);
    var w := Outward(f, [a, b], [c, d]);
    FirstWinds(f, a, b, c, d, w);
    SecondWinds(f, a, b, c, d, w);
  }

  lemma FirstWinds(f: Field, a: nat, b: nat, c: nat, d: nat, w: Vec)
    requires f.Valid() && HasCorners(f, a, b, c, d) && f.Low(a) && f.Low(b) && !f.Low(c) && !f.Low(d)
    requires var i, j, k, l := f.Position(a), f.Position(b), f.Position(c), f.Position(d);
             w == Combine(Vec(-0.5, 0.5, 0.5), Sub(j, i), Sub(k, i), Sub(l, i))
    ensures Crosses(f, Triangle(Key(a, c), Key(a, d), Key(b, d)))
    ensures Winds(f, Triangle(Key(a, c), Key(a, d), Key(b, d)), w, Turn(f, a, b, c, d))
  {
    var p := IsoPointFrom(f, a, c);
    var q := IsoPointFrom(f, a, d);
    var s := IsoPointFrom(f, b, d);
    var t, i, j, k, l := Triangle(Key(a, c), Key(a, d), Key(b, d)), f.Position(a), f.Position(b), f.Position(c), f.Position(d);
    if q == 1.0 {
      AlongNowhere(i, l);
      AlongNowhere(j, l);
      FlatWinds(f, t, w, Turn(f, a, b, c, d));
    } else {
      FirstSign(i, j, k, l, p, q, s, w);
      WindsAt(f, t, Along(i, k, p), Along(i, l, q), Along(j, l, s), w, Turn(f, a, b, c, d));
    }
  }

  lemma SecondWinds(f: Field, a: nat, b: nat, c: nat, d: nat, w: Vec)
    requires f.Valid() && HasCorners(f, a, b, c, d) && f.Low(a) && f.Low(b) && !f.Low(c) && !f.Low(d)
    requires var i, j, k, l := f.Position(a), f.Position(b), f.Position(c), f.Position(d);
             w == Combine(Vec(-0.5, 0.5, 0.5), Sub(j, i), Sub(k, i), Sub(l, i))
    ensures Crosses(f, Triangle(Key(a, c), Key(b, d), Key(b, c)))
    ensures Winds(f, Triangle(Key(a, c), Key(b, d), Key(b, c)), w, Turn(f, a, b, c, d))
  {
    var p := IsoPointFrom(f, a, c);
    var r := IsoPointFrom(f, b, c);
    var s := IsoPointFrom(f, b, d);
    var t, i, j, k, l := Triangle(Key(a, c), Key(b, d), Key(b, c)), f.Position(a), f.Position(b), f.Position(c), f.Position(d);
    if r == 1.0 {
      AlongNowhere(i, k);
      AlongNowhere(j, k);
      FlatWinds(f, t, w, Turn(f, a, b, c, d));
    } else {
      SecondSign(i, j, k, l, p, r, s, w);
      WindsAt(f, t, Along(i, k, p), Along(j, l, s), Along(j, k, r), w, Turn(f, a, b, c, d));
    }
  }

  /** The normal of the triangle cut off a corner at fractions `x`, `y` and `z` of its edges. */
  lemma CornerNormal(a: Vec, b: Vec, c: Vec, d: Vec, x: real, y: real, z: real, w: Vec, m: real, factor: real)
    requires factor == y * z + x * z + x * y && w == Combine(Vec(m, m, m), Sub(b, a), Sub(c, a), Sub(d, a))
    ensures var e, g, h := Along(a, b, x), Along(a, c, y), Along(a, d, z);
            Dot(Cross(Sub(g, e), Sub(h, e)), w) == (m * factor) * TurnOf(a, b, c, d)
  {
    var u, v, s := Sub(b, a), Sub(c, a), Sub(d, a);
    CornersAt(a, b, c, d);
    var o := Vec(0.0, 0.0, 0.0);
    AlongAt(a, o, b, Vec(1.0, 0.0, 0.0), x, a, u, v, s);
    AlongAt(a, o, c, Vec(0.0, 1.0, 0.0), y, a, u, v, s);
    AlongAt(a, o, d, Vec(0.0, 0.0, 1.0), z, a, u, v, s);
    assert Along(o, Vec(1.0, 0.0, 0.0), x) == Vec(x, 0.0, 0.0);
    assert Along(o, Vec(0.0, 1.0, 0.0), y) == Vec(0.0, y, 0.0);
    assert Along(o, Vec(0.0, 0.0, 1.0), z) == Vec(0.0, 0.0, z);
    NormalAt(Along(a, b, x), Along(a, c, y), Along(a, d, z), Vec(x, 0.0, 0.0), Vec(0.0, y, 0.0), Vec(0.0, 0.0, z),
             w, Vec(m, m, m), a, u, v, s);
    CornerFactor(x, y, z, m, factor);
  }

  // ----- the order of the corners

  lemma TurnSwaps(a: Vec, b: Vec, c: Vec, d: Vec)
    ensures TurnOf(b, a, c, d) == 0.0 - TurnOf(a, b, c, d)
    ensures TurnOf(a, c, b, d) == 0.0 - TurnOf(a, b, c, d)
    ensures TurnOf(a, b, d, c) == 0.0 - TurnOf(a, b, c, d)
  {
    var u, v, w := Sub(b, a), Sub(c, a), Sub(d, a);
    DetSwap(u, v, w);
    DetSwap(v, w, u);
    DetRotate(u, v, w);
    DetRotate(u, w, v);
    FirstSwap(a, b, c, d);
  }

  lemma FirstSwap(a: Vec, b: Vec, c: Vec, d: Vec)
    ensures TurnOf(b, a, c, d) == 0.0 - TurnOf(a, b, c, d)
  {
    var o, i, j, k := Vec(0.0, 0.0, 0.0), Vec(1.0, 0.0, 0.0), Vec(0.0, 1.0, 0.0), Vec(0.0, 0.0, 1.0);
    CornersAt(a, b, c, d);
    UnitDet();
    SwapByCoordinates(a, b, c, d, o, i, j, k);
  }

  lemma SwapByCoordinates(a: Vec, b: Vec, c: Vec, d: Vec, o: Vec, i: Vec, j: Vec, k: Vec)
    requires var u, v, w := Sub(b, a), Sub(c, a), Sub(d, a);
             At(a, o, a, u, v, w) && At(b, i, a, u, v, w) && At(c, j, a, u, v, w) && At(d, k, a, u, v, w)
    requires TurnOf(i, o, j, k) == -1.0
    ensures TurnOf(b, a, c, d) == 0.0 - TurnOf(a, b, c, d)
  {
    TurnAt(b, i, a, o, c, j, d, k, a, Sub(b, a), Sub(c, a), Sub(d, a));
    Times(TurnOf(i, o, j, k), TurnOf(a, b, c, d), -1.0, TurnOf(a, b, c, d));
  }

  /** The turn of four points is that of their coordinates, times the volume of the basis. */
  lemma TurnAt(p: Vec, i: Vec, q: Vec, j: Vec, r: Vec, k: Vec, s: Vec, l: Vec, base: Vec, u: Vec, v: Vec, w: Vec)
    requires At(p, i, base, u, v, w) && At(q, j, base, u, v, w) && At(r, k, base, u, v, w) && At(s, l, base, u, v, w)
    ensures TurnOf(p, q, r, s) == TurnOf(i, j, k, l) * Det(u, v, w)
  {
    DifferenceAt(q, j, p, i, base, u, v, w);
    DifferenceAt(r, k, p, i, base, u, v, w);
    DifferenceAt(s, l, p, i, base, u, v, w);
    DetOfCombinations(Sub(j, i), Sub(k, i), Sub(l, i), u, v, w, Sub(q, p), Sub(r, p), Sub(s, p));
  }

  lemma UnitDet()
    ensures var o, i, j, k := Vec(0.0, 0.0, 0.0), Vec(1.0, 0.0, 0.0), Vec(0.0, 1.0, 0.0), Vec(0.0, 0.0, 1.0);
            TurnOf(i, o, j, k) == -1.0
  {
    Determinant(Vec(-1.0, 0.0, 0.0), Vec(-1.0, 1.0, 0.0), Vec(-1.0, 0.0, 1.0));
  }

  lemma TurnAlternates(f: Field, a: nat, b: nat, c: nat, d: nat)
    requires f.Valid() && HasCorners(f, a, b, c, d)
    ensures Turn(f, b, a, c, d) == Turn(f, a, c, b, d) == Turn(f, a, b, d, c) == 0.0 - Turn(f, a, b, c, d)
  {
    TurnSwaps(f.Position(a), f.Position(b), f.Position(c), f.Position(d));
  }
}
