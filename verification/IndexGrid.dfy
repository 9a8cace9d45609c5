/**
 Index coordinates do not fold the grid over: tetrahedra with a common face lie on opposite sides of it.
 */
module IndexGrid {
  import opened Tetrahedra
  import opened Isosurface
  import opened Determinants
  import opened ClosedSurface
  import opened Winding
  import opened DirectedCuts
  import opened OrientedSurface

  /** Where index coordinates put a grid point. */
  function Spot(p: Point): Vec {
    Vec(p.column as real + 1.0, p.row as real + 1.0, p.page as real + 1.0)
  }

  lemma UnitTurn(u: Vec, v: Vec, i: Vec, j: Vec)
    requires (i == Vec(1.0, 0.0, 0.0) && (j == Vec(0.0, 1.0, 0.0) || j == Vec(0.0, 0.0, 1.0)))
          || (i == Vec(0.0, 1.0, 0.0) && (j == Vec(1.0, 0.0, 0.0) || j == Vec(0.0, 0.0, 1.0)))
          || (i == Vec(0.0, 0.0, 1.0) && (j == Vec(1.0, 0.0, 0.0) || j == Vec(0.0, 1.0, 0.0)))
    requires u == i && v == Vec(i.x + j.x, i.y + j.y, i.z + j.z)
    ensures Det(u, v, Vec(1.0, 1.0, 1.0)) == 1.0 || Det(u, v, Vec(1.0, 1.0, 1.0)) == -1.0
  {
  }

  /** The corners of a tetrahedron, axis by axis, span a sixth of the unit cube. */
  lemma ChainVolume(t: Tetrahedron)
    requires t.kind < 6
    ensures var v := TurnOf(Spot(Chain(t, 0)), Spot(Chain(t, 1)), Spot(Chain(t, 2)), Spot(Chain(t, 3)));
            v == 1.0 || v == -1.0
  {
    var o := Spot(Chain(t, 0));
    var u, v, w := Sub(Spot(Chain(t, 1)), o), Sub(Spot(Chain(t, 2)), o), Sub(Spot(Chain(t, 3)), o);
    var x, y, z := Vec(1.0, 0.0, 0.0), Vec(0.0, 1.0, 0.0), Vec(0.0, 0.0, 1.0);
    assert w == Vec(1.0, 1.0, 1.0);
    if t.kind == 0 {
      UnitTurn(u, v, x, y);
    } else if t.kind == 1 {
      UnitTurn(u, v, y, x);
    } else if t.kind == 2 {
      UnitTurn(u, v, y, z);
    } else if t.kind == 3 {
      UnitTurn(u, v, z, y);
    } else if t.kind == 4 {
      UnitTurn(u, v, z, x);
    } else {
      UnitTurn(u, v, x, z);
    }
  }

  lemma InPlane(a: Vec, b: Vec, c: Vec, m: Vec)
    requires m == a || m == b || m == c
    ensures TurnOf(a, b, c, m) == 0.0
  {
    DetTwice(Sub(b, a), Sub(c, a));
    if m == a {
      assert Sub(m, a) == Vec(0.0, 0.0, 0.0);
    }
  }

  /** A reflection in the middle of an edge of a face changes sides. */
  lemma ReflectedTurn(a: Vec, b: Vec, c: Vec, m: Vec, n: Vec, x: Vec, y: Vec)
    requires (m == a || m == b || m == c) && (n == a || n == b || n == c)
    requires y == Vec(m.x + n.x - x.x, m.y + n.y - x.y, m.z + n.z - x.z)
    ensures TurnOf(a, b, c, y) == 0.0 - TurnOf(a, b, c, x)
  {
    InPlane(a, b, c, m);
    InPlane(a, b, c, n);
    assert Sub(y, a) == Combine(Vec(1.0, 1.0, -1.0), Sub(m, a), Sub(n, a), Sub(x, a));
    DotCombine(Cross(Sub(b, a), Sub(c, a)), Vec(1.0, 1.0, -1.0), Sub(m, a), Sub(n, a), Sub(x, a));
  }

  lemma FourCorners(t: Tetrahedron, a: Point, b: Point, c: Point, x: Point, p: Point)
    requires t.kind < 6 && AllIn(t, a, b, c) && Contains(t, x) && Contains(t, p)
    requires a != b && a != c && b != c && x != a && x != b && x != c
    ensures p == a || p == b || p == c || p == x
  {
    ContainsIsChain(t, a);
    ContainsIsChain(t, b);
    ContainsIsChain(t, c);
    ContainsIsChain(t, x);
    ContainsIsChain(t, p);
  }

  lemma FarSide(t: Tetrahedron, u: Tetrahedron, a: Point, b: Point, c: Point, x: Point, y: Point)
    requires t.kind < 6 && u.kind < 6 && t != u && AllIn(t, a, b, c) && Contains(t, x) && AllIn(u, a, b, c) && Contains(u, y)
    requires a != b && a != c && b != c && x != a && x != b && x != c && y != a && y != b && y != c
    ensures u == Across(t, x) && !Contains(t, y)
  {
    FaceHasTwoSides(t, x, a, b, c, u);
    FarSideExcludes(t, x);
    if Contains(t, y) {
      FourCorners(t, a, b, c, x, y);
    }
  }

  /** The edge of a face in whose middle the corner opposite is reflected. */
  lemma MirrorEdge(t: Tetrahedron, a: Point, b: Point, c: Point, x: Point, i: nat) returns (m: Point, n: Point)
    requires t.kind < 6 && AllIn(t, a, b, c) && Contains(t, x) && i < 4 && x == Chain(t, i)
    requires a != b && a != c && b != c && x != a && x != b && x != c
    ensures (m == a || m == b || m == c) && (n == a || n == b || n == c)
    ensures Reflection(t, i) == Point(m.row + n.row - x.row, m.column + n.column - x.column, m.page + n.page - x.page)
  {
    var j := if i % 2 == 0 then 1 else 0;
    m, n := Chain(t, j), Chain(t, j + 2);
    OnFace(t, a, b, c, x, i, j);
    OnFace(t, a, b, c, x, i, j + 2);
  }

  lemma OnFace(t: Tetrahedron, a: Point, b: Point, c: Point, x: Point, i: nat, j: nat)
    requires t.kind < 6 && AllIn(t, a, b, c) && Contains(t, x) && i < 4 && j < 4 && i % 2 != j % 2 && x == Chain(t, i)
    requires a != b && a != c && b != c && x != a && x != b && x != c
    ensures Chain(t, j) == a || Chain(t, j) == b || Chain(t, j) == c
  {
    ChainDiffers(t, i, j);
    ContainsIsChain(t, Chain(t, j));
    FourCorners(t, a, b, c, x, Chain(t, j));
  }

  /** The corner across a common face is the reflection of the near one. */
  lemma AcrossFace(t: Tetrahedron, u: Tetrahedron, a: Point, b: Point, c: Point, x: Point, y: Point) returns (m: Point, n: Point)
    requires t.kind < 6 && u.kind < 6 && t != u && AllIn(t, a, b, c) && Contains(t, x) && AllIn(u, a, b, c) && Contains(u, y)
    requires a != b && a != c && b != c && x != a && x != b && x != c && y != a && y != b && y != c
    ensures (m == a || m == b || m == c) && (n == a || n == b || n == c)
    ensures y == Point(m.row + n.row - x.row, m.column + n.column - x.column, m.page + n.page - x.page)
  {
    FarSide(t, u, a, b, c, x, y);
    var i := ReflectedCorner(t, x, y);
    m, n := MirrorEdge(t, a, b, c, x, i);
  }

  lemma ChainDiffers(t: Tetrahedron, i: nat, j: nat)
    requires t.kind < 6 && i < 4 && j < 4 && i != j
    ensures Chain(t, i) != Chain(t, j)
  {
  }

  lemma SpotOf(f: Field, o: nat)
    requires f.Valid() && f.coordinates.Indices? && o < |f.values|
    ensures f.Position(o) == Spot(f.PointAt(o))
  {
  }

  lemma ReflectedAcross(f: Field, t: Tetrahedron, u: Tetrahedron, a: nat, b: nat, c: nat, x: nat, y: nat)
    requires f.Valid() && f.coordinates.Indices? && ShareFace(f, t, u, a, b, c, x, y)
    ensures Turn(f, a, b, c, y) == 0.0 - Turn(f, a, b, c, x)
  {
    PointsDiffer(f, a, b); PointsDiffer(f, a, c); PointsDiffer(f, b, c);
    PointsDiffer(f, x, a); PointsDiffer(f, x, b); PointsDiffer(f, x, c);
    PointsDiffer(f, y, a); PointsDiffer(f, y, b); PointsDiffer(f, y, c);
    SpotOf(f, a); SpotOf(f, b); SpotOf(f, c); SpotOf(f, x); SpotOf(f, y);
    SpotsAcross(t, u, f.PointAt(a), f.PointAt(b), f.PointAt(c), f.PointAt(x), f.PointAt(y));
  }

  lemma SpotsAcross(t: Tetrahedron, u: Tetrahedron, a: Point, b: Point, c: Point, x: Point, y: Point)
    requires t.kind < 6 && u.kind < 6 && t != u && AllIn(t, a, b, c) && Contains(t, x) && AllIn(u, a, b, c) && Contains(u, y)
    requires a != b && a != c && b != c && x != a && x != b && x != c && y != a && y != b && y != c
    ensures TurnOf(Spot(a), Spot(b), Spot(c), Spot(y)) == 0.0 - TurnOf(Spot(a), Spot(b), Spot(c), Spot(x))
  {
    var m, n := AcrossFace(t, u, a, b, c, x, y);
    ReflectedSpots(a, b, c, m, n, x, y);
  }

  lemma ReflectedSpots(a: Point, b: Point, c: Point, m: Point, n: Point, x: Point, y: Point)
    requires (m == a || m == b || m == c) && (n == a || n == b || n == c)
    requires y == Point(m.row + n.row - x.row, m.column + n.column - x.column, m.page + n.page - x.page)
    ensures TurnOf(Spot(a), Spot(b), Spot(c), Spot(y)) == 0.0 - TurnOf(Spot(a), Spot(b), Spot(c), Spot(x))
  {
    SpotReflects(m, n, x, y);
    ReflectedTurn(Spot(a), Spot(b), Spot(c), Spot(m), Spot(n), Spot(x), Spot(y));
  }

  lemma SpotReflects(m: Point, n: Point, x: Point, y: Point)
    requires y == Point(m.row + n.row - x.row, m.column + n.column - x.column, m.page + n.page - x.page)
    ensures var p, q, r := Spot(m), Spot(n), Spot(x); Spot(y) == Vec(p.x + q.x - r.x, p.y + q.y - r.y, p.z + q.z - r.z)
  {
  }

  /** The offset of a corner along the chain, and where it is put. */
  lemma ChainOffset(f: Field, t: Tetrahedron, i: nat) returns (o: nat)
    requires f.Valid() && f.coordinates.Indices? && f.extents.HasTetrahedron(t) && i < 4
    ensures o < |f.values| && f.PointAt(o) == Chain(t, i) && f.Position(o) == Spot(Chain(t, i))
  {
    o := f.Offset(Chain(t, i));
    f.PointAtOffset(Chain(t, i));
    SpotOf(f, o);
  }

  lemma IsChainOffset(f: Field, t: Tetrahedron, o: nat, c0: nat, c1: nat, c2: nat, c3: nat)
    requires f.Valid() && f.extents.HasTetrahedron(t) && HasCorner(f, t, o) && HasCorners(f, c0, c1, c2, c3)
    requires f.PointAt(c0) == Chain(t, 0) && f.PointAt(c1) == Chain(t, 1)
    requires f.PointAt(c2) == Chain(t, 2) && f.PointAt(c3) == Chain(t, 3)
    ensures o in [c0, c1, c2, c3]
  {
    ContainsIsChain(t, f.PointAt(o));
    if o != c0 { PointsDiffer(f, o, c0); }
    if o != c1 { PointsDiffer(f, o, c1); }
    if o != c2 { PointsDiffer(f, o, c2); }
    if o != c3 { PointsDiffer(f, o, c3); }
  }

  /** The corners of a tetrahedron are never in one plane. */
  lemma CornersTurn(f: Field, t: Tetrahedron, a: nat, b: nat, c: nat, x: nat)
    requires f.Valid() && f.coordinates.Indices? && f.extents.HasTetrahedron(t)
    requires HasCorner(f, t, a) && HasCorner(f, t, b) && HasCorner(f, t, c) && HasCorner(f, t, x)
    requires a != b && a != c && b != c && x != a && x != b && x != c
    ensures Turn(f, a, b, c, x) == 1.0 || Turn(f, a, b, c, x) == -1.0
  {
    var c0 := ChainOffset(f, t, 0);
    var c1 := ChainOffset(f, t, 1);
    var c2 := ChainOffset(f, t, 2);
    var c3 := ChainOffset(f, t, 3);
    IsChainOffset(f, t, a, c0, c1, c2, c3);
    IsChainOffset(f, t, b, c0, c1, c2, c3);
    IsChainOffset(f, t, c, c0, c1, c2, c3);
    IsChainOffset(f, t, x, c0, c1, c2, c3);
    var turn := TurningExists(f);
    TurnIs(f, turn, a, b, c, x);
    TurnIs(f, turn, c0, c1, c2, c3);
    ChainVolume(t);
    AnyOrder(turn, c0, c1, c2, c3, a, b, c, x);
  }

  /** With one-based index coordinates, tetrahedra with a common face lie on opposite sides of it. */
  lemma IndicesUnfolded(f: Field)
    requires f.Valid() && f.coordinates.Indices?
    ensures Unfolded(f)
  {
    forall t, u, a, b, c, x, y | ShareFace(f, t, u, a, b, c, x, y) ensures OppositeSides(f, a, b, c, x, y) {
      ReflectedAcross(f, t, u, a, b, c, x, y);
      CornersTurn(f, t, a, b, c, x);
    }
  }
}
