/**
 Explicit coordinates that fold the grid over: two triangles that share a side run along it in the
 same direction.
 */
module FoldedGrid {
  import opened Tetrahedra
  import opened Isosurface
  import opened Surfaces
  import opened IsoMeshes
  import opened Doubles
  import opened Sealing
  import opened Determinants
  import opened Winding
  import opened DirectedCuts
  import opened OrientedSurface

  /** A cube with one low corner, in which the corner one row down is put where the corner one column over is. */
  function Folded(): Field {
    Field(Extents(2, 2, 2), [-1.0, 1.0, 1.0, 1.0, 1.0, 1.0, 1.0, 1.0],
          Given([0.0, 1.0, 1.0, 1.0, 0.0, 0.0, 1.0, 1.0], [0.0, 0.0, 0.0, 1.0, 0.0, 1.0, 0.0, 1.0],
                [0.0, 0.0, 0.0, 0.0, 1.0, 1.0, 1.0, 1.0]), 0.0)
  }

  /** What matters about it: one low corner, and the places of the corners of two tetrahedra. */
  ghost predicate IsFolded(f: Field, c: Corners) {
    && f.Valid() && f.extents == Extents(2, 2, 2) && |f.values| == 8 && f.iso == 0.0 && c == Corners(0, 1, 2, 3, 7)
    && f.values[c.low] == -1.0 && (forall o | 0 < o < 8 :: f.values[o] == 1.0)
    && f.Position(c.low) == Vec(0.0, 0.0, 0.0) && f.Position(c.row) == f.Position(c.column) == Vec(1.0, 0.0, 0.0)
    && f.Position(c.both) == Vec(1.0, 1.0, 0.0) && f.Position(c.all) == Vec(1.0, 1.0, 1.0)
  }

  /** The offsets of the low corner and of those one row, one column, a row and a column, and all three axes away. */
  datatype Corners = Corners(low: nat, row: nat, column: nat, both: nat, all: nat)

  lemma FoldedIsFolded(c: Corners)
    requires c == Corners(0, 1, 2, 3, 7)
    ensures IsFolded(Folded(), c)
  {
  }

  const ORIGIN := Point(0, 0, 0)

  lemma PointIs(f: Field, c: Corners, o: nat, p: Point)
    requires IsFolded(f, c) && f.extents.HasPoint(p) && o == p.row + 2 * (p.column + 2 * p.page)
    ensures o < |f.values| && f.Offset(p) == o && f.PointAt(o) == p
  {
    f.PointAtOffset(p);
  }

  lemma PointsAre(f: Field, c: Corners)
    requires IsFolded(f, c)
    ensures f.PointAt(c.low) == ORIGIN && f.Offset(ORIGIN) == c.low
    ensures f.PointAt(c.row) == Point(1, 0, 0) && f.Offset(Point(1, 0, 0)) == c.row
    ensures f.PointAt(c.column) == Point(0, 1, 0) && f.Offset(Point(0, 1, 0)) == c.column
    ensures f.PointAt(c.both) == Point(1, 1, 0) && f.Offset(Point(1, 1, 0)) == c.both
    ensures f.PointAt(c.all) == Point(1, 1, 1) && f.Offset(Point(1, 1, 1)) == c.all
  {
    PointIs(f, c, c.low, ORIGIN);
    PointIs(f, c, c.row, Point(1, 0, 0));
    PointIs(f, c, c.column, Point(0, 1, 0));
    PointIs(f, c, c.both, Point(1, 1, 0));
    PointIs(f, c, c.all, Point(1, 1, 1));
  }

  /** The tetrahedra that go to the opposite corner by way of the column and by way of the row. */
  function Half(kind: nat): Tetrahedron {
    Tetrahedron(ORIGIN, kind)
  }

  lemma ShareByPoints(f: Field, t: Tetrahedron, u: Tetrahedron, a: nat, b: nat, c: nat, x: nat, y: nat)
    requires f.Valid() && HasCorners(f, a, b, c, x) && y < |f.values| && f.extents.HasTetrahedron(t) && f.extents.HasTetrahedron(u)
    requires AllIn(t, f.PointAt(a), f.PointAt(b), f.PointAt(c)) && Contains(t, f.PointAt(x))
    requires AllIn(u, f.PointAt(a), f.PointAt(b), f.PointAt(c)) && Contains(u, f.PointAt(y))
    requires t != u && a != b && a != c && b != c && x != a && x != b && x != c && y != a && y != b && y != c
    ensures ShareFace(f, t, u, a, b, c, x, y)
  {
  }

  lemma HalfContains(t: Tetrahedron, u: Tetrahedron, p: Point, q: Point, r: Point)
    requires t == Half(0) && u == Half(1) && p == ORIGIN && q == Point(1, 1, 0) && r == Point(1, 1, 1)
    ensures AllIn(t, p, q, r) && Contains(t, Point(0, 1, 0)) && AllIn(u, p, q, r) && Contains(u, Point(1, 0, 0))
  {
  }

  lemma HalvesShareFace(f: Field, c: Corners)
    requires IsFolded(f, c)
    ensures ShareFace(f, Half(0), Half(1), c.low, c.both, c.all, c.column, c.row)
  {
    PointsAre(f, c);
    HalfContains(Half(0), Half(1), ORIGIN, Point(1, 1, 0), Point(1, 1, 1));
    ShareByPoints(f, Half(0), Half(1), c.low, c.both, c.all, c.column, c.row);
  }

  lemma HalfOffsets(f: Field, c: Corners, kind: nat)
    requires IsFolded(f, c) && kind < 2
    ensures f.extents.HasTetrahedron(Half(kind))
    ensures CornerOffsets(f, Half(kind)) ==
            if kind == 0 then [c.low, c.column, c.both, c.all] else [c.low, c.both, c.row, c.all]
  {
    PointsAre(f, c);
    assert Vertex(Half(kind), 0) == ORIGIN && Vertex(Half(kind), 3) == Point(1, 1, 1);
    assert kind == 0 ==> Vertex(Half(0), 1) == Point(0, 1, 0) && Vertex(Half(0), 2) == Point(1, 1, 0);
    assert kind == 1 ==> Vertex(Half(1), 1) == Point(1, 1, 0) && Vertex(Half(1), 2) == Point(1, 0, 0);
  }

  // ----- the slices of the two tetrahedra

  /** How the iso-value splits corners; looked into only where `Unseal` is mentioned. */
  ghost predicate SplitInto(f: Field, q: seq<nat>, low: seq<nat>, high: seq<nat>) {
    forall k {:trigger Unseal(k)} :: Unseal(k) ==> f.Covers(q) && Below(f, q) == low && NotBelow(f, q) == high
  }

  lemma FirstLow(f: Field, a: nat, q: seq<nat>)
    requires a < |f.values| && f.Low(a) && q == [a]
    ensures SplitInto(f, q, q, [])
  {
    assert q[..0] == [];
  }

  /** One more corner that is not low. */
  lemma HighNext(f: Field, q: seq<nat>, o: nat, next: seq<nat>, low: seq<nat>, high: seq<nat>, more: seq<nat>)
    requires SplitInto(f, q, low, high) && o < |f.values| && !f.Low(o) && next == q + [o] && more == high + [o]
    ensures SplitInto(f, next, low, more)
  {
    assert Unseal(0);
    assert next[..|q|] == q;
  }

  lemma OneLowSplits(f: Field, a: nat, b: nat, c: nat, d: nat)
    requires HasCorners(f, a, b, c, d) && f.Low(a) && !f.Low(b) && !f.Low(c) && !f.Low(d)
    ensures SplitInto(f, [a, b, c, d], [a], [b, c, d])
  {
    FirstLow(f, a, [a]);
    HighNext(f, [a], b, [a, b], [a], [], [b]);
    HighNext(f, [a, b], c, [a, b, c], [a], [b], [b, c]);
    HighNext(f, [a, b, c], d, [a, b, c, d], [a], [b, c], [b, c, d]);
  }

  lemma OneLow(f: Field, a: nat, b: nat, c: nat, d: nat)
    requires HasCorners(f, a, b, c, d) && f.Low(a) && !f.Low(b) && !f.Low(c) && !f.Low(d)
    ensures f.Covers([a, b, c, d]) && Below(f, [a, b, c, d]) == [a] && NotBelow(f, [a, b, c, d]) == [b, c, d]
  {
    OneLowSplits(f, a, b, c, d);
    assert Unseal(0);
  }

  lemma PatchOfCorner(f: Field, t: Tetrahedron, a: nat, b: nat, c: nat, d: nat)
    requires f.Valid() && f.extents.HasTetrahedron(t) && CornerOffsets(f, t) == [a, b, c, d]
    requires HasCorners(f, a, b, c, d) && f.Low(a) && !f.Low(b) && !f.Low(c) && !f.Low(d)
    ensures var s := Triangle(Key(a, b), Key(a, c), Key(a, d));
            f.Covers([a]) && f.Covers([b, c, d]) && Crosses(f, s) && Patch(f, t) == [Oriented(f, s, Outward(f, [a], [b, c, d]))]
  {
    OneLow(f, a, b, c, d);
    CutCrosses(f, [a, b, c, d]);
    var s := Triangle(Key(a, b), Key(a, c), Key(a, d));
    assert Cut([a], [b, c, d]) == [s];
    assert Crosses(f, Cut([a], [b, c, d])[0]);
  }

  /** The low corner is cut off half way along its edges. */
  lemma HalfWay(f: Field, c: Corners, o: nat, p: Vec)
    requires IsFolded(f, c) && 0 < o < 8 && p == f.Position(o)
    ensures Crossing(f, Key(c.low, o)) && IsoPoint(f, Key(c.low, o)) == Vec(p.x / 2.0, p.y / 2.0, p.z / 2.0)
  {
    assert f.values[o] == 1.0;
  }

  lemma SmallEpsilon()
    ensures EPSILON < 0.0625
  {
  }

  lemma Area(n: Vec, u: Vec, v: Vec)
    requires (u == Vec(0.0, 0.5, 0.0) && v == Vec(0.0, 0.5, 0.5)) || (u == Vec(0.0, -0.5, 0.0) && v == Vec(0.0, 0.0, 0.5))
    requires n == Cross(u, v)
    ensures Dot(n, n) == 0.0625
  {
  }

  lemma ShownByPoints(f: Field, t: Triangle, e: Vec, g: Vec, h: Vec)
    requires f.Valid() && Crosses(f, t) && IsoPoint(f, t.a) == e && IsoPoint(f, t.b) == g && IsoPoint(f, t.c) == h
    requires var n := Cross(Sub(g, e), Sub(h, e)); Dot(n, n) > EPSILON
    ensures Shown(f, t)
  {
  }

  lemma FirstShown(f: Field, c: Corners)
    requires IsFolded(f, c)
    ensures Shown(f, Triangle(Key(c.low, c.column), Key(c.low, c.both), Key(c.low, c.all)))
  {
    var p, q, r := Vec(0.5, 0.0, 0.0), Vec(0.5, 0.5, 0.0), Vec(0.5, 0.5, 0.5);
    HalfWay(f, c, c.column, Vec(1.0, 0.0, 0.0));
    HalfWay(f, c, c.both, Vec(1.0, 1.0, 0.0));
    HalfWay(f, c, c.all, Vec(1.0, 1.0, 1.0));
    SmallEpsilon();
    Area(Cross(Sub(q, p), Sub(r, p)), Sub(q, p), Sub(r, p));
    ShownByPoints(f, Triangle(Key(c.low, c.column), Key(c.low, c.both), Key(c.low, c.all)), p, q, r);
  }

  lemma SecondShown(f: Field, c: Corners)
    requires IsFolded(f, c)
    ensures Shown(f, Triangle(Key(c.low, c.both), Key(c.low, c.row), Key(c.low, c.all)))
  {
    var p, q, r := Vec(0.5, 0.0, 0.0), Vec(0.5, 0.5, 0.0), Vec(0.5, 0.5, 0.5);
    HalfWay(f, c, c.row, Vec(1.0, 0.0, 0.0));
    HalfWay(f, c, c.both, Vec(1.0, 1.0, 0.0));
    HalfWay(f, c, c.all, Vec(1.0, 1.0, 1.0));
    SmallEpsilon();
    Area(Cross(Sub(p, q), Sub(r, q)), Sub(p, q), Sub(r, q));
    ShownByPoints(f, Triangle(Key(c.low, c.both), Key(c.low, c.row), Key(c.low, c.all)), q, p, r);
  }

  lemma Wound(f: Field, t: Triangle, w: Vec) returns (v: Triangle)
    requires f.Valid() && Shown(f, t)
    ensures v == Oriented(f, t, w) && Shown(f, v) && forall e, g :: HasSide(v, e, g) <==> HasSide(t, e, g)
  {
    v := Oriented(f, t, w);
    VisibleSwapped(f, t);
  }

  /** The triangle that a half keeps has a side on the face that the halves share. */
  lemma HalfPatch(f: Field, c: Corners, kind: nat) returns (v: Triangle)
    requires IsFolded(f, c) && kind < 2
    ensures f.extents.HasTetrahedron(Half(kind)) && v in Patch(f, Half(kind))
    ensures Shown(f, v) && HasSide(v, Key(c.low, c.both), Key(c.low, c.all))
  {
    HalfOffsets(f, c, kind);
    var a, b := if kind == 0 then c.column else c.both, if kind == 0 then c.both else c.row;
    PatchOfCorner(f, Half(kind), c.low, a, b, c.all);
    FirstShown(f, c);
    SecondShown(f, c);
    v := Wound(f, Triangle(Key(c.low, a), Key(c.low, b), Key(c.low, c.all)), Outward(f, [c.low], [a, b, c.all]));
  }

  // ----- both run the same way

  lemma FoldedVolume(a: Vec, b: Vec, c: Vec, d: Vec)
    requires a == Vec(0.0, 0.0, 0.0) && b == Vec(1.0, 1.0, 0.0) && c == Vec(1.0, 1.0, 1.0) && d == Vec(1.0, 0.0, 0.0)
    ensures TurnOf(a, b, c, d) == 1.0
  {
    Determinant(Sub(b, a), Sub(c, a), Sub(d, a));
  }

  lemma FoldedTurns(f: Field, low: nat, both: nat, all: nat, x: nat)
    requires f.Valid() && HasCorners(f, low, both, all, x)
    requires f.Position(low) == Vec(0.0, 0.0, 0.0) && f.Position(both) == Vec(1.0, 1.0, 0.0)
    requires f.Position(all) == Vec(1.0, 1.0, 1.0) && f.Position(x) == Vec(1.0, 0.0, 0.0)
    ensures Turn(f, low, both, all, x) > 0.0
  {
    FoldedVolume(f.Position(low), f.Position(both), f.Position(all), f.Position(x));
  }

  /** On the same side of a face, triangles run alike. */
  lemma SameSide(f: Field, t: Tetrahedron, u: Tetrahedron, v: Triangle, w: Triangle, i: nat, o: nat, o': nat, x: nat, y: nat)
    requires f.Valid() && ShareFace(f, t, u, i, o, o', x, y) && TwoCrossings(f, i, o, i, o')
    requires v in Patch(f, t) && w in Patch(f, u) && Shown(f, v) && Shown(f, w)
    requires HasSide(v, Key(i, o), Key(i, o')) && HasSide(w, Key(i, o), Key(i, o'))
    requires Turn(f, i, o, o', x) > 0.0 && Turn(f, i, o, o', y) > 0.0
    ensures Directed(v, Key(i, o), Key(i, o')) == Directed(w, Key(i, o), Key(i, o')) && !Straight(f)
  {
    LeanIsTurn(f, t, i, o, o', x);
    LeanIsTurn(f, u, i, o, o', y);
    assert Meet(f, t, u, v, w, i, o, i, o', x, y) && !StraightAt(f, t, u, v, w, i, o, i, o', x, y);
    OppositeIffLeans(f, t, u, v, w, i, o, i, o', x, y);
  }

  lemma RunAlike(f: Field, c: Corners) returns (v: Triangle, w: Triangle)
    requires IsFolded(f, c)
    ensures f.extents.HasTetrahedron(Half(0)) && f.extents.HasTetrahedron(Half(1))
    ensures v in Patch(f, Half(0)) && w in Patch(f, Half(1)) && Shown(f, v) && Shown(f, w)
    ensures HasSide(v, Key(c.low, c.both), Key(c.low, c.all)) && HasSide(w, Key(c.low, c.both), Key(c.low, c.all))
    ensures Directed(v, Key(c.low, c.both), Key(c.low, c.all)) == Directed(w, Key(c.low, c.both), Key(c.low, c.all))
    ensures !Straight(f)
  {
    v := HalfPatch(f, c, 0);
    w := HalfPatch(f, c, 1);
    HalvesShareFace(f, c);
    FoldedTurns(f, c.low, c.both, c.all, c.column);
    FoldedTurns(f, c.low, c.both, c.all, c.row);
    SameSide(f, Half(0), Half(1), v, w, c.low, c.both, c.all, c.column, c.row);
  }

  /** Two tetrahedra keep triangles with a common side, and both triangles run along it in the same direction. */
  lemma FoldedRunsAlike() returns (v: Triangle, w: Triangle, e: Edge, g: Edge)
    ensures var f := Folded();
            && f.Valid() && f.extents.HasTetrahedron(Half(0)) && f.extents.HasTetrahedron(Half(1))
            && v in Patch(f, Half(0)) && w in Patch(f, Half(1)) && Shown(f, v) && Shown(f, w)
    ensures HasSide(v, e, g) && HasSide(w, e, g) && Directed(v, e, g) == Directed(w, e, g) && !Straight(Folded())
  {
    var c := Corners(0, 1, 2, 3, 7);
    FoldedIsFolded(c);
    v, w := RunAlike(Folded(), c);
    e, g := Key(c.low, c.both), Key(c.low, c.all);
  }
}
