/**
 The six-tetrahedra decomposition of a grid cube and why it conforms across cubes.

 `CORNERS` and `TETRAHEDRA` are the tables of the mesh extractor.  A cube is named by its lowest
 grid point, a tetrahedron by its cube and its row in the table.  The tables list, for each of the
 six orders of the three axes, the lattice points met when walking from the lowest to the highest
 corner one axis at a time; `Contains` states that without the tables, and everything about
 neighbouring cubes is proved from it.
 */
module Tetrahedra {

  datatype Point = Point(row: int, column: int, page: int)

  datatype Tetrahedron = Tetrahedron(cube: Point, kind: nat)

  const CORNERS: seq<Point> := [
    Point(0, 0, 0), Point(0, 1, 0), Point(1, 1, 0), Point(1, 0, 0),
    Point(0, 0, 1), Point(0, 1, 1), Point(1, 1, 1), Point(1, 0, 1)]

  const TETRAHEDRA: seq<seq<nat>> := [
    [0, 1, 2, 6], [0, 2, 3, 6], [0, 3, 7, 6], [0, 7, 4, 6], [0, 4, 5, 6], [0, 5, 1, 6]]

  function Corner(cube: Point, k: nat): Point
    requires k < 8
  {
    Point(cube.row + CORNERS[k].row, cube.column + CORNERS[k].column, cube.page + CORNERS[k].page)
  }

  /** The `i`-th corner of a tetrahedron, read from the tables. */
  function Vertex(t: Tetrahedron, i: nat): Point
    requires t.kind < 6 && i < 4
  {
    Corner(t.cube, TETRAHEDRA[t.kind][i])
  }

  predicate Descending(a: int, b: int, c: int) {
    1 >= a >= b >= c >= 0
  }

  /** Membership without the tables: the cube-relative coordinates descend in the kind's axis order. */
  predicate Contains(t: Tetrahedron, p: Point) {
    var r, c, g := p.row - t.cube.row, p.column - t.cube.column, p.page - t.cube.page;
    if t.kind == 0 then Descending(c, r, g)
    else if t.kind == 1 then Descending(r, c, g)
    else if t.kind == 2 then Descending(r, g, c)
    else if t.kind == 3 then Descending(g, r, c)
    else if t.kind == 4 then Descending(g, c, r)
    else t.kind == 5 && Descending(c, g, r)
  }

  /** The four table entries of a tetrahedron are distinct and are exactly the points it contains. */
  lemma TableMatchesContains(t: Tetrahedron, p: Point)
    requires t.kind < 6
    ensures Contains(t, p) <==> p in [Vertex(t, 0), Vertex(t, 1), Vertex(t, 2), Vertex(t, 3)]
    ensures forall i, j | 0 <= i < j < 4 :: Vertex(t, i) != Vertex(t, j)
  {
    var k := t.kind;
    assert k == 0 || k == 1 || k == 2 || k == 3 || k == 4 || k == 5;
  }

  /**
   The tetrahedron on the other side of the face opposite corner `x`.  Dropping the lowest or the
   highest corner leads to a neighbouring cube, dropping a middle one stays in the cube.
   */
  function Across(t: Tetrahedron, x: Point): (u: Tetrahedron)
    requires t.kind < 6
    ensures u.kind < 6
  {
    var Point(r, c, g) := t.cube;
    var weight := (x.row - r) + (x.column - c) + (x.page - g);
    if weight == 0 then
      if t.kind == 0 then Tetrahedron(Point(r, c + 1, g), 2)
      else if t.kind == 1 then Tetrahedron(Point(r + 1, c, g), 5)
      else if t.kind == 2 then Tetrahedron(Point(r + 1, c, g), 4)
      else if t.kind == 3 then Tetrahedron(Point(r, c, g + 1), 1)
      else if t.kind == 4 then Tetrahedron(Point(r, c, g + 1), 0)
      else Tetrahedron(Point(r, c + 1, g), 3)
    else if weight == 3 then
      if t.kind == 0 then Tetrahedron(Point(r, c, g - 1), 4)
      else if t.kind == 1 then Tetrahedron(Point(r, c, g - 1), 3)
      else if t.kind == 2 then Tetrahedron(Point(r, c - 1, g), 0)
      else if t.kind == 3 then Tetrahedron(Point(r, c - 1, g), 5)
      else if t.kind == 4 then Tetrahedron(Point(r - 1, c, g), 2)
      else Tetrahedron(Point(r - 1, c, g), 1)
    else if weight == 1 then
      Tetrahedron(t.cube, if t.kind % 2 == 0 then t.kind + 1 else t.kind - 1)
    else
      Tetrahedron(t.cube, if t.kind == 0 then 5 else if t.kind == 5 then 0
                          else if t.kind % 2 == 0 then t.kind - 1 else t.kind + 1)
  }

  ghost predicate AllIn(t: Tetrahedron, p: Point, q: Point, r: Point) {
    Contains(t, p) && Contains(t, q) && Contains(t, r)
  }

  /** The corners in ascending order: `i` coordinates have been raised. */
  function Chain(t: Tetrahedron, i: nat): Point
    requires t.kind < 6 && i < 4
  {
    var Point(r, c, g) := t.cube;
    if i == 0 then t.cube
    else if i == 3 then Point(r + 1, c + 1, g + 1)
    else if i == 1 then
      if t.kind == 1 || t.kind == 2 then Point(r + 1, c, g)
      else if t.kind == 0 || t.kind == 5 then Point(r, c + 1, g)
      else Point(r, c, g + 1)
    else
      if t.kind == 0 || t.kind == 1 then Point(r + 1, c + 1, g)
      else if t.kind == 2 || t.kind == 3 then Point(r + 1, c, g + 1)
      else Point(r, c + 1, g + 1)
  }

  lemma ContainsIsChain(t: Tetrahedron, p: Point)
    requires t.kind < 6
    ensures Contains(t, p) <==> p == Chain(t, 0) || p == Chain(t, 1) || p == Chain(t, 2) || p == Chain(t, 3)
  {
  }

  lemma LowestFaceHasTwoSides(t: Tetrahedron, w: Tetrahedron)
    requires t.kind < 6 && w.kind < 6
    ensures AllIn(w, Chain(t, 1), Chain(t, 2), Chain(t, 3)) <==> w == t || w == Across(t, Chain(t, 0))
  {
  }

  lemma HighestFaceHasTwoSides(t: Tetrahedron, w: Tetrahedron)
    requires t.kind < 6 && w.kind < 6
    ensures AllIn(w, Chain(t, 0), Chain(t, 1), Chain(t, 2)) <==> w == t || w == Across(t, Chain(t, 3))
  {
  }

  lemma MiddleFacesHaveTwoSides(t: Tetrahedron, w: Tetrahedron)
    requires t.kind < 6 && w.kind < 6
    ensures AllIn(w, Chain(t, 0), Chain(t, 2), Chain(t, 3)) <==> w == t || w == Across(t, Chain(t, 1))
    ensures AllIn(w, Chain(t, 0), Chain(t, 1), Chain(t, 3)) <==> w == t || w == Across(t, Chain(t, 2))
  {
  }

  /** Conformity: a face lies in exactly two tetrahedra of the infinite grid, its own and `Across`. */
  lemma FaceHasTwoSides(t: Tetrahedron, x: Point, p: Point, q: Point, r: Point, w: Tetrahedron)
    requires t.kind < 6 && w.kind < 6
    requires Contains(t, x) && AllIn(t, p, q, r)
    requires x != p && x != q && x != r && p != q && p != r && q != r
    ensures Across(t, x) != t
    ensures AllIn(w, p, q, r) <==> w == t || w == Across(t, x)
  {
    ContainsIsChain(t, x);
    ContainsIsChain(t, p);
    ContainsIsChain(t, q);
    ContainsIsChain(t, r);
    LowestFaceHasTwoSides(t, w);
    HighestFaceHasTwoSides(t, w);
    MiddleFacesHaveTwoSides(t, w);
  }

  /** Four corners determine their tetrahedron: the far side of a face never holds the near corner. */
  lemma FarSideExcludes(t: Tetrahedron, x: Point)
    requires t.kind < 6 && Contains(t, x)
    ensures !Contains(Across(t, x), x)
  {
    ContainsIsChain(t, x);
  }

  /** The point at which corner `i` ends up when reflected in the middle of the edge two corners away. */
  function Reflection(t: Tetrahedron, i: nat): Point
    requires t.kind < 6 && i < 4
  {
    var j := if i % 2 == 0 then 1 else 0;
    var m, n, x := Chain(t, j), Chain(t, j + 2), Chain(t, i);
    Point(m.row + n.row - x.row, m.column + n.column - x.column, m.page + n.page - x.page)
  }

  lemma BeyondEnds(t: Tetrahedron, y: Point)
    requires t.kind < 6 && !Contains(t, y)
    ensures Contains(Across(t, Chain(t, 0)), y) ==> y == Reflection(t, 0)
    ensures Contains(Across(t, Chain(t, 3)), y) ==> y == Reflection(t, 3)
  {
  }

  lemma BeyondMiddle(t: Tetrahedron, y: Point)
    requires t.kind < 6 && !Contains(t, y)
    ensures Contains(Across(t, Chain(t, 1)), y) ==> y == Reflection(t, 1)
    ensures Contains(Across(t, Chain(t, 2)), y) ==> y == Reflection(t, 2)
  {
  }

  /** The corners on the two sides of a face are each other's reflections in the middle of one of its edges. */
  lemma ReflectedCorner(t: Tetrahedron, x: Point, y: Point) returns (i: nat)
    requires t.kind < 6 && Contains(t, x) && Contains(Across(t, x), y) && !Contains(t, y)
    ensures i < 4 && x == Chain(t, i) && y == Reflection(t, i)
  {
    ContainsIsChain(t, x);
    BeyondEnds(t, y);
    BeyondMiddle(t, y);
    i := if x == Chain(t, 0) then 0 else if x == Chain(t, 1) then 1 else if x == Chain(t, 2) then 2 else 3;
  }

  /** The extents of a volume; real volumes have at least two grid points along each axis. */
  datatype Extents = Extents(rows: nat, columns: nat, pages: nat)
  {
    predicate Valid() {
      rows >= 2 && columns >= 2 && pages >= 2
    }

    predicate HasPoint(p: Point) {
      0 <= p.row < rows && 0 <= p.column < columns && 0 <= p.page < pages
    }

    predicate HasCube(p: Point) {
      0 <= p.row < rows - 1 && 0 <= p.column < columns - 1 && 0 <= p.page < pages - 1
    }

    predicate HasTetrahedron(t: Tetrahedron) {
      t.kind < 6 && HasCube(t.cube)
    }

    /** The points lie together on one of the six outer planes. */
    predicate OnOuterPlane(p: Point, q: Point, r: Point, s: Point) {
      || p.row == q.row == r.row == s.row == 0
      || p.row == q.row == r.row == s.row == rows - 1
      || p.column == q.column == r.column == s.column == 0
      || p.column == q.column == r.column == s.column == columns - 1
      || p.page == q.page == r.page == s.page == 0
      || p.page == q.page == r.page == s.page == pages - 1
    }
  }

  /** The far side of a face is missing from the volume exactly when the face is on its boundary. */
  lemma BoundaryFaces(e: Extents, t: Tetrahedron, x: Point, p: Point, q: Point, r: Point)
    requires e.Valid() && e.HasTetrahedron(t)
    requires Contains(t, x) && AllIn(t, p, q, r)
    requires x != p && x != q && x != r && p != q && p != r && q != r
    ensures e.HasTetrahedron(Across(t, x)) <==> !e.OnOuterPlane(p, q, r, r)
  {
    ContainsIsChain(t, x);
    ContainsIsChain(t, p);
    ContainsIsChain(t, q);
    ContainsIsChain(t, r);
    BoundaryChains(e, t);
  }

  lemma BoundaryChains(e: Extents, t: Tetrahedron)
    requires e.Valid() && e.HasTetrahedron(t)
    ensures e.HasTetrahedron(Across(t, Chain(t, 0))) <==> !e.OnOuterPlane(Chain(t, 1), Chain(t, 2), Chain(t, 3), Chain(t, 3))
    ensures e.HasTetrahedron(Across(t, Chain(t, 1))) <==> !e.OnOuterPlane(Chain(t, 0), Chain(t, 2), Chain(t, 3), Chain(t, 3))
    ensures e.HasTetrahedron(Across(t, Chain(t, 2))) <==> !e.OnOuterPlane(Chain(t, 0), Chain(t, 1), Chain(t, 3), Chain(t, 3))
    ensures e.HasTetrahedron(Across(t, Chain(t, 3))) <==> !e.OnOuterPlane(Chain(t, 0), Chain(t, 1), Chain(t, 2), Chain(t, 2))
  {
  }

  lemma PlaneOrder(e: Extents, p: Point, q: Point, r: Point)
    ensures e.OnOuterPlane(p, q, r, r) == e.OnOuterPlane(p, q, p, r) == e.OnOuterPlane(q, p, r, p)
  {
  }

  /** The same for a face given by two of its grid edges, `p-q` and `p'-q'`, sharing an end. */
  lemma BoundarySides(e: Extents, t: Tetrahedron, x: Point, p: Point, q: Point, p': Point, q': Point)
    requires e.Valid() && e.HasTetrahedron(t)
    requires Contains(t, x) && AllIn(t, p, q, p') && Contains(t, q')
    requires x != p && x != q && x != p' && x != q' && p != q && p != q' && p' != q && p' != q'
    requires (p == p') != (q == q')
    ensures e.HasTetrahedron(Across(t, x)) <==> !e.OnOuterPlane(p, q, p', q')
  {
    if p == p' {
      BoundaryFaces(e, t, x, p, q, q');
      PlaneOrder(e, p, q, q');
    } else {
      BoundaryFaces(e, t, x, q, p, p');
      PlaneOrder(e, q, p, p');
    }
  }
}
