/**
 The vertices and faces of a mesh against the field alone.

 `VertexMeetsIso` and `FaceOfField` say where a vertex is and which way a face is wound in terms of grid points,
 values and coordinates, without the formulas by which the extractor finds them.
 */
module FacesOfField {
  import opened Tetrahedra
  import opened Isosurface
  import opened Surfaces
  import opened IsoMeshes
  import opened IsoExtraction
  import opened ClosedSurface
  import opened OrientedSurface
  import opened LevelFaces
  import opened Doubles

  predicate InRange(face: Face, n: nat) {
    face.a < n && face.b < n && face.c < n
  }

  /** The vertex lies on its grid edge, one end of which is below the iso-value, where the field meets the iso-value. */
  ghost predicate VertexMeetsIso(f: Field, e: Edge, p: Vec)
    requires f.Valid()
  {
    && e.first < e.second < |f.values|
    && (f.values[e.first] < f.iso <==> f.values[e.second] >= f.iso)
    && exists t: real :: MeetsIso(f, e, p, t)
  }

  /** The squared area of the parallelogram spanned by a triangle. */
  function AreaSquared(a: Vec, b: Vec, c: Vec): real {
    Dot(Cross(Sub(b, a), Sub(c, a)), Cross(Sub(b, a), Sub(c, a)))
  }

  /**
   The vertices of the face are on edges of one tetrahedron of the volume, between whose corners the face lies
   level: along its normal the field does not fall.  Its area is not negligible.
   */
  ghost predicate FaceOfField(f: Field, keys: seq<Edge>, vertices: seq<Vec>, face: Face)
    requires f.Valid()
  {
    && |keys| == |vertices| && InRange(face, |vertices|)
    && AreaSquared(vertices[face.a], vertices[face.b], vertices[face.c]) > EPSILON
    && exists t: Tetrahedron :: FaceIn(f, keys, vertices, face, t)
  }

  ghost predicate FaceIn(f: Field, keys: seq<Edge>, vertices: seq<Vec>, face: Face, t: Tetrahedron)
    requires f.Valid() && |keys| == |vertices| && InRange(face, |vertices|)
  {
    && f.extents.HasTetrahedron(t)
    && IsEdgeOf(f, t, keys[face.a]) && IsEdgeOf(f, t, keys[face.b]) && IsEdgeOf(f, t, keys[face.c])
    && LiesLevel(f, CornerOffsets(f, t), vertices[face.a], vertices[face.b], vertices[face.c])
  }

  lemma IsoPointMeetsIso(f: Field, e: Edge)
    requires f.Valid() && Crossing(f, e)
    ensures VertexMeetsIso(f, e, IsoPoint(f, e))
  {
    var t := IsoPointMeets(f, e);
  }

  // ----- from faces to triangles

  lemma {:induction false} FaceFrom(seen: Triangle -> bool, m: map<Edge, nat>, ts: seq<Triangle>, i: nat) returns (j: nat)
    requires AllCached(m, ts) && i < |FacesOf(seen, m, ts)|
    ensures j < |ts| && seen(ts[j]) && FacesOf(seen, m, ts)[i] == FaceOf(m, ts[j])
  {
    var n := |ts| - 1;
    if i < |FacesOf(seen, m, ts[..n])| {
      j := FaceFrom(seen, m, ts[..n], i);
    } else {
      j := n;
    }
  }

  lemma {:induction false} SeenIsFace(seen: Triangle -> bool, m: map<Edge, nat>, ts: seq<Triangle>, j: nat)
    requires AllCached(m, ts) && j < |ts| && seen(ts[j])
    ensures FaceOf(m, ts[j]) in FacesOf(seen, m, ts)
  {
    var n := |ts| - 1;
    if j < n {
      SeenIsFace(seen, m, ts[..n], j);
    }
  }

  /** Every triangle of the surface is cut from some tetrahedron. */
  lemma CutFrom(f: Field, u: Triangle) returns (t: Tetrahedron)
    requires f.Valid() && u in Surface(f)
    ensures f.extents.HasTetrahedron(t) && u in Patch(f, t)
  {
    var all := AllTetrahedra(f.extents);
    AllTetrahedraEnumerates(f.extents);
    var k := PartWithTriangle(Patches(f, all), u);
    t := all[k];
  }

  lemma CutVertices(ins: seq<nat>, outs: seq<nat>, t: Triangle, e: Edge)
    requires t in Cut(ins, outs) && HasVertex(t, e)
    ensures e in PairKeys(ins, outs)
  {
    if |ins| == 3 {
      assert Key(outs[0], ins[0]) == Key(ins[0], outs[0]) && Key(outs[0], ins[1]) == Key(ins[1], outs[0])
             && Key(outs[0], ins[2]) == Key(ins[2], outs[0]);
    }
  }

  /** And its vertices are on edges of that tetrahedron. */
  lemma PatchEdges(f: Field, t: Tetrahedron, u: Triangle, e: Edge)
    requires f.Valid() && f.extents.HasTetrahedron(t) && u in Patch(f, t) && HasVertex(u, e)
    ensures IsEdgeOf(f, t, e)
  {
    var q := CornerOffsets(f, t);
    var cut, w := PatchMember(f, t, u, Below(f, q), NotBelow(f, q));
    CutVertices(Below(f, q), NotBelow(f, q), cut, e);
    CrossingIsEdge(f, t, e);
  }

  lemma SeenIn(f: Field, u: Triangle) returns (t: Tetrahedron)
    requires f.Valid() && u in Surface(f) && Crosses(f, u) && Visible(f, u)
    ensures f.extents.HasTetrahedron(t) && IsEdgeOf(f, t, u.a) && IsEdgeOf(f, t, u.b) && IsEdgeOf(f, t, u.c)
    ensures LiesLevel(f, CornerOffsets(f, t), IsoPoint(f, u.a), IsoPoint(f, u.b), IsoPoint(f, u.c))
  {
    t := CutFrom(f, u);
    PatchEdges(f, t, u, u.a);
    PatchEdges(f, t, u, u.b);
    PatchEdges(f, t, u, u.c);
    PatchLiesLevel(f, t, u);
  }

  lemma VisibleArea(f: Field, u: Triangle, a: Vec, b: Vec, c: Vec)
    requires f.Valid() && Crosses(f, u) && a == IsoPoint(f, u.a) && b == IsoPoint(f, u.b) && c == IsoPoint(f, u.c)
    ensures Visible(f, u) <==> AreaSquared(a, b, c) > EPSILON
  {
  }

  lemma FaceFits(f: Field, keys: seq<Edge>, vertices: seq<Vec>, face: Face, t: Tetrahedron, a: Vec, b: Vec, c: Vec)
    requires f.Valid() && |keys| == |vertices| && InRange(face, |vertices|) && f.extents.HasTetrahedron(t)
    requires vertices[face.a] == a && vertices[face.b] == b && vertices[face.c] == c
    requires IsEdgeOf(f, t, keys[face.a]) && IsEdgeOf(f, t, keys[face.b]) && IsEdgeOf(f, t, keys[face.c])
    requires LiesLevel(f, CornerOffsets(f, t), a, b, c) && AreaSquared(a, b, c) > EPSILON
    ensures FaceOfField(f, keys, vertices, face)
  {
    assert FaceIn(f, keys, vertices, face, t);
  }

  /** Vertex numbers and grid edges name each other. */
  lemma FaceNames(m: map<Edge, nat>, keys: seq<Edge>, u: Triangle)
    requires Bijective(m, keys) && Cached(m, u)
    ensures InRange(FaceOf(m, u), |keys|)
    ensures var face := FaceOf(m, u); keys[face.a] == u.a && keys[face.b] == u.b && keys[face.c] == u.c
  {
  }

  lemma SeenOfField(f: Field, m: map<Edge, nat>, keys: seq<Edge>, vertices: seq<Vec>, u: Triangle)
    requires f.Valid() && Bijective(m, keys) && |vertices| == |keys| && Cached(m, u)
    requires forall k: nat | k < |vertices| :: Crossing(f, keys[k]) && vertices[k] == IsoPoint(f, keys[k])
    requires u in Surface(f) && Crosses(f, u) && Visible(f, u)
    ensures FaceOfField(f, keys, vertices, FaceOf(m, u))
  {
    FaceNames(m, keys, u);
    var t := SeenIn(f, u);
    VisibleArea(f, u, IsoPoint(f, u.a), IsoPoint(f, u.b), IsoPoint(f, u.c));
    FaceFits(f, keys, vertices, FaceOf(m, u), t, IsoPoint(f, u.a), IsoPoint(f, u.b), IsoPoint(f, u.c));
  }

  /** Every triangle with an area that is not negligible is kept. */
  ghost predicate KeepsLarge(m: map<Edge, nat>, vertices: seq<Vec>, ts: seq<Triangle>, faces: seq<Face>)
    requires AllCached(m, ts)
  {
    forall j: nat | j < |ts| :: LargeIsKept(vertices, FaceOf(m, ts[j]), faces)
  }

  ghost predicate LargeIsKept(vertices: seq<Vec>, face: Face, faces: seq<Face>) {
    InRange(face, |vertices|) &&
    (AreaSquared(vertices[face.a], vertices[face.b], vertices[face.c]) > EPSILON ==> face in faces)
  }

  lemma LargeKept(f: Field, m: map<Edge, nat>, keys: seq<Edge>, vertices: seq<Vec>, ts: seq<Triangle>, j: nat)
    requires f.Valid() && Bijective(m, keys) && |vertices| == |keys| && AllCached(m, ts) && AllCross(f, ts) && j < |ts|
    requires forall k: nat | k < |vertices| :: Crossing(f, keys[k]) && vertices[k] == IsoPoint(f, keys[k])
    ensures LargeIsKept(vertices, FaceOf(m, ts[j]), FacesOf(Sees(f), m, ts))
  {
    var u, face := ts[j], FaceOf(m, ts[j]);
    assert Cached(m, u);
    FaceNames(m, keys, u);
    VisibleArea(f, u, IsoPoint(f, u.a), IsoPoint(f, u.b), IsoPoint(f, u.c));
    if AreaSquared(vertices[face.a], vertices[face.b], vertices[face.c]) > EPSILON {
      SeenIsFace(Sees(f), m, ts, j);
    }
  }

  /** The faces of the surface, by the positions of the vertices. */
  lemma FacesAreOfField(f: Field, m: map<Edge, nat>, keys: seq<Edge>, vertices: seq<Vec>, faces: seq<Face>)
    requires f.Valid() && Bijective(m, keys) && |vertices| == |keys| && AllCached(m, Surface(f)) && AllCross(f, Surface(f))
    requires forall k: nat | k < |vertices| :: Crossing(f, keys[k]) && vertices[k] == IsoPoint(f, keys[k])
    requires faces == FacesOf(Sees(f), m, Surface(f))
    ensures forall i | 0 <= i < |faces| :: FaceOfField(f, keys, vertices, faces[i])
    ensures KeepsLarge(m, vertices, Surface(f), faces)
  {
    var ts := Surface(f);
    forall i | 0 <= i < |faces| ensures FaceOfField(f, keys, vertices, faces[i]) {
      var j := FaceFrom(Sees(f), m, ts, i);
      assert Cached(m, ts[j]);
      SeenOfField(f, m, keys, vertices, ts[j]);
    }
    forall j: nat | j < |ts| ensures LargeIsKept(vertices, FaceOf(m, ts[j]), faces) {
      LargeKept(f, m, keys, vertices, ts, j);
    }
  }

  // ----- nothing is left out

  lemma {:induction false} PartInFlatten(parts: seq<seq<Triangle>>, k: nat, t: Triangle)
    requires k < |parts| && t in parts[k]
    ensures t in Flatten(parts)
  {
    var n := |parts| - 1;
    if k < n {
      PartInFlatten(parts[..n], k, t);
    }
  }

  /** Every edge between an inside and an outside corner is cut by a triangle. */
  lemma CutUses(ins: seq<nat>, outs: seq<nat>, e: Edge) returns (k: nat)
    requires |ins| + |outs| == 4 && e in PairKeys(ins, outs)
    ensures k < |Cut(ins, outs)| && HasVertex(Cut(ins, outs)[k], e)
  {
    var i, o :| i in ins && o in outs && e == Key(i, o);
    k := if |ins| == 2 && i == ins[1] && o == outs[0] then 1 else 0;
    assert e == Key(o, i);
  }

  lemma OrientedVertex(f: Field, t: Triangle, w: Vec, e: Edge)
    requires f.Valid() && Crosses(f, t)
    ensures HasVertex(Oriented(f, t, w), e) <==> HasVertex(t, e)
  {
  }

  lemma OrientAllUses(f: Field, ts: seq<Triangle>, w: Vec, e: Edge, k: nat)
    requires f.Valid() && AllCross(f, ts) && k < |ts| && HasVertex(ts[k], e)
    ensures HasVertex(OrientAll(f, ts, w)[k], e)
  {
    OrientedVertex(f, ts[k], w, e);
  }

  lemma PatchUses(f: Field, t: Tetrahedron, e: Edge) returns (u: Triangle)
    requires f.Valid() && f.extents.HasTetrahedron(t) && e in CrossingsOf(f, t)
    ensures u in Patch(f, t) && HasVertex(u, e)
  {
    var q := CornerOffsets(f, t);
    var ins, outs := Below(f, q), NotBelow(f, q);
    var k := CutUses(ins, outs, e);
    CutCrosses(f, q);
    OrientAllUses(f, Cut(ins, outs), Outward(f, ins, outs), e, k);
    u := Patch(f, t)[k];
  }

  /** The grid edge is cut by one of the triangles. */
  ghost predicate Uses(ts: seq<Triangle>, e: Edge) {
    exists j | 0 <= j < |ts| :: HasVertex(ts[j], e)
  }

  lemma PartUses(parts: seq<seq<Triangle>>, k: nat, u: Triangle, e: Edge)
    requires k < |parts| && u in parts[k] && HasVertex(u, e)
    ensures Uses(Flatten(parts), e)
  {
    PartInFlatten(parts, k, u);
    var j :| 0 <= j < |Flatten(parts)| && Flatten(parts)[j] == u;
  }

  lemma TetrahedronUses(f: Field, t: Tetrahedron, e: Edge, all: seq<Tetrahedron>)
    requires f.Valid() && Enumerates(f.extents, all) && f.extents.HasTetrahedron(t) && e in CrossingsOf(f, t)
    ensures Uses(Flatten(Patches(f, all)), e)
  {
    var u := PatchUses(f, t, e);
    var k :| 0 <= k < |all| && all[k] == t;
    PartUses(Patches(f, all), k, u, e);
  }

  /** Every grid edge of the volume that crosses the iso-value is cut by a triangle of the surface. */
  lemma SurfaceUses(f: Field, e: Edge)
    requires f.Valid() && CutEdge(f, e)
    ensures Uses(Surface(f), e)
  {
    var t :| IsEdgeOf(f, t, e);
    EdgeIsCrossing(f, t, e);
    AllTetrahedraEnumerates(f.extents);
    TetrahedronUses(f, t, e, AllTetrahedra(f.extents));
  }

  /** Where a grid point is: at its explicit coordinates, or at its one-based column, row and page. */
  lemma GridPosition(f: Field, row: nat, column: nat, page: nat)
    requires f.Valid() && row < f.extents.rows && column < f.extents.columns && page < f.extents.pages
    ensures var o := row + f.extents.rows * (column + f.extents.columns * page);
            && o < |f.values|
            && f.Position(o) == match f.coordinates
                                case Given(x, y, z) => Vec(x[o], y[o], z[o])
                                case Indices => Vec(column as real + 1.0, row as real + 1.0, page as real + 1.0)
  {
    f.PointAtOffset(Point(row, column, page));
  }
}
