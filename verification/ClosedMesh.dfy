/**
 The extracted mesh in its own terms: vertices, faces and cache, without the bookkeeping of the
 extraction.
 */
module ClosedMesh {
  import opened Isosurface
  import opened Sealing
  import opened Surfaces
  import opened IsoMeshes
  import opened IsoExtraction
  import opened ClosedSurface
  import opened DirectedCuts
  import opened OrientedSurface
  import opened IndexGrid
  import opened FacesOfField

  lemma {:induction false} FacesInRange(visible: Triangle -> bool, m: map<Edge, nat>, keys: seq<Edge>, ts: seq<Triangle>)
    requires Bijective(m, keys) && AllCached(m, ts)
    ensures forall i | 0 <= i < |FacesOf(visible, m, ts)| :: InRange(FacesOf(visible, m, ts)[i], |keys|)
  {
    if ts != [] {
      var n := |ts| - 1;
      FacesInRange(visible, m, keys, ts[..n]);
      assert Cached(m, ts[n]);
    }
  }

  lemma {:induction false} FacesAlike(visible: Triangle -> bool, seen: Triangle -> bool, m: map<Edge, nat>, ts: seq<Triangle>)
    requires AllCached(m, ts) && forall i | 0 <= i < |ts| :: seen(ts[i]) == visible(ts[i])
    ensures FacesOf(visible, m, ts) == FacesOf(seen, m, ts)
  {
    if ts != [] {
      FacesAlike(visible, seen, m, ts[..|ts| - 1]);
    }
  }

  lemma DescribesVisible(g: Geometry, f: Field, t: Triangle)
    requires f.Valid() && Describes(g, f) && Crosses(f, t)
    ensures g.visible(t) == Visible(f, t)
  {
    assert Unseal(0);
  }

  /** The faces that the extraction kept are the triangles that its field shows. */
  lemma FacesAreSeen(f: Field, g: Geometry, m: map<Edge, nat>, ts: seq<Triangle>)
    requires f.Valid() && Describes(g, f) && AllCross(f, ts) && AllCached(m, ts)
    ensures FacesOf(g.visible, m, ts) == FacesOf(Sees(f), m, ts)
  {
    forall i | 0 <= i < |ts| ensures Sees(f)(ts[i]) == g.visible(ts[i]) {
      DescribesVisible(g, f, ts[i]);
    }
    FacesAlike(g.visible, Sees(f), m, ts);
  }

  /** Every vertex is the iso-point of its grid edge, whichever cube or endpoint order asked for it first. */
  lemma VerticesAreIsoPoints(f: Field, g: Geometry, keys: seq<Edge>, vertices: seq<Vec>, k: nat)
    requires f.Valid() && Describes(g, f) && Placed(f, g, keys, vertices) && k < |keys|
    ensures |vertices| == |keys| && Crossing(f, keys[k]) && vertices[k] == IsoPoint(f, keys[k])
  {
    assert Unseal(0);
  }

  /** If face `i`, before the area test, joins two vertices, two faces do, or one on the outer boundary. */
  ghost predicate ClosedAt(f: Field, m: map<Edge, nat>, keys: seq<Edge>, ts: seq<Triangle>, i: nat, u: nat, v: nat)
    requires f.Valid() && AllCached(m, ts) && i < |ts| && u < |keys| && v < |keys|
  {
    FaceHasSide(AllFaces(m, ts)[i], u, v) ==>
      && Crossing(f, keys[u]) && Crossing(f, keys[v])
      && FaceSides(AllFaces(m, ts), u, v) == if OnOuterFace(f, keys[u], keys[v]) then 1 else 2
  }

  ghost predicate IsClosed(f: Field, m: map<Edge, nat>, keys: seq<Edge>, ts: seq<Triangle>)
    requires f.Valid() && AllCached(m, ts)
  {
    forall i: nat, u: nat, v: nat | i < |ts| && u < |keys| && v < |keys| :: ClosedAt(f, m, keys, ts, i, u, v)
  }

  // ----- the faces that are kept

  lemma {:induction false} KeptSides(seen: Triangle -> bool, m: map<Edge, nat>, ts: seq<Triangle>, u: nat, v: nat)
    requires AllCached(m, ts)
    ensures FaceSides(FacesOf(seen, m, ts), u, v) <= FaceSides(AllFaces(m, ts), u, v)
  {
    if ts != [] {
      var n := |ts| - 1;
      KeptSides(seen, m, ts[..n], u, v);
      assert AllFaces(m, ts)[..n] == AllFaces(m, ts[..n]);
      var kept := FacesOf(seen, m, ts[..n]);
      FaceSidesSnoc(kept, FaceOf(m, ts[n]), u, v);
      assert kept + [] == kept;
    }
  }

  lemma FaceSidesSnoc(fs: seq<Face>, face: Face, u: nat, v: nat)
    ensures FaceSides(fs + [face], u, v) == FaceSides(fs, u, v) + if FaceHasSide(face, u, v) then 1 else 0
  {
    assert (fs + [face])[..|fs|] == fs;
  }

  lemma {:induction false} SomeFace(fs: seq<Face>, u: nat, v: nat) returns (i: nat)
    requires FaceSides(fs, u, v) > 0
    ensures i < |fs| && FaceHasSide(fs[i], u, v)
  {
    i := |fs| - 1;
    if !FaceHasSide(fs[i], u, v) {
      i := SomeFace(fs[..i], u, v);
    }
  }

  /** No two vertices are joined by more than two faces. */
  lemma AtMostTwoFaces(f: Field, seen: Triangle -> bool, m: map<Edge, nat>, keys: seq<Edge>, ts: seq<Triangle>, u: nat, v: nat)
    requires f.Valid() && AllCached(m, ts) && IsClosed(f, m, keys, ts) && u < |keys| && v < |keys|
    ensures FaceSides(FacesOf(seen, m, ts), u, v) <= 2
  {
    KeptSides(seen, m, ts, u, v);
    if FaceSides(AllFaces(m, ts), u, v) > 0 {
      var i := SomeFace(AllFaces(m, ts), u, v);
      assert ClosedAt(f, m, keys, ts, i, u, v);
    }
  }

  /** The face runs from vertex `u` to vertex `v`. */
  predicate FaceRuns(face: Face, u: nat, v: nat) {
    (face.a == u && face.b == v) || (face.b == u && face.c == v) || (face.c == u && face.a == v)
  }

  /** How many faces run from `u` to `v`. */
  ghost function FacePassages(fs: seq<Face>, u: nat, v: nat): nat {
    if fs == [] then 0 else
      var n := |fs| - 1;
      FacePassages(fs[..n], u, v) + if FaceRuns(fs[n], u, v) then 1 else 0
  }

  lemma FacePassagesSnoc(fs: seq<Face>, face: Face, u: nat, v: nat)
    ensures FacePassages(fs + [face], u, v) == FacePassages(fs, u, v) + if FaceRuns(face, u, v) then 1 else 0
  {
    assert (fs + [face])[..|fs|] == fs;
  }

  lemma FaceRunsMatches(m: map<Edge, nat>, keys: seq<Edge>, t: Triangle, u: nat, v: nat)
    requires Bijective(m, keys) && Cached(m, t) && u < |keys| && v < |keys|
    ensures FaceRuns(FaceOf(m, t), u, v) <==> Directed(t, keys[u], keys[v])
  {
    assert keys[m[t.a]] == t.a && keys[m[t.b]] == t.b && keys[m[t.c]] == t.c;
    assert m[keys[u]] == u && m[keys[v]] == v;
  }

  lemma {:induction false} FacePassagesMatch(seen: Triangle -> bool, m: map<Edge, nat>, keys: seq<Edge>,
                                             ts: seq<Triangle>, u: nat, v: nat)
    requires Bijective(m, keys) && AllCached(m, ts) && u < |keys| && v < |keys|
    ensures FacePassages(FacesOf(seen, m, ts), u, v) == Passages(seen, ts, keys[u], keys[v])
  {
    if ts != [] {
      var n := |ts| - 1;
      FacePassagesMatch(seen, m, keys, ts[..n], u, v);
      FaceRunsMatches(m, keys, ts[n], u, v);
      var kept := FacesOf(seen, m, ts[..n]);
      FacePassagesSnoc(kept, FaceOf(m, ts[n]), u, v);
      assert kept + [] == kept;
    }
  }

  /** No two faces run along a side in the same direction. */
  ghost predicate IsOriented(fs: seq<Face>, n: nat) {
    forall u: nat, v: nat | u < n && v < n && u != v :: FacePassages(fs, u, v) <= 1
  }

  lemma PassagesAreCached(f: Field, seen: Triangle -> bool, m: map<Edge, nat>, keys: seq<Edge>, e: Edge, g: Edge)
    requires f.Valid() && Bijective(m, keys) && AllCached(m, Surface(f)) && e != g && Passages(seen, Surface(f), e, g) > 0
    ensures e in m && g in m && m[e] < |keys| && m[g] < |keys| && keys[m[e]] == e && keys[m[g]] == g
  {
    var t := SomePassage(seen, Surface(f), e, g);
    var i :| 0 <= i < |Surface(f)| && Surface(f)[i] == t;
    assert Cached(m, Surface(f)[i]);
  }

  /** The faces are consistently oriented if and only if the grid is not folded over where kept triangles meet. */
  lemma OrientedIffStraight(f: Field, m: map<Edge, nat>, keys: seq<Edge>)
    requires f.Valid() && Bijective(m, keys) && AllCached(m, Surface(f))
    ensures IsOriented(FacesOf(Sees(f), m, Surface(f)), |keys|) <==> Straight(f)
  {
    var seen := Sees(f);
    SeesIsSeen(f);
    StraightIffRunsOnce(f, seen);
    if Straight(f) {
      forall u: nat, v: nat | u < |keys| && v < |keys| && u != v
        ensures FacePassages(FacesOf(seen, m, Surface(f)), u, v) <= 1
      {
        assert m[keys[u]] == u && m[keys[v]] == v;
        FacePassagesMatch(seen, m, keys, Surface(f), u, v);
      }
    }
    if IsOriented(FacesOf(seen, m, Surface(f)), |keys|) {
      forall e, g | e != g ensures Passages(seen, Surface(f), e, g) <= 1 {
        if Passages(seen, Surface(f), e, g) > 0 {
          PassagesAreCached(f, seen, m, keys, e, g);
          FacePassagesMatch(seen, m, keys, Surface(f), m[e], m[g]);
        }
      }
    }
  }

  // ----- the whole extraction

  /**
   Extracts a mesh whose cache numbers exactly the crossing edges without gaps, whose vertices are their
   iso-points, and whose faces are the visible ones of the triangles of the surface, which is closed.
   No two vertices are joined by more than two faces; and two faces with a common side run along it in
   opposite directions if and only if the tetrahedra lean opposite ways wherever kept triangles meet, as
   they do unless explicit coordinates fold the grid over.
   */
  method ExtractClosedMesh(f: Field) returns (mesh: IsoMesh)
    requires f.Valid()
    ensures fresh(mesh)
    ensures forall e :: e in mesh.edgeVertices <==> CutEdge(f, e)
    ensures Bijective(mesh.edgeVertices, mesh.keys) && |mesh.vertices| == |mesh.keys|
    ensures forall k: nat | k < |mesh.vertices| ::
              Crossing(f, mesh.keys[k]) && mesh.vertices[k] == IsoPoint(f, mesh.keys[k])
    ensures forall k: nat | k < |mesh.vertices| :: VertexMeetsIso(f, mesh.keys[k], mesh.vertices[k])
    ensures forall i | 0 <= i < |mesh.faces| :: InRange(mesh.faces[i], |mesh.vertices|)
    ensures mesh.triangles == Surface(f) && AllCross(f, mesh.triangles) && AllCached(mesh.edgeVertices, mesh.triangles)
    ensures mesh.faces == FacesOf(Sees(f), mesh.edgeVertices, mesh.triangles)
    ensures forall i | 0 <= i < |mesh.faces| :: FaceOfField(f, mesh.keys, mesh.vertices, mesh.faces[i])
    ensures KeepsLarge(mesh.edgeVertices, mesh.vertices, mesh.triangles, mesh.faces)
    ensures forall k: nat | k < |mesh.vertices| :: Uses(mesh.triangles, mesh.keys[k])
    ensures IsClosed(f, mesh.edgeVertices, mesh.keys, mesh.triangles)
    ensures forall u: nat, v: nat | u < |mesh.vertices| && v < |mesh.vertices| :: FaceSides(mesh.faces, u, v) <= 2
    ensures IsOriented(mesh.faces, |mesh.vertices|) <==> Straight(f)
    ensures f.coordinates.Indices? || Unfolded(f) ==> Straight(f)
  {
    ghost var g;
    mesh, g := ExtractIsosurface(f);
    ghost var m, keys, ts := mesh.edgeVertices, mesh.keys, mesh.triangles;
    VerticesAll(f, g, keys, mesh.vertices);
    SurfaceCrosses(f);
    FacesAreSeen(f, g, m, ts);
    FacesInRange(Sees(f), m, keys, ts);
    FacesAreOfField(f, m, keys, mesh.vertices, mesh.faces);
    VerticesUsed(f, m, keys, ts);
    ClosedAll(f, m, keys, ts);
    forall u: nat, v: nat | u < |keys| && v < |keys| ensures FaceSides(mesh.faces, u, v) <= 2 {
      AtMostTwoFaces(f, Sees(f), m, keys, ts, u, v);
    }
    OrientedIffStraight(f, m, keys);
    if f.coordinates.Indices? {
      IndicesUnfolded(f);
    }
    if Unfolded(f) {
      UnfoldedIsStraight(f);
    }
  }

  lemma VerticesAll(f: Field, g: Geometry, keys: seq<Edge>, vertices: seq<Vec>)
    requires f.Valid() && Describes(g, f) && Placed(f, g, keys, vertices)
    ensures |vertices| == |keys|
    ensures forall k: nat | k < |vertices| :: Crossing(f, keys[k]) && vertices[k] == IsoPoint(f, keys[k])
    ensures forall k: nat | k < |vertices| :: VertexMeetsIso(f, keys[k], vertices[k])
  {
    forall k: nat | k < |keys|
      ensures Crossing(f, keys[k]) && vertices[k] == IsoPoint(f, keys[k]) && VertexMeetsIso(f, keys[k], vertices[k])
    {
      VerticesAreIsoPoints(f, g, keys, vertices, k);
      IsoPointMeetsIso(f, keys[k]);
    }
  }

  lemma VerticesUsed(f: Field, m: map<Edge, nat>, keys: seq<Edge>, ts: seq<Triangle>)
    requires f.Valid() && Bijective(m, keys) && ts == Surface(f) && forall e :: e in m <==> CutEdge(f, e)
    ensures forall k: nat | k < |keys| :: Uses(ts, keys[k])
  {
    forall k: nat | k < |keys| ensures Uses(ts, keys[k]) {
      assert keys[k] in m;
      SurfaceUses(f, keys[k]);
    }
  }

  lemma SurfaceClosedAt(f: Field, m: map<Edge, nat>, keys: seq<Edge>, ts: seq<Triangle>, i: nat, u: nat, v: nat)
    requires f.Valid() && Bijective(m, keys) && ts == Surface(f) && AllCached(m, ts)
    requires i < |ts| && u < |keys| && v < |keys|
    ensures ClosedAt(f, m, keys, ts, i, u, v)
  {
    if FaceHasSide(AllFaces(m, ts)[i], u, v) {
      MeshIsClosed(f, m, keys, i, u, v);
    }
  }

  lemma ClosedAll(f: Field, m: map<Edge, nat>, keys: seq<Edge>, ts: seq<Triangle>)
    requires f.Valid() && Bijective(m, keys) && ts == Surface(f) && AllCached(m, ts)
    ensures IsClosed(f, m, keys, ts)
  {
    forall i: nat, u: nat, v: nat | i < |ts| && u < |keys| && v < |keys| ensures ClosedAt(f, m, keys, ts, i, u, v) {
      SurfaceClosedAt(f, m, keys, ts, i, u, v);
    }
  }
}
