/**
 The extracted surface is combinatorially closed.

 The counting is done for any list of parts that meet the rule `CutsLike`, so that it needs neither
 the tables nor the geometry; the surface of a field is the instance at the end.
 */
module ClosedSurface {
  import opened Tetrahedra
  import opened Isosurface
  import opened Surfaces
  import opened IsoMeshes

  // ----- counting

  lemma {:induction false} PartWithTriangle(parts: seq<seq<Triangle>>, t: Triangle) returns (k: nat)
    requires t in Flatten(parts)
    ensures k < |parts| && t in parts[k]
  {
    var n := |parts| - 1;
    if t in parts[n] {
      k := n;
    } else {
      k := PartWithTriangle(parts[..n], t);
    }
  }

  /** Exactly the parts numbered in `s` have the side, each `w` times. */
  ghost predicate ContributedBy(parts: seq<seq<Triangle>>, e: Edge, g: Edge, s: set<nat>, w: nat) {
    && (forall k | k in s :: k < |parts|)
    && (forall k | 0 <= k < |parts| :: Sides(parts[k], e, g) == if k in s then w else 0)
  }

  lemma OneMore(w: nat, k: nat)
    ensures w * k + w == w * (k + 1)
  {
  }

  lemma {:induction false} CountContributions(parts: seq<seq<Triangle>>, e: Edge, g: Edge, s: set<nat>, w: nat)
    requires ContributedBy(parts, e, g, s, w)
    ensures Sides(Flatten(parts), e, g) == w * |s|
  {
    if parts == [] {
      assert s == {};
    } else {
      var n := |parts| - 1;
      SidesConcat(Flatten(parts[..n]), parts[n], e, g);
      CountContributions(parts[..n], e, g, s - {n}, w);
      if n in s {
        OneMore(w, |s - {n}|);
      } else {
        assert s - {n} == s;
      }
    }
  }

  lemma {:induction false} SideInTriangles(ts: seq<Triangle>, t: Triangle, e: Edge, g: Edge)
    requires t in ts && HasSide(t, e, g)
    ensures Sides(ts, e, g) > 0
  {
    var n := |ts| - 1;
    if t != ts[n] {
      SideInTriangles(ts[..n], t, e, g);
    }
  }

  // ----- end points

  /** The ends of the two grid edges lie together on one of the volume's six outer planes. */
  ghost predicate OnOuterFace(f: Field, e: Edge, g: Edge)
    requires f.Valid() && Crossing(f, e) && Crossing(f, g)
  {
    f.extents.OnOuterPlane(f.PointAt(e.first), f.PointAt(e.second), f.PointAt(g.first), f.PointAt(g.second))
  }

  lemma FourthCorner(t: Tetrahedron, p: Point, q: Point, r: Point) returns (x: Point)
    requires t.kind < 6 && AllIn(t, p, q, r)
    ensures Contains(t, x) && x != p && x != q && x != r
  {
    ContainsIsChain(t, Chain(t, 0));
    ContainsIsChain(t, Chain(t, 1));
    ContainsIsChain(t, Chain(t, 2));
    ContainsIsChain(t, Chain(t, 3));
    x :| x in [Chain(t, 0), Chain(t, 1), Chain(t, 2), Chain(t, 3)] && x != p && x != q && x != r;
  }

  lemma PointsDiffer(f: Field, a: nat, b: nat)
    requires f.Valid() && a < |f.values| && b < |f.values| && a != b
    ensures f.PointAt(a) != f.PointAt(b)
  {
    assert f.Offset(f.PointAt(a)) == a && f.Offset(f.PointAt(b)) == b;
  }

  lemma EndsDiffer(f: Field, i: nat, o: nat, i': nat, o': nat)
    requires f.Valid() && TwoCrossings(f, i, o, i', o')
    ensures var p, q, p', q' := f.PointAt(i), f.PointAt(o), f.PointAt(i'), f.PointAt(o');
            && p != q && p != q' && p' != q && p' != q'
            && (p == p' <==> i == i') && (q == q' <==> o == o')
  {
    PointsDiffer(f, i, o);
    PointsDiffer(f, i, o');
    PointsDiffer(f, i', o);
    PointsDiffer(f, i', o');
    if i != i' { PointsDiffer(f, i, i'); }
    if o != o' { PointsDiffer(f, o, o'); }
  }

  lemma NotFlat(e: Extents, t: Tetrahedron, p: Point, q: Point, r: Point, s: Point)
    requires t.kind < 6 && AllIn(t, p, q, r) && Contains(t, s)
    requires p != q && p != r && p != s && q != r && q != s && r != s
    ensures !e.OnOuterPlane(p, q, r, s)
  {
    ContainsIsChain(t, p);
    ContainsIsChain(t, q);
    ContainsIsChain(t, r);
    ContainsIsChain(t, s);
  }

  ghost function LowEnd(f: Field, e: Edge): (i: nat)
    requires Crossing(f, e)
    ensures i < |f.values| && f.Low(i)
  {
    if f.Low(e.first) then e.first else e.second
  }

  ghost function HighEnd(f: Field, e: Edge): (o: nat)
    requires Crossing(f, e)
    ensures o < |f.values| && !f.Low(o) && Key(LowEnd(f, e), o) == e
  {
    if f.Low(e.first) then e.second else e.first
  }

  lemma OuterByEnds(f: Field, e: Edge, g: Edge)
    requires f.Valid() && Crossing(f, e) && Crossing(f, g)
    ensures OnOuterFace(f, e, g) ==
            f.extents.OnOuterPlane(f.PointAt(LowEnd(f, e)), f.PointAt(HighEnd(f, e)),
                                   f.PointAt(LowEnd(f, g)), f.PointAt(HighEnd(f, g)))
  {
    var p, q, r, s := f.PointAt(e.first), f.PointAt(e.second), f.PointAt(g.first), f.PointAt(g.second);
    PlaneSwaps(f.extents, p, q, r, s);
  }

  lemma PlaneSwaps(e: Extents, p: Point, q: Point, r: Point, s: Point)
    ensures e.OnOuterPlane(p, q, r, s) == e.OnOuterPlane(q, p, r, s)
         == e.OnOuterPlane(p, q, s, r) == e.OnOuterPlane(q, p, s, r)
  {
  }

  // ----- closedness

  /** Each listed tetrahedron of the volume contributes its part. */
  ghost predicate Decomposes(f: Field, ts: seq<Tetrahedron>, parts: seq<seq<Triangle>>)
    requires f.Valid()
  {
    && Enumerates(f.extents, ts) && |parts| == |ts|
    && forall k | 0 <= k < |ts| :: CutsLike(f, ts[k], parts[k])
  }

  /** The positions of `t` and `u` in the list. */
  ghost function Positions(ts: seq<Tetrahedron>, t: Tetrahedron, u: Tetrahedron): set<nat> {
    set k: nat | k < |ts| && (ts[k] == t || ts[k] == u)
  }

  lemma PositionsCount(e: Extents, ts: seq<Tetrahedron>, t: Tetrahedron, u: Tetrahedron)
    requires Enumerates(e, ts) && e.HasTetrahedron(t)
    ensures |Positions(ts, t, u)| == if u != t && e.HasTetrahedron(u) then 2 else 1
  {
    var j :| 0 <= j < |ts| && ts[j] == t;
    if u != t && e.HasTetrahedron(u) {
      var k :| 0 <= k < |ts| && ts[k] == u;
      assert Positions(ts, t, u) == {j, k};
    } else {
      assert Positions(ts, t, u) == {j};
    }
  }

  lemma FaceSideContribution(f: Field, t: Tetrahedron, i: nat, o: nat, i': nat, o': nat, x: Point, w: Tetrahedron)
    requires f.Valid() && t.kind < 6 && w.kind < 6 && TwoCrossings(f, i, o, i', o')
    requires ContainsEnds(f, t, i, o, i', o') && (i == i' || o == o')
    requires Contains(t, x) && x != f.PointAt(i) && x != f.PointAt(o) && x != f.PointAt(i') && x != f.PointAt(o')
    ensures ContainsEnds(f, w, i, o, i', o') <==> w == t || w == Across(t, x)
  {
    EndsDiffer(f, i, o, i', o');
    var p, q, p', q' := f.PointAt(i), f.PointAt(o), f.PointAt(i'), f.PointAt(o');
    FaceHasTwoSides(t, x, p, q, if i == i' then q' else p', w);
  }

  /** The side of a tetrahedron face occurs twice, or once when the face bounds the volume. */
  lemma FaceSideCount(f: Field, ts: seq<Tetrahedron>, parts: seq<seq<Triangle>>, t: Tetrahedron,
                      i: nat, o: nat, i': nat, o': nat)
    requires f.Valid() && Decomposes(f, ts, parts)
    requires f.extents.HasTetrahedron(t) && TwoCrossings(f, i, o, i', o')
    requires ContainsEnds(f, t, i, o, i', o') && (i == i' || o == o')
    ensures Sides(Flatten(parts), Key(i, o), Key(i', o')) ==
            if f.extents.OnOuterPlane(f.PointAt(i), f.PointAt(o), f.PointAt(i'), f.PointAt(o')) then 1 else 2
  {
    var p, q, p', q' := f.PointAt(i), f.PointAt(o), f.PointAt(i'), f.PointAt(o');
    var r := if i == i' then q' else p';
    var x := FourthCorner(t, p, q, r);
    EndsDiffer(f, i, o, i', o');
    BoundarySides(f.extents, t, x, p, q, p', q');
    FaceHasTwoSides(t, x, p, q, r, t);
    var s := Positions(ts, t, Across(t, x));
    forall k | 0 <= k < |parts|
      ensures Sides(parts[k], Key(i, o), Key(i', o')) == if k in s then 1 else 0
    {
      assert CutsLike(f, ts[k], parts[k]);
      FaceSideContribution(f, t, i, o, i', o', x, ts[k]);
    }
    PositionsCount(f.extents, ts, t, Across(t, x));
    CountContributions(parts, Key(i, o), Key(i', o'), s, 1);
  }

  lemma DiagonalContribution(f: Field, t: Tetrahedron, i: nat, o: nat, i': nat, o': nat, w: Tetrahedron)
    requires f.Valid() && t.kind < 6 && w.kind < 6 && TwoCrossings(f, i, o, i', o')
    requires ContainsEnds(f, t, i, o, i', o') && i != i' && o != o'
    ensures ContainsEnds(f, w, i, o, i', o') <==> w == t
  {
    var p, q, p', q' := f.PointAt(i), f.PointAt(o), f.PointAt(i'), f.PointAt(o');
    EndsDiffer(f, i, o, i', o');
    FarSideExcludes(t, q');
    FaceHasTwoSides(t, q', p, q, p', w);
  }

  /** The diagonal of a cut quadrilateral occurs in the two triangles of its tetrahedron and nowhere else. */
  lemma DiagonalCount(f: Field, ts: seq<Tetrahedron>, parts: seq<seq<Triangle>>, j: nat,
                      i: nat, o: nat, i': nat, o': nat)
    requires f.Valid() && Decomposes(f, ts, parts) && j < |ts| && TwoCrossings(f, i, o, i', o')
    requires ContainsEnds(f, ts[j], i, o, i', o') && i != i' && o != o'
    requires Sides(parts[j], Key(i, o), Key(i', o')) > 0
    ensures Sides(Flatten(parts), Key(i, o), Key(i', o')) == 2
  {
    forall k | 0 <= k < |parts|
      ensures Sides(parts[k], Key(i, o), Key(i', o')) == if k in {j} then 2 else 0
    {
      assert CutsLike(f, ts[k], parts[k]);
      DiagonalContribution(f, ts[j], i, o, i', o', ts[k]);
    }
    CountContributions(parts, Key(i, o), Key(i', o'), {j}, 2);
  }

  lemma SideCount(f: Field, ts: seq<Tetrahedron>, parts: seq<seq<Triangle>>, j: nat,
                  i: nat, o: nat, i': nat, o': nat)
    requires f.Valid() && Decomposes(f, ts, parts) && j < |ts| && TwoCrossings(f, i, o, i', o')
    requires Sides(parts[j], Key(i, o), Key(i', o')) > 0
    ensures Sides(Flatten(parts), Key(i, o), Key(i', o')) ==
            if f.extents.OnOuterPlane(f.PointAt(i), f.PointAt(o), f.PointAt(i'), f.PointAt(o')) then 1 else 2
  {
    assert CutsLike(f, ts[j], parts[j]);
    if i == i' || o == o' {
      FaceSideCount(f, ts, parts, ts[j], i, o, i', o');
    } else {
      DiagonalCount(f, ts, parts, j, i, o, i', o');
      EndsDiffer(f, i, o, i', o');
      NotFlat(f.extents, ts[j], f.PointAt(i), f.PointAt(o), f.PointAt(i'), f.PointAt(o'));
    }
  }

  lemma PartsAreClosed(f: Field, ts: seq<Tetrahedron>, parts: seq<seq<Triangle>>, t: Triangle, e: Edge, g: Edge)
    requires f.Valid() && Decomposes(f, ts, parts)
    requires t in Flatten(parts) && HasSide(t, e, g)
    ensures Crossing(f, e) && Crossing(f, g)
    ensures Sides(Flatten(parts), e, g) == if OnOuterFace(f, e, g) then 1 else 2
  {
    var j := PartWithTriangle(parts, t);
    assert CutsLike(f, ts[j], parts[j]);
    var m :| 0 <= m < |parts[j]| && parts[j][m] == t;
    SideInTriangles(parts[j], t, e, g);
    OuterByEnds(f, e, g);
    SideCount(f, ts, parts, j, LowEnd(f, e), HighEnd(f, e), LowEnd(f, g), HighEnd(f, g));
  }

  /**
   The surface is combinatorially closed: each side of each of its triangles lies in exactly two
   triangles, except where the side is on the outer boundary of the volume, where it lies in one.
   */
  lemma SurfaceIsClosed(f: Field, t: Triangle, e: Edge, g: Edge)
    requires f.Valid() && t in Surface(f) && HasSide(t, e, g)
    ensures Crossing(f, e) && Crossing(f, g)
    ensures Sides(Surface(f), e, g) == if OnOuterFace(f, e, g) then 1 else 2
  {
    var ts := AllTetrahedra(f.extents);
    AllTetrahedraEnumerates(f.extents);
    var parts := Patches(f, ts);
    forall k | 0 <= k < |ts| ensures CutsLike(f, ts[k], parts[k]) {
      PatchCutsLike(f, ts[k]);
    }
    PartsAreClosed(f, ts, parts, t, e, g);
  }

  lemma {:induction false} FlattenCrosses(f: Field, parts: seq<seq<Triangle>>)
    requires forall k | 0 <= k < |parts| :: AllCross(f, parts[k])
    ensures AllCross(f, Flatten(parts))
  {
    if parts != [] {
      FlattenCrosses(f, parts[..|parts| - 1]);
    }
  }

  /** Every vertex of every triangle lies on an edge that crosses the iso-value. */
  lemma SurfaceCrosses(f: Field)
    requires f.Valid()
    ensures AllCross(f, Surface(f))
  {
    var ts := AllTetrahedra(f.extents);
    AllTetrahedraEnumerates(f.extents);
    forall k | 0 <= k < |ts| ensures AllCross(f, Patches(f, ts)[k]) {
      PatchIsCut(f, ts[k]);
    }
    FlattenCrosses(f, Patches(f, ts));
  }

  // ----- closedness of the mesh, by vertex numbers

  /** The faces of all triangles, before any is dropped for its area. */
  ghost function AllFaces(m: map<Edge, nat>, ts: seq<Triangle>): (fs: seq<Face>)
    requires AllCached(m, ts)
    ensures |fs| == |ts|
  {
    seq(|ts|, i requires 0 <= i < |ts| => FaceOf(m, ts[i]))
  }

  ghost predicate FaceHasSide(face: Face, u: nat, v: nat) {
    && u != v
    && (u == face.a || u == face.b || u == face.c)
    && (v == face.a || v == face.b || v == face.c)
  }

  /** How many of the faces have the side joining vertices `u` and `v`. */
  ghost function FaceSides(fs: seq<Face>, u: nat, v: nat): nat {
    if fs == [] then 0 else
      var n := |fs| - 1;
      FaceSides(fs[..n], u, v) + if FaceHasSide(fs[n], u, v) then 1 else 0
  }

  lemma FaceSideMatches(m: map<Edge, nat>, keys: seq<Edge>, t: Triangle, u: nat, v: nat)
    requires Bijective(m, keys) && Cached(m, t) && u < |keys| && v < |keys|
    ensures FaceHasSide(FaceOf(m, t), u, v) <==> HasSide(t, keys[u], keys[v])
  {
    assert keys[m[t.a]] == t.a && keys[m[t.b]] == t.b && keys[m[t.c]] == t.c;
    assert m[keys[u]] == u && m[keys[v]] == v;
  }

  lemma {:induction false} FaceSidesMatch(m: map<Edge, nat>, keys: seq<Edge>, ts: seq<Triangle>, u: nat, v: nat)
    requires Bijective(m, keys) && AllCached(m, ts) && u < |keys| && v < |keys|
    ensures FaceSides(AllFaces(m, ts), u, v) == Sides(ts, keys[u], keys[v])
  {
    if ts != [] {
      var n := |ts| - 1;
      FaceSidesMatch(m, keys, ts[..n], u, v);
      FaceSideMatches(m, keys, ts[n], u, v);
      assert AllFaces(m, ts)[..n] == AllFaces(m, ts[..n]);
    }
  }

  /**
   The extracted mesh is closed: two vertices joined by a side of some face are joined by exactly two
   faces, or by one when both lie on the same outer face of the volume.  `keys` gives each vertex its
   grid edge, as in a valid `IsoMesh`.
   */
  lemma MeshIsClosed(f: Field, m: map<Edge, nat>, keys: seq<Edge>, i: nat, u: nat, v: nat)
    requires f.Valid() && Bijective(m, keys) && AllCached(m, Surface(f))
    requires i < |Surface(f)| && u < |keys| && v < |keys|
    requires FaceHasSide(AllFaces(m, Surface(f))[i], u, v)
    ensures Crossing(f, keys[u]) && Crossing(f, keys[v])
    ensures FaceSides(AllFaces(m, Surface(f)), u, v) == if OnOuterFace(f, keys[u], keys[v]) then 1 else 2
  {
    var ts := Surface(f);
    FaceSideMatches(m, keys, ts[i], u, v);
    FaceSidesMatch(m, keys, ts, u, v);
    SurfaceIsClosed(f, ts[i], keys[u], keys[v]);
  }
}
