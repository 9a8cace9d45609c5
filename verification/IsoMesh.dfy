/**
 The mesh that extraction builds: a vertex list, a face list and a cache from grid edges to vertices.

 `IsoMesh.Valid` is what every step keeps: the cache is a bijection between the crossing edges met so
 far and the vertex numbers, each cached vertex is the iso-point of its edge, and the faces are the
 triangles cut so far with their edges replaced by vertex numbers, less those of near-zero area.
 */
module IsoMeshes {
  import opened Tetrahedra
  import opened Isosurface
  import opened Sealing
  import opened Surfaces
  import opened Doubles

  /** A triangle by vertex numbers. */
  datatype Face = Face(a: nat, b: nat, c: nat)

  /** A triangle that survives the near-zero-area drop: its squared area exceeds the gap after 1. */
  predicate Visible(f: Field, t: Triangle)
    requires f.Valid() && Crosses(f, t)
  {
    Dot(Normal(f, t), Normal(f, t)) > EPSILON
  }

  /** The direction from the inside corners of a tetrahedron to the outside ones. */
  function Outward(f: Field, ins: seq<nat>, outs: seq<nat>): Vec
    requires f.Valid() && f.Covers(ins) && f.Covers(outs) && ins != [] && outs != []
  {
    Sub(Mean(f, outs), Mean(f, ins))
  }

  /** The grid edges between inside and outside corners. */
  ghost function PairKeys(ins: seq<nat>, outs: seq<nat>): set<Edge> {
    set i, o | i in ins && o in outs :: Key(i, o)
  }

  /** The crossing edges of a tetrahedron. */
  ghost function CrossingsOf(f: Field, t: Tetrahedron): set<Edge>
    requires f.Valid() && f.extents.HasTetrahedron(t)
  {
    var q := CornerOffsets(f, t);
    PairKeys(Below(f, q), NotBelow(f, q))
  }

  /**
   The geometric operations of a field by their values alone.  Bookkeeping about the cache and the
   lists is proved for any such record; only the steps that compute with coordinates look at the field.
   */
  datatype Geometry = Geometry(
    point: Edge -> Vec,
    visible: Triangle -> bool,
    orient: (Triangle, Vec) -> Triangle,
    outward: (seq<nat>, seq<nat>) -> Vec,
    patch: Tetrahedron -> seq<Triangle>,
    crossings: Tetrahedron -> set<Edge>)

  /** `Described`, to be looked into only where `Unseal` is mentioned. */
  ghost predicate Describes(g: Geometry, f: Field)
    requires f.Valid()
  {
    forall k {:trigger Unseal(k)} :: Unseal(k) ==> Described(g, f)
  }

  ghost predicate Described(g: Geometry, f: Field)
    requires f.Valid()
  {
    match g
    case Geometry(point, visible, orient, outward, patch, crossings) =>
      && (forall e {:trigger IsoPoint(f, e)} | Crossing(f, e) :: point(e) == IsoPoint(f, e))
      && (forall t {:trigger Visible(f, t)} | Crosses(f, t) :: visible(t) == Visible(f, t))
      && (forall t, w {:trigger Oriented(f, t, w)} | Crosses(f, t) :: orient(t, w) == Oriented(f, t, w))
      && (forall ins, outs {:trigger Outward(f, ins, outs)}
            | f.Covers(ins) && f.Covers(outs) && ins != [] && outs != [] ::
            outward(ins, outs) == Outward(f, ins, outs))
      && (forall t {:trigger Patch(f, t)} | f.extents.HasTetrahedron(t) :: patch(t) == Patch(f, t))
      && (forall t {:trigger CrossingsOf(f, t)} | f.extents.HasTetrahedron(t) :: crossings(t) == CrossingsOf(f, t))
  }

  lemma GeometryExists(f: Field) returns (g: Geometry)
    requires f.Valid()
    ensures Describes(g, f)
  {
    g := Geometry(
      e => if Crossing(f, e) then IsoPoint(f, e) else Vec(0.0, 0.0, 0.0),
      t => Crosses(f, t) && Visible(f, t),
      (t, w) => if Crosses(f, t) then Oriented(f, t, w) else t,
      (ins, outs) =>
        if f.Covers(ins) && f.Covers(outs) && ins != [] && outs != []
        then Outward(f, ins, outs) else Vec(0.0, 0.0, 0.0),
      t => if f.extents.HasTetrahedron(t) then Patch(f, t) else [],
      t => if f.extents.HasTetrahedron(t) then CrossingsOf(f, t) else {});
  }

  lemma DescribesTetrahedron(g: Geometry, f: Field, t: Tetrahedron)
    requires f.Valid() && Describes(g, f) && f.extents.HasTetrahedron(t)
    ensures g.patch(t) == Patch(f, t) && g.crossings(t) == CrossingsOf(f, t)
  {
    assert Unseal(0);
  }

  lemma DescribesOrientation(g: Geometry, f: Field, t: Triangle, w: Vec)
    requires f.Valid() && Describes(g, f) && Crosses(f, t)
    ensures g.orient(t, w) == Oriented(f, t, w)
  {
    assert Unseal(0);
  }

  lemma DescribesOutward(g: Geometry, f: Field, ins: seq<nat>, outs: seq<nat>)
    requires f.Valid() && Describes(g, f) && f.Covers(ins) && f.Covers(outs) && ins != [] && outs != []
    ensures g.outward(ins, outs) == Outward(f, ins, outs)
  {
    assert Unseal(0);
  }

  // ----- bookkeeping

  predicate Cached(m: map<Edge, nat>, t: Triangle) {
    t.a in m && t.b in m && t.c in m
  }

  function FaceOf(m: map<Edge, nat>, t: Triangle): Face
    requires Cached(m, t)
  {
    Face(m[t.a], m[t.b], m[t.c])
  }

  ghost predicate AllCached(m: map<Edge, nat>, ts: seq<Triangle>) {
    forall i | 0 <= i < |ts| :: Cached(m, ts[i])
  }

  /** The visible triangles as faces, in order. */
  ghost function FacesOf(visible: Triangle -> bool, m: map<Edge, nat>, ts: seq<Triangle>): seq<Face>
    requires AllCached(m, ts)
  {
    if ts == [] then [] else
      var n := |ts| - 1;
      FacesOf(visible, m, ts[..n]) + if visible(ts[n]) then [FaceOf(m, ts[n])] else []
  }

  /** The later cache keeps every earlier entry. */
  ghost predicate Extends(m: map<Edge, nat>, m': map<Edge, nat>) {
    forall e | e in m :: e in m' && m'[e] == m[e]
  }

  lemma {:induction false} FacesOfExtended(visible: Triangle -> bool, m: map<Edge, nat>, m': map<Edge, nat>, ts: seq<Triangle>)
    requires AllCached(m, ts) && Extends(m, m')
    ensures AllCached(m', ts) && FacesOf(visible, m', ts) == FacesOf(visible, m, ts)
  {
    if ts != [] {
      FacesOfExtended(visible, m, m', ts[..|ts| - 1]);
      assert Cached(m, ts[|ts| - 1]);
    }
  }

  lemma FacesOfPushed(visible: Triangle -> bool, m: map<Edge, nat>, ts: seq<Triangle>, u: Triangle)
    requires AllCached(m, ts) && Cached(m, u)
    ensures AllCached(m, ts + [u])
    ensures FacesOf(visible, m, ts + [u]) == FacesOf(visible, m, ts) + if visible(u) then [FaceOf(m, u)] else []
  {
    assert (ts + [u])[..|ts|] == ts;
  }

  /** The cache is a bijection between its edges and the positions of `keys`. */
  ghost predicate Bijective(m: map<Edge, nat>, keys: seq<Edge>) {
    && (forall e | e in m :: m[e] < |keys| && keys[m[e]] == e)
    && (forall i | 0 <= i < |keys| :: keys[i] in m && m[keys[i]] == i)
  }

  /** Vertex `i` lies on the crossing edge `keys[i]`, at its iso-point. */
  ghost predicate Placed(f: Field, g: Geometry, keys: seq<Edge>, points: seq<Vec>) {
    |points| == |keys| && forall i | 0 <= i < |keys| :: Crossing(f, keys[i]) && points[i] == g.point(keys[i])
  }

  // ----- the steps that compute with coordinates

  lemma SwappedNormal(u: Vec, v: Vec)
    ensures Dot(Cross(v, u), Cross(v, u)) == Dot(Cross(u, v), Cross(u, v))
  {
    var m, n := Cross(v, u), Cross(u, v);
    assert m == Vec(0.0 - n.x, 0.0 - n.y, 0.0 - n.z);
    assert m.x * m.x == n.x * n.x && m.y * m.y == n.y * n.y && m.z * m.z == n.z * n.z;
  }

  lemma VisibleSwapped(f: Field, t: Triangle)
    requires f.Valid() && Crosses(f, t)
    ensures Visible(f, Triangle(t.a, t.c, t.b)) == Visible(f, t)
  {
    SwappedNormal(Sub(IsoPoint(f, t.b), IsoPoint(f, t.a)), Sub(IsoPoint(f, t.c), IsoPoint(f, t.a)));
  }

  /** The face to add for a triangle with corners `a`, `b`, `c`: none when its area is negligible. */
  method FacesToPush(ghost f: Field, ghost g: Geometry, ghost m: map<Edge, nat>, ghost t: Triangle,
                     triangle: Face, a: Vec, b: Vec, c: Vec, outward: Vec) returns (pushed: seq<Face>)
    requires f.Valid() && Describes(g, f) && Crosses(f, t) && Cached(m, t) && triangle == FaceOf(m, t)
    requires a == g.point(t.a) && b == g.point(t.b) && c == g.point(t.c)
    ensures var u := g.orient(t, outward);
            && Crosses(f, u) && Cached(m, u)
            && pushed == if g.visible(u) then [FaceOf(m, u)] else []
  {
    assert Unseal(0);
    var normal := Cross(Sub(b, a), Sub(c, a));
    assert normal == Normal(f, t);
    VisibleSwapped(f, t);
    assert g.visible(Oriented(f, t, outward)) == Visible(f, t);
    if Dot(normal, normal) <= EPSILON {
      return [];
    }
    pushed := [if Dot(normal, outward) < 0.0 then Face(triangle.a, triangle.c, triangle.b) else triangle];
  }

  /** The data gathered for one cube: offset, position and value of its eight corners. */
  datatype CubeData = CubeData(offsets: seq<nat>, positions: seq<Vec>, values: seq<real>)
  {
    ghost predicate Of(f: Field)
      requires f.Valid()
    {
      match this
      case CubeData(offsets, positions, values) =>
        && |offsets| == |positions| == |values| == 8
        && f.Covers(offsets)
        && forall k | 0 <= k < 8 :: positions[k] == f.Position(offsets[k]) && values[k] == f.values[offsets[k]]
    }
  }

  lemma NewPoint(f: Field, g: Geometry, first: nat, second: nat, cube: CubeData)
    requires f.Valid() && Describes(g, f) && cube.Of(f) && first < 8 && second < 8
    requires f.Low(cube.offsets[first]) != f.Low(cube.offsets[second])
    ensures var key := Key(cube.offsets[first], cube.offsets[second]);
            && Crossing(f, key)
            && Interpolated(cube.positions[first], cube.positions[second],
                            cube.values[first], cube.values[second], f.iso) == g.point(key)
  {
    assert Unseal(0);
    InterpolatedIsIsoPoint(f, cube.offsets[first], cube.offsets[second]);
  }

  lemma NewVertex(f: Field, g: Geometry, m: map<Edge, nat>, keys: seq<Edge>, points: seq<Vec>, key: Edge)
    requires Bijective(m, keys) && Placed(f, g, keys, points) && key !in m && Crossing(f, key)
    ensures Bijective(m[key := |keys|], keys + [key])
    ensures Placed(f, g, keys + [key], points + [g.point(key)])
    ensures Extends(m, m[key := |keys|])
  {
  }

  lemma CornersPlaced(f: Field, g: Geometry, m: map<Edge, nat>, keys: seq<Edge>, points: seq<Vec>, t: Triangle)
    requires Bijective(m, keys) && Placed(f, g, keys, points) && Cached(m, t)
    ensures m[t.a] < |points| && m[t.b] < |points| && m[t.c] < |points|
    ensures points[m[t.a]] == g.point(t.a) && points[m[t.b]] == g.point(t.b) && points[m[t.c]] == g.point(t.c)
  {
    assert keys[m[t.a]] == t.a && keys[m[t.b]] == t.b && keys[m[t.c]] == t.c;
  }

  lemma AddThree(s: set<Edge>, a: Edge, b: Edge, c: Edge)
    ensures s + {a} + {b} + {c} == s + {a, b, c}
  {
  }

  lemma AddFour(s: set<Edge>, a: Edge, b: Edge, c: Edge, d: Edge)
    ensures s + {a} + {b} + {c} + {d} == s + {a, b, c, d}
  {
  }

  lemma AppendTwo(ts: seq<Triangle>, t: Triangle, u: Triangle)
    ensures ts + [t] + [u] == ts + [t, u]
  {
  }

  class IsoMesh {
    var vertices: seq<Vec>
    var faces: seq<Face>
    var edgeVertices: map<Edge, nat>
    /** The grid edge of each vertex. */
    ghost var keys: seq<Edge>
    /** Every triangle cut so far, including those the area test drops. */
    ghost var triangles: seq<Triangle>

    ghost predicate Valid(f: Field, g: Geometry)
      reads this
    {
      match f
      case Field(_, _, _, _) =>
        && Bijective(edgeVertices, keys)
        && Placed(f, g, keys, vertices)
        && AllCached(edgeVertices, triangles)
        && faces == FacesOf(g.visible, edgeVertices, triangles)
    }

    constructor ()
      ensures vertices == [] && faces == [] && edgeVertices == map[] && keys == [] && triangles == []
    {
      vertices, faces, edgeVertices, keys, triangles := [], [], map[], [], [];
    }

    /** The vertex on a crossing edge: the cached one, or a new one at the iso-point. */
    method EdgeVertex(ghost f: Field, ghost g: Geometry, first: nat, second: nat, cube: CubeData, iso: real)
      returns (index: nat)
      requires f.Valid() && Describes(g, f) && Valid(f, g) && cube.Of(f) && iso == f.iso
      requires first < 8 && second < 8 && f.Low(cube.offsets[first]) != f.Low(cube.offsets[second])
      modifies this`vertices, this`edgeVertices, this`keys
      ensures Valid(f, g)
      ensures Extends(old(edgeVertices), edgeVertices)
      ensures var key := Key(cube.offsets[first], cube.offsets[second]);
              && edgeVertices.Keys == old(edgeVertices.Keys) + {key}
              && edgeVertices[key] == index
    {
      var key := Key(cube.offsets[first], cube.offsets[second]);
      if key in edgeVertices {
        return edgeVertices[key];
      }
      var position := Interpolated(cube.positions[first], cube.positions[second],
                                   cube.values[first], cube.values[second], iso);
      NewPoint(f, g, first, second, cube);
      index := |vertices|;
      NewVertex(f, g, edgeVertices, keys, vertices, key);
      FacesOfExtended(g.visible, edgeVertices, edgeVertices[key := index], triangles);
      vertices := vertices + [position];
      edgeVertices := edgeVertices[key := index];
      keys := keys + [key];
    }

    /** Adds a triangle wound along `outward`, unless its area is negligible. */
    method PushOrientedTriangle(ghost f: Field, ghost g: Geometry, ghost t: Triangle, triangle: Face, outward: Vec)
      requires f.Valid() && Describes(g, f) && Valid(f, g) && Crosses(f, t) && Cached(edgeVertices, t)
      requires triangle == FaceOf(edgeVertices, t)
      modifies this`faces, this`triangles
      ensures Valid(f, g) && triangles == old(triangles) + [g.orient(t, outward)]
    {
      CornersPlaced(f, g, edgeVertices, keys, vertices, t);
      var pushed := FacesToPush(f, g, edgeVertices, t, triangle,
                                vertices[triangle.a], vertices[triangle.b], vertices[triangle.c], outward);
      FacesOfPushed(g.visible, edgeVertices, triangles, g.orient(t, outward));
      faces, triangles := faces + pushed, triangles + [g.orient(t, outward)];
    }

    /** Cuts off the corner `apex`: one triangle on the edges to the other three corners. */
    method CutCorner(ghost f: Field, ghost g: Geometry, apex: nat, b: nat, c: nat, d: nat,
                     cube: CubeData, iso: real, outward: Vec)
      requires f.Valid() && Describes(g, f) && Valid(f, g) && cube.Of(f) && iso == f.iso
      requires apex < 8 && b < 8 && c < 8 && d < 8
      requires var low := f.Low(cube.offsets[apex]);
               f.Low(cube.offsets[b]) != low && f.Low(cube.offsets[c]) != low && f.Low(cube.offsets[d]) != low
      modifies this
      ensures Valid(f, g) && Extends(old(edgeVertices), edgeVertices)
      ensures var o := cube.offsets;
              var ab, ac, ad := Key(o[apex], o[b]), Key(o[apex], o[c]), Key(o[apex], o[d]);
              && edgeVertices.Keys == old(edgeVertices.Keys) + {ab, ac, ad}
              && triangles == old(triangles) + [g.orient(Triangle(ab, ac, ad), outward)]
    {
      ghost var o := cube.offsets;
      ghost var t := Triangle(Key(o[apex], o[b]), Key(o[apex], o[c]), Key(o[apex], o[d]));
      var face := CornerFace(f, g, t, apex, b, c, d, cube, iso);
      PushOrientedTriangle(f, g, t, face, outward);
    }

    /** The vertices on the three edges that leave a corner. */
    method CornerFace(ghost f: Field, ghost g: Geometry, ghost t: Triangle, apex: nat, b: nat, c: nat, d: nat,
                      cube: CubeData, iso: real) returns (face: Face)
      requires f.Valid() && Describes(g, f) && Valid(f, g) && cube.Of(f) && iso == f.iso
      requires apex < 8 && b < 8 && c < 8 && d < 8
      requires var low := f.Low(cube.offsets[apex]);
               f.Low(cube.offsets[b]) != low && f.Low(cube.offsets[c]) != low && f.Low(cube.offsets[d]) != low
      requires var o := cube.offsets; t == Triangle(Key(o[apex], o[b]), Key(o[apex], o[c]), Key(o[apex], o[d]))
      modifies this`vertices, this`edgeVertices, this`keys
      ensures Valid(f, g) && Extends(old(edgeVertices), edgeVertices) && Cached(edgeVertices, t)
      ensures face == FaceOf(edgeVertices, t) && edgeVertices.Keys == old(edgeVertices.Keys) + {t.a, t.b, t.c}
    {
      var first := EdgeVertex(f, g, apex, b, cube, iso);
      var second := EdgeVertex(f, g, apex, c, cube, iso);
      var third := EdgeVertex(f, g, apex, d, cube, iso);
      AddThree(old(edgeVertices.Keys), t.a, t.b, t.c);
      face := Face(first, second, third);
    }

    /** Separates `a` and `b` from `c` and `d`: a quadrilateral, as two triangles. */
    method CutMiddle(ghost f: Field, ghost g: Geometry, a: nat, b: nat, c: nat, d: nat,
                     cube: CubeData, iso: real, outward: Vec)
      requires f.Valid() && Describes(g, f) && Valid(f, g) && cube.Of(f) && iso == f.iso
      requires a < 8 && b < 8 && c < 8 && d < 8
      requires f.Low(cube.offsets[a]) && f.Low(cube.offsets[b])
      requires !f.Low(cube.offsets[c]) && !f.Low(cube.offsets[d])
      modifies this
      ensures Valid(f, g) && Extends(old(edgeVertices), edgeVertices)
      ensures var o := cube.offsets;
              var ac, ad, bc, bd := Key(o[a], o[c]), Key(o[a], o[d]), Key(o[b], o[c]), Key(o[b], o[d]);
              && edgeVertices.Keys == old(edgeVertices.Keys) + {ac, ad, bc, bd}
              && triangles == old(triangles) +
                   [g.orient(Triangle(ac, ad, bd), outward), g.orient(Triangle(ac, bd, bc), outward)]
    {
      ghost var o := cube.offsets;
      ghost var keyAC, keyAD := Key(o[a], o[c]), Key(o[a], o[d]);
      ghost var keyBC, keyBD := Key(o[b], o[c]), Key(o[b], o[d]);
      var ac := EdgeVertex(f, g, a, c, cube, iso);
      var ad := EdgeVertex(f, g, a, d, cube, iso);
      var bc := EdgeVertex(f, g, b, c, cube, iso);
      var bd := EdgeVertex(f, g, b, d, cube, iso);
      PushOrientedTriangle(f, g, Triangle(keyAC, keyAD, keyBD), Face(ac, ad, bd), outward);
      PushOrientedTriangle(f, g, Triangle(keyAC, keyBD, keyBC), Face(ac, bd, bc), outward);
      AddFour(old(edgeVertices.Keys), keyAC, keyAD, keyBC, keyBD);
      AppendTwo(old(triangles), g.orient(Triangle(keyAC, keyAD, keyBD), outward),
                g.orient(Triangle(keyAC, keyBD, keyBC), outward));
    }
  }
}
