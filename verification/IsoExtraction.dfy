/**
 Extraction of an isosurface: the loops over cubes, corners and tetrahedra that fill an `IsoMesh`.
 */
module IsoExtraction {
  import opened MixedRadix
  import opened Tetrahedra
  import opened Isosurface
  import opened Sealing
  import opened Surfaces
  import opened IsoMeshes

  // ----- one tetrahedron

  function Pick(offsets: seq<nat>, ids: seq<nat>): (s: seq<nat>)
    requires forall i | 0 <= i < |ids| :: ids[i] < |offsets|
    ensures |s| == |ids|
  {
    seq(|ids|, i requires 0 <= i < |ids| => offsets[ids[i]])
  }

  lemma PickSnoc(offsets: seq<nat>, ids: seq<nat>, id: nat)
    requires id < |offsets| && forall i | 0 <= i < |ids| :: ids[i] < |offsets|
    ensures Pick(offsets, ids + [id]) == Pick(offsets, ids) + [offsets[id]]
  {
  }

  ghost predicate Ids(ids: seq<nat>) {
    forall i | 0 <= i < |ids| :: ids[i] < 8
  }

  lemma SplitStep(f: Field, q: seq<nat>, i: nat)
    requires i < |q| && f.Covers(q)
    ensures f.Covers(q[..i]) && f.Covers(q[..i + 1])
    ensures f.Low(q[i]) ==> Below(f, q[..i + 1]) == Below(f, q[..i]) + [q[i]]
    ensures f.Low(q[i]) ==> NotBelow(f, q[..i + 1]) == NotBelow(f, q[..i])
    ensures !f.Low(q[i]) ==> Below(f, q[..i + 1]) == Below(f, q[..i])
    ensures !f.Low(q[i]) ==> NotBelow(f, q[..i + 1]) == NotBelow(f, q[..i]) + [q[i]]
  {
    assert q[..i + 1][..i] == q[..i];
  }

  /** The corners of a tetrahedron below the iso-value and the others, in table order. */
  method SplitCorners(ghost f: Field, ghost q: seq<nat>, tetrahedron: seq<nat>, cube: CubeData, iso: real)
    returns (inside: seq<nat>, outside: seq<nat>)
    requires f.Valid() && cube.Of(f) && iso == f.iso
    requires Ids(tetrahedron) && q == Pick(cube.offsets, tetrahedron)
    ensures Ids(inside) && Ids(outside) && |inside| + |outside| == |tetrahedron|
    ensures f.Covers(q) && Pick(cube.offsets, inside) == Below(f, q) && Pick(cube.offsets, outside) == NotBelow(f, q)
  {
    inside, outside := [], [];
    assert f.Covers(q);
    for i := 0 to |tetrahedron|
      invariant Ids(inside) && Ids(outside) && |inside| + |outside| == i && f.Covers(q[..i])
      invariant Pick(cube.offsets, inside) == Below(f, q[..i])
      invariant Pick(cube.offsets, outside) == NotBelow(f, q[..i])
    {
      inside, outside := SplitCorner(f, q, i, tetrahedron[i], cube.offsets, cube.values[tetrahedron[i]], iso, inside, outside);
    }
    assert q[..|tetrahedron|] == q;
  }

  method SplitCorner(ghost f: Field, ghost q: seq<nat>, ghost i: nat, corner: nat, ghost offsets: seq<nat>, value: real, iso: real,
                     inside: seq<nat>, outside: seq<nat>) returns (ins: seq<nat>, outs: seq<nat>)
    requires i < |q| && f.Covers(q) && |offsets| == 8 && corner < 8 && q[i] == offsets[corner]
    requires (value < iso) == f.Low(q[i])
    requires Ids(inside) && Ids(outside) && |inside| + |outside| == i
    requires Pick(offsets, inside) == Below(f, q[..i]) && Pick(offsets, outside) == NotBelow(f, q[..i])
    ensures Ids(ins) && Ids(outs) && |ins| + |outs| == i + 1 && f.Covers(q[..i + 1])
    ensures Pick(offsets, ins) == Below(f, q[..i + 1]) && Pick(offsets, outs) == NotBelow(f, q[..i + 1])
  {
    ins, outs := inside, outside;
    SplitStep(f, q, i);
    if value < iso {
      PickSnoc(offsets, inside, corner);
      ins := inside + [corner];
    } else {
      PickSnoc(offsets, outside, corner);
      outs := outside + [corner];
    }
  }

  method MeanPoint(ghost f: Field, ids: seq<nat>, cube: CubeData) returns (mean: Vec)
    requires f.Valid() && cube.Of(f) && Ids(ids) && ids != []
    ensures f.Covers(Pick(cube.offsets, ids)) && mean == Mean(f, Pick(cube.offsets, ids))
  {
    ghost var q := Pick(cube.offsets, ids);
    var sum := Vec(0.0, 0.0, 0.0);
    for i := 0 to |ids|
      invariant f.Covers(q[..i]) && sum == SumOfPositions(f, q[..i])
    {
      var p := cube.positions[ids[i]];
      assert q[..i + 1][..i] == q[..i] && p == f.Position(q[i]);
      sum := Vec(sum.x + p.x, sum.y + p.y, sum.z + p.z);
    }
    assert q[..|ids|] == q;
    var n := |ids| as real;
    mean := Vec(sum.x / n, sum.y / n, sum.z / n);
  }

  method OutwardVector(ghost f: Field, ghost g: Geometry, inside: seq<nat>, outside: seq<nat>, cube: CubeData)
    returns (outward: Vec)
    requires f.Valid() && Describes(g, f) && cube.Of(f)
    requires Ids(inside) && Ids(outside) && inside != [] && outside != []
    ensures outward == g.outward(Pick(cube.offsets, inside), Pick(cube.offsets, outside))
  {
    var out := MeanPoint(f, outside, cube);
    var inn := MeanPoint(f, inside, cube);
    outward := Sub(out, inn);
    DescribesOutward(g, f, Pick(cube.offsets, inside), Pick(cube.offsets, outside));
    assert outward == Outward(f, Pick(cube.offsets, inside), Pick(cube.offsets, outside));
  }

  /** The triangles that a tetrahedron with these inside and outside corners contributes. */
  ghost function CutBy(g: Geometry, ins: seq<nat>, outs: seq<nat>): seq<Triangle> {
    if ins == [] || outs == [] then [] else OrientBy(g, Cut(ins, outs), g.outward(ins, outs))
  }

  ghost function OrientBy(g: Geometry, ts: seq<Triangle>, w: Vec): seq<Triangle> {
    seq(|ts|, i requires 0 <= i < |ts| => g.orient(ts[i], w))
  }

  lemma NothingToCut(g: Geometry, ins: seq<nat>, outs: seq<nat>)
    requires ins == [] || outs == []
    ensures CutBy(g, ins, outs) == [] && PairKeys(ins, outs) == {}
  {
  }

  lemma CutByCorner(g: Geometry, apex: nat, a: nat, b: nat, c: nat)
    ensures var t := Triangle(Key(apex, a), Key(apex, b), Key(apex, c));
            && CutBy(g, [apex], [a, b, c]) == [g.orient(t, g.outward([apex], [a, b, c]))]
            && CutBy(g, [a, b, c], [apex]) == [g.orient(t, g.outward([a, b, c], [apex]))]
  {
  }

  lemma CutByMiddle(g: Geometry, a: nat, b: nat, c: nat, d: nat)
    ensures var ac, ad, bc, bd := Key(a, c), Key(a, d), Key(b, c), Key(b, d);
            var w := g.outward([a, b], [c, d]);
            CutBy(g, [a, b], [c, d]) == [g.orient(Triangle(ac, ad, bd), w), g.orient(Triangle(ac, bd, bc), w)]
  {
  }

  lemma PairKeysCorner(apex: nat, a: nat, b: nat, c: nat)
    ensures PairKeys([apex], [a, b, c]) == {Key(apex, a), Key(apex, b), Key(apex, c)} == PairKeys([a, b, c], [apex])
  {
    assert Key(a, apex) == Key(apex, a) && Key(b, apex) == Key(apex, b) && Key(c, apex) == Key(apex, c);
    var s, t := PairKeys([apex], [a, b, c]), PairKeys([a, b, c], [apex]);
    assert a in [a, b, c] && b in [a, b, c] && c in [a, b, c] && apex in [apex];
    assert Key(apex, a) in s && Key(apex, b) in s && Key(apex, c) in s;
    assert Key(a, apex) in t && Key(b, apex) in t && Key(c, apex) in t;
  }

  lemma PairKeysMiddle(a: nat, b: nat, c: nat, d: nat)
    ensures PairKeys([a, b], [c, d]) == {Key(a, c), Key(a, d), Key(b, c), Key(b, d)}
  {
    var s := PairKeys([a, b], [c, d]);
    assert a in [a, b] && b in [a, b] && c in [c, d] && d in [c, d];
    assert Key(a, c) in s && Key(a, d) in s && Key(b, c) in s && Key(b, d) in s;
  }

  /** Adds the triangles separating the inside corners of a tetrahedron from the outside ones. */
  method AddCut(ghost f: Field, ghost g: Geometry, mesh: IsoMesh, ghost ins: seq<nat>, ghost outs: seq<nat>,
                inside: seq<nat>, outside: seq<nat>, cube: CubeData, iso: real, outward: Vec)
    requires f.Valid() && Describes(g, f) && mesh.Valid(f, g) && cube.Of(f) && iso == f.iso
    requires Ids(inside) && Ids(outside) && |inside| + |outside| == 4 && inside != [] && outside != []
    requires ins == Pick(cube.offsets, inside) && outs == Pick(cube.offsets, outside)
    requires outward == g.outward(ins, outs)
    requires f.Covers(ins) && (forall i | 0 <= i < |ins| :: f.Low(ins[i]))
    requires f.Covers(outs) && (forall i | 0 <= i < |outs| :: !f.Low(outs[i]))
    modifies mesh
    ensures mesh.Valid(f, g)
    ensures mesh.triangles == old(mesh.triangles) + CutBy(g, ins, outs)
    ensures mesh.edgeVertices.Keys == old(mesh.edgeVertices.Keys) + PairKeys(ins, outs)
  {
    if |inside| == 1 {
      assert ins == [ins[0]] && outs == [outs[0], outs[1], outs[2]];
      PairKeysCorner(ins[0], outs[0], outs[1], outs[2]);
      CutByCorner(g, ins[0], outs[0], outs[1], outs[2]);
      mesh.CutCorner(f, g, inside[0], outside[0], outside[1], outside[2], cube, iso, outward);
    } else if |inside| == 3 {
      assert outs == [outs[0]] && ins == [ins[0], ins[1], ins[2]];
      PairKeysCorner(outs[0], ins[0], ins[1], ins[2]);
      CutByCorner(g, outs[0], ins[0], ins[1], ins[2]);
      mesh.CutCorner(f, g, outside[0], inside[0], inside[1], inside[2], cube, iso, outward);
    } else {
      AddMiddleCut(f, g, mesh, ins, outs, inside, outside, cube, iso, outward);
    }
  }

  method AddMiddleCut(ghost f: Field, ghost g: Geometry, mesh: IsoMesh, ghost ins: seq<nat>, ghost outs: seq<nat>,
                      inside: seq<nat>, outside: seq<nat>, cube: CubeData, iso: real, outward: Vec)
    requires f.Valid() && Describes(g, f) && mesh.Valid(f, g) && cube.Of(f) && iso == f.iso
    requires Ids(inside) && Ids(outside) && |inside| == |outside| == 2
    requires ins == Pick(cube.offsets, inside) && outs == Pick(cube.offsets, outside)
    requires outward == g.outward(ins, outs)
    requires f.Covers(ins) && (forall i | 0 <= i < |ins| :: f.Low(ins[i]))
    requires f.Covers(outs) && (forall i | 0 <= i < |outs| :: !f.Low(outs[i]))
    modifies mesh
    ensures mesh.Valid(f, g)
    ensures mesh.triangles == old(mesh.triangles) + CutBy(g, ins, outs)
    ensures mesh.edgeVertices.Keys == old(mesh.edgeVertices.Keys) + PairKeys(ins, outs)
  {
    assert ins == [ins[0], ins[1]] && outs == [outs[0], outs[1]];
    PairKeysMiddle(ins[0], ins[1], outs[0], outs[1]);
    CutByMiddle(g, ins[0], ins[1], outs[0], outs[1]);
    mesh.CutMiddle(f, g, inside[0], inside[1], outside[0], outside[1], cube, iso, outward);
  }

  /** Adds the triangles of one tetrahedron, given by its row of corner numbers. */
  method PolygonizeTetrahedron(ghost f: Field, ghost g: Geometry, mesh: IsoMesh, ghost q: seq<nat>,
                               tetrahedron: seq<nat>, cube: CubeData, iso: real)
    requires f.Valid() && Describes(g, f) && mesh.Valid(f, g) && cube.Of(f) && iso == f.iso
    requires |tetrahedron| == 4 && Ids(tetrahedron) && q == Pick(cube.offsets, tetrahedron) && f.Covers(q)
    modifies mesh
    ensures mesh.Valid(f, g)
    ensures mesh.triangles == old(mesh.triangles) + CutBy(g, Below(f, q), NotBelow(f, q))
    ensures mesh.edgeVertices.Keys == old(mesh.edgeVertices.Keys) + PairKeys(Below(f, q), NotBelow(f, q))
  {
    var inside, outside := SplitCorners(f, q, tetrahedron, cube, iso);
    ghost var ins, outs := Below(f, q), NotBelow(f, q);
    if |inside| == 0 || |outside| == 0 {
      NothingToCut(g, ins, outs);
      return;
    }
    SidesOfIso(f, q);
    var outward := OutwardVector(f, g, inside, outside, cube);
    AddCut(f, g, mesh, ins, outs, inside, outside, cube, iso, outward);
  }

  lemma SidesOfIso(f: Field, q: seq<nat>)
    requires f.Covers(q)
    ensures forall i | 0 <= i < |Below(f, q)| :: f.Low(Below(f, q)[i])
    ensures forall i | 0 <= i < |NotBelow(f, q)| :: !f.Low(NotBelow(f, q)[i])
  {
    forall i | 0 <= i < |Below(f, q)| ensures f.Low(Below(f, q)[i]) {
      PartsMembers(f, q, Below(f, q)[i]);
    }
    forall i | 0 <= i < |NotBelow(f, q)| ensures !f.Low(NotBelow(f, q)[i]) {
      PartsMembers(f, q, NotBelow(f, q)[i]);
    }
  }

  // ----- the loops over the volume

  ghost predicate WithinVolume(e: Extents, ts: seq<Tetrahedron>) {
    forall k | 0 <= k < |ts| :: e.HasTetrahedron(ts[k])
  }

  ghost function CutOf(f: Field, g: Geometry, t: Tetrahedron): seq<Triangle>
    requires f.Valid() && f.extents.HasTetrahedron(t)
  {
    var q := CornerOffsets(f, t);
    CutBy(g, Below(f, q), NotBelow(f, q))
  }

  /** The triangles and the crossing edges of the listed tetrahedra. */
  ghost function TrianglesOf(g: Geometry, ts: seq<Tetrahedron>): seq<Triangle> {
    if ts == [] then [] else TrianglesOf(g, ts[..|ts| - 1]) + g.patch(ts[|ts| - 1])
  }

  ghost function EdgesOf(g: Geometry, ts: seq<Tetrahedron>): set<Edge> {
    if ts == [] then {} else EdgesOf(g, ts[..|ts| - 1]) + g.crossings(ts[|ts| - 1])
  }

  /** What the mesh holds after the listed tetrahedra. */
  ghost predicate Holds(f: Field, g: Geometry, mesh: IsoMesh, ts: seq<Tetrahedron>)
    reads mesh
  {
    && mesh.Valid(f, g)
    && mesh.triangles == TrianglesOf(g, ts)
    && mesh.edgeVertices.Keys == EdgesOf(g, ts)
  }

  /** Offset, position and value of the eight corners of a cube. */
  method GatherCube(f: Field, base: Point) returns (cube: CubeData)
    requires f.Valid() && f.extents.HasCube(base)
    ensures Gathered(f, base, cube)
  {
    var offsets: seq<nat>, positions: seq<Vec>, values: seq<real> := [], [], [];
    for k := 0 to 8
      invariant |offsets| == |positions| == |values| == k && f.Covers(offsets)
      invariant forall j | 0 <= j < k :: f.extents.HasPoint(Corner(base, j)) && offsets[j] == f.Offset(Corner(base, j))
      invariant forall j | 0 <= j < k :: positions[j] == f.Position(offsets[j]) && values[j] == f.values[offsets[j]]
    {
      CornerInVolume(f.extents, base, k);
      var p := Corner(base, k);
      var offset := p.row + f.extents.rows * (p.column + f.extents.columns * p.page);
      assert offset == f.Offset(p);
      f.PointAtOffset(p);
      var position :=
        if f.coordinates.Given?
        then Vec(f.coordinates.x[offset], f.coordinates.y[offset], f.coordinates.z[offset])
        else Vec(p.column as real + 1.0, p.row as real + 1.0, p.page as real + 1.0);
      offsets, positions, values := offsets + [offset], positions + [position], values + [f.values[offset]];
    }
    cube := CubeData(offsets, positions, values);
  }

  lemma CornerInVolume(e: Extents, base: Point, k: nat)
    requires e.HasCube(base) && k < 8
    ensures e.HasPoint(Corner(base, k))
  {
    assert k == 0 || k == 1 || k == 2 || k == 3 || k == 4 || k == 5 || k == 6 || k == 7;
  }

  lemma AfterOneMore(g: Geometry, ts: seq<Tetrahedron>, t: Tetrahedron)
    ensures TrianglesOf(g, ts + [t]) == TrianglesOf(g, ts) + g.patch(t)
    ensures EdgesOf(g, ts + [t]) == EdgesOf(g, ts) + g.crossings(t)
  {
    assert (ts + [t])[..|ts|] == ts;
  }

  /** The corner offsets of a tetrahedron are those of its table row among the cube's corners. */
  lemma CornersOfRow(f: Field, t: Tetrahedron, cube: CubeData)
    requires f.Valid() && f.extents.HasTetrahedron(t) && Gathered(f, t.cube, cube)
    ensures |TETRAHEDRA[t.kind]| == 4 && Ids(TETRAHEDRA[t.kind])
    ensures CornerOffsets(f, t) == Pick(cube.offsets, TETRAHEDRA[t.kind])
  {
    var row := TETRAHEDRA[t.kind];
    assert t.kind == 0 || t.kind == 1 || t.kind == 2 || t.kind == 3 || t.kind == 4 || t.kind == 5;
    assert |row| == 4 && Ids(row);
    var q, p := CornerOffsets(f, t), Pick(cube.offsets, row);
    assert q[0] == p[0] && q[1] == p[1] && q[2] == p[2] && q[3] == p[3];
  }

  /** The cube data are those of the cube at `base`. */
  ghost predicate Gathered(f: Field, base: Point, cube: CubeData)
    requires f.Valid()
  {
    && cube.Of(f)
    && forall k | 0 <= k < 8 ::
         f.extents.HasPoint(Corner(base, k)) && cube.offsets[k] == f.Offset(Corner(base, k))
  }

  method PolygonizeRow(ghost f: Field, ghost g: Geometry, mesh: IsoMesh, ghost t: Tetrahedron,
                       tetrahedron: seq<nat>, cube: CubeData, iso: real, ghost ts: seq<Tetrahedron>)
    requires f.Valid() && Describes(g, f) && Holds(f, g, mesh, ts)
    requires f.extents.HasTetrahedron(t) && Gathered(f, t.cube, cube) && iso == f.iso
    requires tetrahedron == TETRAHEDRA[t.kind]
    modifies mesh
    ensures Holds(f, g, mesh, ts + [t])
  {
    CornersOfRow(f, t, cube);
    AfterOneMore(g, ts, t);
    CutIsPatch(f, g, t);
    DescribesTetrahedron(g, f, t);
    PolygonizeTetrahedron(f, g, mesh, CornerOffsets(f, t), tetrahedron, cube, iso);
  }

  /** How many tetrahedra come before the cube at the given row, column and page. */
  ghost function Before(e: Extents, row: nat, column: nat, page: nat): nat
    requires e.Valid()
  {
    6 * (row + (e.rows - 1) * (column + (e.columns - 1) * page))
  }

  lemma BeforeNext(e: Extents, row: nat, column: nat, page: nat)
    requires e.Valid()
    ensures Before(e, row + 1, column, page) == Before(e, row, column, page) + 6
    ensures Before(e, e.rows - 1, column, page) == Before(e, 0, column + 1, page)
    ensures Before(e, 0, e.columns - 1, page) == Before(e, 0, 0, page + 1)
  {
    assert (e.rows - 1) * (column + 1 + (e.columns - 1) * page)
        == (e.rows - 1) + (e.rows - 1) * (column + (e.columns - 1) * page);
    assert (e.columns - 1) * (page + 1) == (e.columns - 1) + (e.columns - 1) * page;
  }

  lemma NumberIsBefore(e: Extents, t: Tetrahedron)
    requires e.Valid() && e.HasTetrahedron(t)
    ensures NumberOf(e, t) == Before(e, t.cube.row, t.cube.column, t.cube.page) + t.kind
  {
    Encode4(t.kind, t.cube.row, t.cube.column, t.cube.page, 6, e.rows - 1, e.columns - 1, e.pages - 1);
  }

  /** Marks the cubes whose start is asked for, so that the loops see the arithmetic only on demand. */
  ghost predicate Ask(row: nat, column: nat, page: nat) {
    true
  }

  /** The start of each cube in the list of tetrahedra, as a plain function. */
  ghost predicate Starts(e: Extents, all: seq<Tetrahedron>, starts: (nat, nat, nat) -> nat)
    requires e.Valid()
  {
    forall r, c, p {:trigger Ask(r, c, p)} ::
      Ask(r, c, p) ==> starts(r, c, p) == Before(e, r, c, p) && all == AllTetrahedra(e)
  }

  lemma StartsExist(e: Extents, all: seq<Tetrahedron>) returns (starts: (nat, nat, nat) -> nat)
    requires e.Valid() && all == AllTetrahedra(e)
    ensures Starts(e, all, starts)
  {
    starts := (r, c, p) => Before(e, r, c, p);
  }

  lemma StartsNext(e: Extents, all: seq<Tetrahedron>, starts: (nat, nat, nat) -> nat, row: nat, column: nat, page: nat)
    requires e.Valid() && Starts(e, all, starts)
    ensures starts(row + 1, column, page) == starts(row, column, page) + 6
    ensures starts(e.rows - 1, column, page) == starts(0, column + 1, page)
    ensures starts(0, e.columns - 1, page) == starts(0, 0, page + 1)
  {
    assert Ask(row + 1, column, page) && Ask(row, column, page);
    assert Ask(e.rows - 1, column, page) && Ask(0, column + 1, page);
    assert Ask(0, e.columns - 1, page) && Ask(0, 0, page + 1);
    BeforeNext(e, row, column, page);
  }

  lemma StartsEnds(e: Extents, all: seq<Tetrahedron>, starts: (nat, nat, nat) -> nat)
    requires e.Valid() && Starts(e, all, starts)
    ensures starts(0, 0, 0) == 0 && starts(0, 0, e.pages - 1) == |all|
  {
    assert Ask(0, 0, 0) && Ask(0, 0, e.pages - 1);
    Encode4(0, 0, 0, 0, 6, e.rows - 1, e.columns - 1, e.pages - 1);
  }

  lemma CubeAtStart(e: Extents, all: seq<Tetrahedron>, starts: (nat, nat, nat) -> nat, base: Point, kind: nat)
    requires e.Valid() && Starts(e, all, starts) && e.HasTetrahedron(Tetrahedron(base, kind))
    ensures var n := starts(base.row, base.column, base.page) + kind;
            && n < |all|
            && all[..n + 1] == all[..n] + [Tetrahedron(base, kind)]
  {
    assert Ask(base.row, base.column, base.page);
    NumberIsBefore(e, Tetrahedron(base, kind));
  }

  /** What the mesh holds when the first `n` tetrahedra have been visited. */
  ghost predicate Reached(f: Field, g: Geometry, mesh: IsoMesh, all: seq<Tetrahedron>, n: nat)
    reads mesh
  {
    forall k {:trigger Unseal(k)} :: Unseal(k) ==> n <= |all| && Holds(f, g, mesh, all[..n])
  }

  /** One tetrahedron of a cube. */
  method PolygonizeNext(f: Field, ghost g: Geometry, mesh: IsoMesh, base: Point, kind: nat, cube: CubeData,
                        ghost all: seq<Tetrahedron>, ghost starts: (nat, nat, nat) -> nat, ghost n: nat)
    requires f.Valid() && Describes(g, f) && f.extents.HasCube(base) && Starts(f.extents, all, starts) && kind < 6
    requires Gathered(f, base, cube) && n == starts(base.row, base.column, base.page) + kind
    requires Reached(f, g, mesh, all, n)
    modifies mesh
    ensures Reached(f, g, mesh, all, n + 1)
  {
    assert Unseal(0);
    CubeAtStart(f.extents, all, starts, base, kind);
    PolygonizeRow(f, g, mesh, Tetrahedron(base, kind), TETRAHEDRA[kind], cube, f.iso, all[..n]);
  }

  /** All that stays the same while the volume is visited; looked into only where `UnsealSetting` is mentioned. */
  ghost predicate Setting(f: Field, g: Geometry, all: seq<Tetrahedron>, starts: (nat, nat, nat) -> nat) {
    forall k {:trigger UnsealSetting(k)} :: UnsealSetting(k) ==> f.Valid() && Describes(g, f) && Starts(f.extents, all, starts)
  }

  lemma SettingNext(f: Field, g: Geometry, all: seq<Tetrahedron>, starts: (nat, nat, nat) -> nat, row: nat, column: nat, page: nat)
    requires Setting(f, g, all, starts) && f.extents.Valid()
    ensures starts(row + 1, column, page) == starts(row, column, page) + 6
    ensures starts(f.extents.rows - 1, column, page) == starts(0, column + 1, page)
    ensures starts(0, f.extents.columns - 1, page) == starts(0, 0, page + 1)
  {
    assert UnsealSetting(0);
    StartsNext(f.extents, all, starts, row, column, page);
  }

  lemma SettingEnds(f: Field, g: Geometry, all: seq<Tetrahedron>, starts: (nat, nat, nat) -> nat)
    requires Setting(f, g, all, starts) && f.extents.Valid()
    ensures starts(0, 0, 0) == 0 && starts(0, 0, f.extents.pages - 1) == |all|
  {
    assert UnsealSetting(0);
    StartsEnds(f.extents, all, starts);
  }

  method PolygonizeCube(f: Field, ghost g: Geometry, mesh: IsoMesh, base: Point,
                        ghost all: seq<Tetrahedron>, ghost starts: (nat, nat, nat) -> nat, ghost n: nat)
    requires Setting(f, g, all, starts) && f.extents.HasCube(base) && n == starts(base.row, base.column, base.page)
    requires Reached(f, g, mesh, all, n)
    modifies mesh
    ensures Reached(f, g, mesh, all, n + 6)
  {
    assert UnsealSetting(0);
    var cube := GatherCube(f, base);
    for kind := 0 to 6
      invariant Reached(f, g, mesh, all, n + kind)
    {
      PolygonizeNext(f, g, mesh, base, kind, cube, all, starts, n + kind);
    }
  }

  method VisitColumn(f: Field, ghost g: Geometry, mesh: IsoMesh, column: nat, page: nat,
                     ghost all: seq<Tetrahedron>, ghost starts: (nat, nat, nat) -> nat)
    requires Setting(f, g, all, starts) && f.extents.Valid()
    requires column < f.extents.columns - 1 && page < f.extents.pages - 1
    requires Reached(f, g, mesh, all, starts(0, column, page))
    modifies mesh
    ensures Reached(f, g, mesh, all, starts(0, column + 1, page))
  {
    for row := 0 to f.extents.rows - 1
      invariant Reached(f, g, mesh, all, starts(row, column, page))
    {
      PolygonizeCube(f, g, mesh, Point(row, column, page), all, starts, starts(row, column, page));
      SettingNext(f, g, all, starts, row, column, page);
    }
    SettingNext(f, g, all, starts, 0, column, page);
  }

  method VisitPage(f: Field, ghost g: Geometry, mesh: IsoMesh, page: nat,
                   ghost all: seq<Tetrahedron>, ghost starts: (nat, nat, nat) -> nat)
    requires Setting(f, g, all, starts) && f.extents.Valid() && page < f.extents.pages - 1
    requires Reached(f, g, mesh, all, starts(0, 0, page))
    modifies mesh
    ensures Reached(f, g, mesh, all, starts(0, 0, page + 1))
  {
    for column := 0 to f.extents.columns - 1
      invariant Reached(f, g, mesh, all, starts(0, column, page))
    {
      VisitColumn(f, g, mesh, column, page, all, starts);
    }
    SettingNext(f, g, all, starts, 0, 0, page);
  }

  method VisitVolume(f: Field, ghost g: Geometry, mesh: IsoMesh,
                     ghost all: seq<Tetrahedron>, ghost starts: (nat, nat, nat) -> nat)
    requires Setting(f, g, all, starts) && f.extents.Valid() && Reached(f, g, mesh, all, 0)
    modifies mesh
    ensures Reached(f, g, mesh, all, |all|)
  {
    SettingEnds(f, g, all, starts);
    for page := 0 to f.extents.pages - 1
      invariant Reached(f, g, mesh, all, starts(0, 0, page))
    {
      VisitPage(f, g, mesh, page, all, starts);
    }
  }

  /** An edge that joins two corners of some tetrahedron of the volume and crosses the iso-value. */
  ghost predicate CutEdge(f: Field, e: Edge)
    requires f.Valid()
  {
    Crossing(f, e) && exists t :: IsEdgeOf(f, t, e)
  }

  ghost predicate IsEdgeOf(f: Field, t: Tetrahedron, e: Edge)
    requires f.Valid()
  {
    && f.extents.HasTetrahedron(t) && e.first < |f.values| && e.second < |f.values|
    && Contains(t, f.PointAt(e.first)) && Contains(t, f.PointAt(e.second))
  }

  /**
   Extracts the isosurface.  The mesh holds exactly the triangles of `Surface(f)`; the cache is a
   bijection from exactly the crossing edges of the volume onto the vertex numbers.
   */
  method ExtractIsosurface(f: Field) returns (mesh: IsoMesh, ghost g: Geometry)
    requires f.Valid()
    ensures fresh(mesh) && Describes(g, f) && mesh.Valid(f, g)
    ensures mesh.triangles == Surface(f)
    ensures forall e :: e in mesh.edgeVertices <==> CutEdge(f, e)
  {
    mesh := new IsoMesh();
    g := GeometryExists(f);
    ghost var all := AllTetrahedra(f.extents);
    ghost var starts := StartsExist(f.extents, all);
    StartsEmpty(f, g, mesh, all);
    VisitVolume(f, g, mesh, all, starts);
    EndsWithSurface(f, g, mesh, all);
  }

  lemma StartsEmpty(f: Field, g: Geometry, mesh: IsoMesh, all: seq<Tetrahedron>)
    requires f.Valid() && mesh.vertices == [] && mesh.faces == [] && mesh.edgeVertices == map[]
    requires mesh.keys == [] && mesh.triangles == []
    ensures Reached(f, g, mesh, all, 0)
  {
    assert all[..0] == [];
    assert mesh.Valid(f, g);
  }

  lemma EndsWithSurface(f: Field, g: Geometry, mesh: IsoMesh, all: seq<Tetrahedron>)
    requires f.Valid() && Describes(g, f) && all == AllTetrahedra(f.extents) && Reached(f, g, mesh, all, |all|)
    ensures mesh.Valid(f, g) && mesh.triangles == Surface(f)
    ensures forall e :: e in mesh.edgeVertices <==> CutEdge(f, e)
  {
    assert Unseal(0);
    assert all[..|all|] == all;
    AllTetrahedraEnumerates(f.extents);
    TrianglesAreSurface(f, g, all);
    forall e ensures e in mesh.edgeVertices <==> CutEdge(f, e) {
      EdgesAreCut(f, g, e);
      assert e in mesh.edgeVertices <==> e in mesh.edgeVertices.Keys;
    }
  }

  // ----- what the loops have covered

  lemma CutIsPatch(f: Field, g: Geometry, t: Tetrahedron)
    requires f.Valid() && Describes(g, f) && f.extents.HasTetrahedron(t)
    ensures CutOf(f, g, t) == g.patch(t)
  {
    var q := CornerOffsets(f, t);
    var ins, outs := Below(f, q), NotBelow(f, q);
    CutCrosses(f, q);
    if ins != [] && outs != [] {
      OrientedCut(f, g, Cut(ins, outs), Outward(f, ins, outs));
      DescribesOutward(g, f, ins, outs);
    }
    DescribesTetrahedron(g, f, t);
  }

  lemma OrientedCut(f: Field, g: Geometry, ts: seq<Triangle>, w: Vec)
    requires f.Valid() && Describes(g, f) && AllCross(f, ts)
    ensures OrientAll(f, ts, w) == OrientBy(g, ts, w)
  {
    var us, vs := OrientAll(f, ts, w), OrientBy(g, ts, w);
    forall i | 0 <= i < |ts| ensures us[i] == vs[i] {
      OrientedAt(f, g, ts, w, i);
    }
  }

  lemma OrientedAt(f: Field, g: Geometry, ts: seq<Triangle>, w: Vec, i: nat)
    requires f.Valid() && Describes(g, f) && AllCross(f, ts) && i < |ts|
    ensures OrientAll(f, ts, w)[i] == g.orient(ts[i], w)
  {
    DescribesOrientation(g, f, ts[i], w);
  }

  lemma {:induction false} TrianglesAreFlattened(g: Geometry, ts: seq<Tetrahedron>, parts: seq<seq<Triangle>>)
    requires |parts| == |ts| && forall k | 0 <= k < |ts| :: parts[k] == g.patch(ts[k])
    ensures TrianglesOf(g, ts) == Flatten(parts)
  {
    if ts != [] {
      TrianglesAreFlattened(g, ts[..|ts| - 1], parts[..|ts| - 1]);
    }
  }

  lemma TrianglesAreSurface(f: Field, g: Geometry, ts: seq<Tetrahedron>)
    requires f.Valid() && Describes(g, f) && WithinVolume(f.extents, ts)
    ensures TrianglesOf(g, ts) == Flatten(Patches(f, ts))
  {
    forall k | 0 <= k < |ts| ensures Patches(f, ts)[k] == g.patch(ts[k]) {
      DescribesTetrahedron(g, f, ts[k]);
    }
    TrianglesAreFlattened(g, ts, Patches(f, ts));
  }

  lemma TetrahedronEdges(f: Field, g: Geometry, t: Tetrahedron, e: Edge)
    requires f.Valid() && Describes(g, f) && f.extents.HasTetrahedron(t)
    ensures e in g.crossings(t) <==> Crossing(f, e) && IsEdgeOf(f, t, e)
  {
    DescribesTetrahedron(g, f, t);
    if e in CrossingsOf(f, t) {
      CrossingIsEdge(f, t, e);
    }
    if Crossing(f, e) && IsEdgeOf(f, t, e) {
      EdgeIsCrossing(f, t, e);
    }
  }

  lemma CrossingIsEdge(f: Field, t: Tetrahedron, e: Edge)
    requires f.Valid() && f.extents.HasTetrahedron(t) && e in CrossingsOf(f, t)
    ensures Crossing(f, e) && IsEdgeOf(f, t, e)
  {
    var q := CornerOffsets(f, t);
    var i, o :| i in Below(f, q) && o in NotBelow(f, q) && e == Key(i, o);
    PartsMembers(f, q, i);
    PartsMembers(f, q, o);
    CornersAreContained(f, t, i);
    CornersAreContained(f, t, o);
  }

  lemma EdgeIsCrossing(f: Field, t: Tetrahedron, e: Edge)
    requires f.Valid() && f.extents.HasTetrahedron(t) && Crossing(f, e) && IsEdgeOf(f, t, e)
    ensures e in CrossingsOf(f, t)
  {
    var q := CornerOffsets(f, t);
    PartsMembers(f, q, e.first);
    PartsMembers(f, q, e.second);
    CornersAreContained(f, t, e.first);
    CornersAreContained(f, t, e.second);
    assert e == Key(e.first, e.second) == Key(e.second, e.first);
  }

  ghost predicate SomeEdge(f: Field, ts: seq<Tetrahedron>, e: Edge)
    requires f.Valid()
  {
    exists k | 0 <= k < |ts| :: IsEdgeOf(f, ts[k], e)
  }

  lemma SomeEdgeSnoc(f: Field, ts: seq<Tetrahedron>, t: Tetrahedron, e: Edge)
    requires f.Valid()
    ensures SomeEdge(f, ts + [t], e) <==> SomeEdge(f, ts, e) || IsEdgeOf(f, t, e)
  {
    var us := ts + [t];
    if SomeEdge(f, ts, e) {
      var k :| 0 <= k < |ts| && IsEdgeOf(f, ts[k], e);
      assert IsEdgeOf(f, us[k], e);
    }
    if IsEdgeOf(f, t, e) {
      assert IsEdgeOf(f, us[|ts|], e);
    }
  }

  lemma {:induction false} EdgesOfMembers(f: Field, g: Geometry, ts: seq<Tetrahedron>, e: Edge)
    requires f.Valid() && Describes(g, f) && WithinVolume(f.extents, ts)
    ensures e in EdgesOf(g, ts) <==> Crossing(f, e) && SomeEdge(f, ts, e)
  {
    if ts != [] {
      var n := |ts| - 1;
      EdgesOfMembers(f, g, ts[..n], e);
      TetrahedronEdges(f, g, ts[n], e);
      SomeEdgeSnoc(f, ts[..n], ts[n], e);
      assert ts[..n] + [ts[n]] == ts;
    }
  }

  lemma EdgesAreCut(f: Field, g: Geometry, e: Edge)
    requires f.Valid() && Describes(g, f)
    ensures e in EdgesOf(g, AllTetrahedra(f.extents)) <==> CutEdge(f, e)
  {
    var all := AllTetrahedra(f.extents);
    AllTetrahedraEnumerates(f.extents);
    EdgesOfMembers(f, g, all, e);
    if CutEdge(f, e) {
      var t :| IsEdgeOf(f, t, e);
      assert t in all;
    }
  }
}
