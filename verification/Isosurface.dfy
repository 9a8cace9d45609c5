/**
 The surface that marching tetrahedra extracts from a volume, as a pure function of the field.

 Mesh vertices are named by the grid edge they lie on, a pair of grid offsets with the smaller one
 first.  `InterpolatedIsIsoPoint` says where a vertex lies, `CutSides` which sides the triangles of one
 tetrahedron have, and `Oriented` how they are wound.
 */
module Isosurface {
  import opened MixedRadix
  import opened Tetrahedra

  // ----- vectors and fields

  datatype Vec = Vec(x: real, y: real, z: real)

  function Sub(a: Vec, b: Vec): Vec {
    Vec(a.x - b.x, a.y - b.y, a.z - b.z)
  }

  function Cross(a: Vec, b: Vec): Vec {
    Vec(a.y * b.z - a.z * b.y, a.z * b.x - a.x * b.z, a.x * b.y - a.y * b.x)
  }

  function Dot(a: Vec, b: Vec): real {
    a.x * b.x + a.y * b.y + a.z * b.z
  }

  /** Explicit X/Y/Z volumes, or one-based index coordinates with columns along x. */
  datatype Coordinates = Indices | Given(x: seq<real>, y: seq<real>, z: seq<real>)

  datatype Field = Field(extents: Extents, values: seq<real>, coordinates: Coordinates, iso: real)
  {
    function Dims(): seq<nat> {
      [extents.rows, extents.columns, extents.pages]
    }

    predicate Valid() {
      && extents.Valid()
      && |values| == extents.rows * (extents.columns * extents.pages)
      && (coordinates.Given? ==> |coordinates.x| == |coordinates.y| == |coordinates.z| == |values|)
    }

    function Offset(p: Point): (o: nat)
      requires extents.HasPoint(p)
      ensures o == p.row + extents.rows * (p.column + extents.columns * p.page)
      ensures |values| == extents.rows * (extents.columns * extents.pages) ==> o < |values|
    {
      EncodeBound([p.row, p.column, p.page], Dims());
      Encode3(p.row, p.column, p.page, extents.rows, extents.columns, extents.pages);
      Encode([p.row, p.column, p.page], Dims())
    }

    function PointAt(o: nat): (p: Point)
      requires Valid() && o < |values|
      ensures extents.HasPoint(p) && Offset(p) == o
    {
      var c := Decode(o, Dims());
      Encode3(0, 0, 0, extents.rows, extents.columns, extents.pages);
      EncodeDecode(o, Dims());
      assert c == [c[0], c[1], c[2]];
      Point(c[0], c[1], c[2])
    }

    lemma PointAtOffset(p: Point)
      requires Valid() && extents.HasPoint(p)
      ensures PointAt(Offset(p)) == p
    {
      DecodeEncode([p.row, p.column, p.page], Dims());
    }

    function Position(o: nat): Vec
      requires Valid() && o < |values|
    {
      match coordinates
      case Given(x, y, z) => Vec(x[o], y[o], z[o])
      case Indices =>
        var p := PointAt(o);
        Vec(p.column as real + 1.0, p.row as real + 1.0, p.page as real + 1.0)
    }

    predicate Low(o: nat)
      requires o < |values|
    {
      values[o] < iso
    }

    predicate Covers(q: seq<nat>) {
      forall i | 0 <= i < |q| :: q[i] < |values|
    }
  }

  // ----- grid edges and their iso-points

  /** A grid edge by the offsets of its ends; `first < second` in every key that is built. */
  datatype Edge = Edge(first: nat, second: nat)

  function Key(a: nat, b: nat): Edge {
    if a < b then Edge(a, b) else Edge(b, a)
  }

  /** The field crosses the iso-value between the two ends of a grid edge. */
  predicate Crossing(f: Field, e: Edge) {
    e.first < e.second < |f.values| && f.Low(e.first) != f.Low(e.second)
  }

  function Between(a: real, b: real, t: real): real {
    a + t * (b - a)
  }

  function Along(a: Vec, b: Vec, t: real): Vec {
    Vec(Between(a.x, b.x, t), Between(a.y, b.y, t), Between(a.z, b.z, t))
  }

  /** The point of a crossing edge at which linear interpolation meets the iso-value. */
  function IsoPoint(f: Field, e: Edge): Vec
    requires f.Valid() && Crossing(f, e)
  {
    var u, v := f.values[e.first], f.values[e.second];
    Along(f.Position(e.first), f.Position(e.second), (f.iso - u) / (v - u))
  }

  function Clamp(t: real): real {
    if t < 0.0 then 0.0 else if t > 1.0 then 1.0 else t
  }

  /** What the extractor computes for a new vertex, with its guard and its clamp. */
  function Interpolated(a: Vec, b: Vec, u: real, v: real, iso: real): Vec {
    var denominator := v - u;
    var fraction := if denominator == 0.0 then 0.5 else Clamp((iso - u) / denominator);
    Along(a, b, fraction)
  }

  lemma Quotient(n: real, d: real)
    requires 0.0 <= n <= d && d > 0.0
    ensures 0.0 <= n / d <= 1.0
  {
  }

  lemma NegatedQuotient(n: real, d: real)
    requires d != 0.0
    ensures n / d == (0.0 - n) / (0.0 - d)
  {
    var s, t := n / d, (0.0 - n) / (0.0 - d);
    assert s * d == n && t * (0.0 - d) == 0.0 - n;
    assert (s - t) * d == 0.0;
  }

  lemma FractionInRange(u: real, v: real, iso: real)
    requires (u < iso) != (v < iso)
    ensures u != v && 0.0 <= (iso - u) / (v - u) <= 1.0
  {
    if u < v {
      Quotient(iso - u, v - u);
    } else {
      Quotient(u - iso, u - v);
      NegatedQuotient(iso - u, v - u);
    }
  }

  lemma FractionsAddUp(u: real, v: real, iso: real)
    requires u != v
    ensures (iso - u) / (v - u) + (iso - v) / (u - v) == 1.0
  {
    NegatedQuotient(iso - v, u - v);
    assert (iso - u) / (v - u) + (v - iso) / (v - u) == (v - u) / (v - u);
  }

  lemma AlongReversed(a: Vec, b: Vec, s: real, t: real)
    requires s + t == 1.0
    ensures Along(a, b, s) == Along(b, a, t)
  {
    OneReversed(a.x, b.x, s, t);
    OneReversed(a.y, b.y, s, t);
    OneReversed(a.z, b.z, s, t);
  }

  lemma OneReversed(a: real, b: real, s: real, t: real)
    requires s + t == 1.0
    ensures Between(a, b, s) == Between(b, a, t)
  {
    var d := b - a;
    assert t == 1.0 - s;
    assert (1.0 - s) * d == d - s * d;
    assert t * (0.0 - d) == 0.0 - t * d;
  }

  /**
   On a crossing edge the zero-denominator guard and the clamp do nothing, and the computed vertex
   is the iso-point whichever end is named first.
   */
  lemma InterpolatedIsIsoPoint(f: Field, a: nat, b: nat)
    requires f.Valid() && a < |f.values| && b < |f.values| && f.Low(a) != f.Low(b)
    ensures Crossing(f, Key(a, b)) && f.values[b] - f.values[a] != 0.0
    ensures Interpolated(f.Position(a), f.Position(b), f.values[a], f.values[b], f.iso) == IsoPoint(f, Key(a, b))
  {
    var u, v := f.values[a], f.values[b];
    FractionInRange(u, v, f.iso);
    if a > b {
      FractionsAddUp(u, v, f.iso);
      AlongReversed(f.Position(a), f.Position(b), (f.iso - u) / (v - u), (f.iso - v) / (u - v));
    }
  }

  // ----- the triangles of one tetrahedron

  datatype Triangle = Triangle(a: Edge, b: Edge, c: Edge)

  /** The corners of `q` below the iso-value, in the order listed. */
  function Below(f: Field, q: seq<nat>): (s: seq<nat>)
    requires f.Covers(q)
    ensures f.Covers(s) && |s| <= |q|
  {
    if q == [] then [] else
      var n := |q| - 1;
      Below(f, q[..n]) + if f.Low(q[n]) then [q[n]] else []
  }

  function NotBelow(f: Field, q: seq<nat>): (s: seq<nat>)
    requires f.Covers(q)
    ensures f.Covers(s) && |s| + |Below(f, q)| == |q|
  {
    if q == [] then [] else
      var n := |q| - 1;
      NotBelow(f, q[..n]) + if f.Low(q[n]) then [] else [q[n]]
  }

  lemma {:induction false} PartsMembers(f: Field, q: seq<nat>, o: nat)
    requires f.Covers(q)
    ensures o in Below(f, q) <==> o in q && f.Low(o)
    ensures o in NotBelow(f, q) <==> o in q && !f.Low(o)
  {
    if q != [] {
      var n := |q| - 1;
      PartsMembers(f, q[..n], o);
      assert q == q[..n] + [q[n]];
    }
  }

  /** The faces cut through a tetrahedron with the given inside and outside corners. */
  function Cut(ins: seq<nat>, outs: seq<nat>): seq<Triangle> {
    if |ins| == 1 && |outs| == 3 then
      [Triangle(Key(ins[0], outs[0]), Key(ins[0], outs[1]), Key(ins[0], outs[2]))]
    else if |ins| == 3 && |outs| == 1 then
      [Triangle(Key(outs[0], ins[0]), Key(outs[0], ins[1]), Key(outs[0], ins[2]))]
    else if |ins| == 2 && |outs| == 2 then
      var ac, ad := Key(ins[0], outs[0]), Key(ins[0], outs[1]);
      var bc, bd := Key(ins[1], outs[0]), Key(ins[1], outs[1]);
      [Triangle(ac, ad, bd), Triangle(ac, bd, bc)]
    else
      []
  }

  predicate HasVertex(t: Triangle, e: Edge) {
    e == t.a || e == t.b || e == t.c
  }

  /** The triangle has the undirected edge joining mesh vertices `e` and `g`. */
  predicate HasSide(t: Triangle, e: Edge, g: Edge) {
    e != g && HasVertex(t, e) && HasVertex(t, g)
  }

  /** How many of the triangles have the side joining `e` and `g`. */
  function Sides(ts: seq<Triangle>, e: Edge, g: Edge): nat {
    if ts == [] then 0 else
      var n := |ts| - 1;
      Sides(ts[..n], e, g) + if HasSide(ts[n], e, g) then 1 else 0
  }

  lemma {:induction false} SidesConcat(s: seq<Triangle>, t: seq<Triangle>, e: Edge, g: Edge)
    ensures Sides(s + t, e, g) == Sides(s, e, g) + Sides(t, e, g)
  {
    if t == [] {
      assert s + t == s;
    } else {
      var n := |t| - 1;
      SidesConcat(s, t[..n], e, g);
      assert (s + t)[..|s| + n] == s + t[..n];
    }
  }

  lemma SidesOfFew(t: Triangle, u: Triangle, e: Edge, g: Edge)
    ensures Sides([t], e, g) == if HasSide(t, e, g) then 1 else 0
    ensures Sides([t, u], e, g) == (if HasSide(t, e, g) then 1 else 0) + if HasSide(u, e, g) then 1 else 0
  {
    assert [t][..0] == [] && [t, u][..1] == [t];
  }

  /** Two inside and two outside corners: the side shared by the two triangles. */
  predicate Diagonal(ins: seq<nat>, outs: seq<nat>, i: nat, o: nat, i': nat, o': nat) {
    |ins| == 2 && |outs| == 2 &&
    (|| (i == ins[0] && o == outs[0] && i' == ins[1] && o' == outs[1])
     || (i' == ins[0] && o' == outs[0] && i == ins[1] && o == outs[1]))
  }

  /** Keys with the inside end first agree exactly when their ends do. */
  lemma SameKey(i: nat, o: nat, a: nat, c: nat)
    requires i != c && o != a
    ensures Key(i, o) == Key(a, c) <==> i == a && o == c
  {
  }

  lemma QuadrilateralSides(ac: Edge, ad: Edge, bc: Edge, bd: Edge, e: Edge, g: Edge)
    requires ac != ad && ac != bc && ac != bd && ad != bc && ad != bd && bc != bd
    ensures Sides([Triangle(ac, ad, bd), Triangle(ac, bd, bc)], e, g) ==
            if e == g || e !in {ac, ad, bc, bd} || g !in {ac, ad, bc, bd} then 0
            else if (e == ac && g == bd) || (e == bd && g == ac) then 2
            else if (e == ad && g == bc) || (e == bc && g == ad) then 0
            else 1
  {
    SidesOfFew(Triangle(ac, ad, bd), Triangle(ac, bd, bc), e, g);
  }

  lemma QuadrilateralCut(a: nat, b: nat, c: nat, d: nat, i: nat, o: nat, i': nat, o': nat)
    requires a != b && c != d && a != c && a != d && b != c && b != d
    requires i != c && i != d && i' != c && i' != d && o != a && o != b && o' != a && o' != b
    requires i != o && i != o' && i' != o && i' != o' && (i != i' || o != o')
    ensures Sides(Cut([a, b], [c, d]), Key(i, o), Key(i', o')) ==
            if !((i == a || i == b) && (i' == a || i' == b) && (o == c || o == d) && (o' == c || o' == d)) then 0
            else if i == i' || o == o' then 1
            else if (i == a) == (o == c) then 2
            else 0
  {
    var ac, ad, bc, bd, e, g := Key(a, c), Key(a, d), Key(b, c), Key(b, d), Key(i, o), Key(i', o');
    assert ac != ad && ac != bc && ac != bd && ad != bc && ad != bd && bc != bd && e != g by {
      SameKey(a, c, a, d); SameKey(a, c, b, c); SameKey(a, c, b, d);
      SameKey(a, d, b, c); SameKey(a, d, b, d); SameKey(b, c, b, d); SameKey(i, o, i', o');
    }
    SameKey(i, o, a, c); SameKey(i, o, a, d); SameKey(i, o, b, c); SameKey(i, o, b, d);
    SameKey(i', o', a, c); SameKey(i', o', a, d); SameKey(i', o', b, c); SameKey(i', o', b, d);
    QuadrilateralSides(ac, ad, bc, bd, e, g);
  }

  /**
   How often a cut tetrahedron contributes the side joining the vertices on grid edges `i-o` and
   `i'-o'` (inside end first): once if the edges share an end and the third face of the pair is in
   the tetrahedron, twice for the diagonal of a quadrilateral, never otherwise.
   */
  lemma CutSides(ins: seq<nat>, outs: seq<nat>, i: nat, o: nat, i': nat, o': nat)
    requires |ins| + |outs| == 4 && Distinct(ins) && Distinct(outs)
    requires forall x :: x in ins ==> x !in outs && x != o && x != o'
    requires forall x :: x in outs ==> x != i && x != i'
    requires i != o && i != o' && i' != o && i' != o' && (i != i' || o != o')
    ensures Sides(Cut(ins, outs), Key(i, o), Key(i', o')) ==
            if !(i in ins && i' in ins && o in outs && o' in outs) then 0
            else if i == i' || o == o' then 1
            else if Diagonal(ins, outs, i, o, i', o') then 2
            else 0
  {
    var ts := Cut(ins, outs);
    SameKey(i, o, i', o');
    if |ts| == 1 && |ins| == 1 {
      var a, c, d, e := ins[0], outs[0], outs[1], outs[2];
      assert a in ins && c in outs && d in outs && e in outs;
      SameKey(i, o, a, c); SameKey(i, o, a, d); SameKey(i, o, a, e);
      SameKey(i', o', a, c); SameKey(i', o', a, d); SameKey(i', o', a, e);
      SidesOfFew(ts[0], ts[0], Key(i, o), Key(i', o'));
    } else if |ts| == 1 {
      var a, b, c, d := ins[0], ins[1], ins[2], outs[0];
      assert a in ins && b in ins && c in ins && d in outs;
      SameKey(i, o, a, d); SameKey(i, o, b, d); SameKey(i, o, c, d);
      SameKey(i', o', a, d); SameKey(i', o', b, d); SameKey(i', o', c, d);
      SidesOfFew(ts[0], ts[0], Key(i, o), Key(i', o'));
    } else if |ts| == 2 {
      var a, b, c, d := ins[0], ins[1], outs[0], outs[1];
      assert ins == [a, b] && outs == [c, d];
      assert a in ins && b in ins && c in outs && d in outs;
      QuadrilateralCut(a, b, c, d, i, o, i', o');
    }
  }

  // ----- orientation

  function SumOfPositions(f: Field, q: seq<nat>): Vec
    requires f.Valid() && f.Covers(q)
  {
    if q == [] then Vec(0.0, 0.0, 0.0) else
      var n := |q| - 1;
      var s, p := SumOfPositions(f, q[..n]), f.Position(q[n]);
      Vec(s.x + p.x, s.y + p.y, s.z + p.z)
  }

  function Mean(f: Field, q: seq<nat>): Vec
    requires f.Valid() && f.Covers(q) && q != []
  {
    var s, n := SumOfPositions(f, q), |q| as real;
    Vec(s.x / n, s.y / n, s.z / n)
  }

  predicate Crosses(f: Field, t: Triangle) {
    Crossing(f, t.a) && Crossing(f, t.b) && Crossing(f, t.c)
  }

  function Normal(f: Field, t: Triangle): Vec
    requires f.Valid() && Crosses(f, t)
  {
    var a, b, c := IsoPoint(f, t.a), IsoPoint(f, t.b), IsoPoint(f, t.c);
    Cross(Sub(b, a), Sub(c, a))
  }

  lemma CrossSwap(u: Vec, v: Vec, w: Vec)
    ensures Dot(Cross(v, u), w) == 0.0 - Dot(Cross(u, v), w)
  {
    var m, n := Cross(v, u), Cross(u, v);
    assert m == Vec(0.0 - n.x, 0.0 - n.y, 0.0 - n.z);
    assert m.x * w.x == 0.0 - n.x * w.x && m.y * w.y == 0.0 - n.y * w.y && m.z * w.z == 0.0 - n.z * w.z;
  }

  lemma SwapReverses(a: Vec, b: Vec, c: Vec, w: Vec)
    ensures Dot(Cross(Sub(c, a), Sub(b, a)), w) == 0.0 - Dot(Cross(Sub(b, a), Sub(c, a)), w)
  {
    CrossSwap(Sub(b, a), Sub(c, a), w);
  }

  /** The triangle wound so that its normal does not point against `outward`. */
  function Oriented(f: Field, t: Triangle, outward: Vec): (u: Triangle)
    requires f.Valid() && Crosses(f, t)
    ensures Crosses(f, u) && Dot(Normal(f, u), outward) >= 0.0
    ensures forall e, g :: HasSide(u, e, g) <==> HasSide(t, e, g)
  {
    if Dot(Normal(f, t), outward) < 0.0 then
      var u := Triangle(t.a, t.c, t.b);
      SwapReverses(IsoPoint(f, t.a), IsoPoint(f, t.b), IsoPoint(f, t.c), outward);
      u
    else t
  }

  // ----- the triangles of a tetrahedron and of the volume

  /** The offsets of a tetrahedron's corners in table order. */
  function CornerOffsets(f: Field, t: Tetrahedron): (q: seq<nat>)
    requires f.Valid() && f.extents.HasTetrahedron(t)
    ensures |q| == 4 && f.Covers(q)
  {
    TableMatchesContains(t, t.cube);
    [f.Offset(Vertex(t, 0)), f.Offset(Vertex(t, 1)), f.Offset(Vertex(t, 2)), f.Offset(Vertex(t, 3))]
  }

  lemma CornerPoint(f: Field, t: Tetrahedron, i: nat)
    requires f.Valid() && f.extents.HasTetrahedron(t) && i < 4
    ensures f.PointAt(CornerOffsets(f, t)[i]) == Vertex(t, i)
  {
    TableMatchesContains(t, Vertex(t, i));
    f.PointAtOffset(Vertex(t, i));
  }

  lemma CornersAreContained(f: Field, t: Tetrahedron, o: nat)
    requires f.Valid() && f.extents.HasTetrahedron(t) && o < |f.values|
    ensures o in CornerOffsets(f, t) <==> Contains(t, f.PointAt(o))
    ensures Distinct(CornerOffsets(f, t))
  {
    var q := CornerOffsets(f, t);
    CornerPoint(f, t, 0);
    CornerPoint(f, t, 1);
    CornerPoint(f, t, 2);
    CornerPoint(f, t, 3);
    TableMatchesContains(t, f.PointAt(o));
    assert o in q <==> o == q[0] || o == q[1] || o == q[2] || o == q[3];
  }
}
