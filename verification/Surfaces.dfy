/**
 The whole surface of a volume: the triangles of every tetrahedron, in loop order.
 */
module Surfaces {
  import opened MixedRadix
  import opened Tetrahedra
  import opened Isosurface

  // ----- the triangles of one tetrahedron, oriented

  ghost predicate AllCross(f: Field, ts: seq<Triangle>) {
    forall i | 0 <= i < |ts| :: Crosses(f, ts[i])
  }

  lemma PartsCross(f: Field, q: seq<nat>, i: nat, o: nat)
    requires f.Covers(q) && i < |Below(f, q)| && o < |NotBelow(f, q)|
    ensures Crossing(f, Key(Below(f, q)[i], NotBelow(f, q)[o]))
    ensures Crossing(f, Key(NotBelow(f, q)[o], Below(f, q)[i]))
  {
    var a, b := Below(f, q)[i], NotBelow(f, q)[o];
    PartsMembers(f, q, a);
    PartsMembers(f, q, b);
    KeyCrosses(f, a, b);
  }

  lemma KeyCrosses(f: Field, a: nat, b: nat)
    requires a < |f.values| && b < |f.values| && f.Low(a) && !f.Low(b)
    ensures Crossing(f, Key(a, b)) && Crossing(f, Key(b, a))
  {
  }

  ghost predicate EachPairCrosses(f: Field, ins: seq<nat>, outs: seq<nat>) {
    forall i, o | 0 <= i < |ins| && 0 <= o < |outs| ::
      Crossing(f, Key(ins[i], outs[o])) && Crossing(f, Key(outs[o], ins[i]))
  }

  lemma CutOfPairsCrosses(f: Field, ins: seq<nat>, outs: seq<nat>)
    requires EachPairCrosses(f, ins, outs)
    ensures AllCross(f, Cut(ins, outs))
  {
  }

  lemma CutCrosses(f: Field, q: seq<nat>)
    requires f.Covers(q)
    ensures AllCross(f, Cut(Below(f, q), NotBelow(f, q)))
  {
    var ins, outs := Below(f, q), NotBelow(f, q);
    assert EachPairCrosses(f, ins, outs) by {
      forall i, o | 0 <= i < |ins| && 0 <= o < |outs|
        ensures Crossing(f, Key(ins[i], outs[o])) && Crossing(f, Key(outs[o], ins[i]))
      {
        PartsCross(f, q, i, o);
      }
    }
    CutOfPairsCrosses(f, ins, outs);
  }

  /** The same triangles wound along `outward`. */
  ghost function OrientAll(f: Field, ts: seq<Triangle>, outward: Vec): (us: seq<Triangle>)
    requires f.Valid() && AllCross(f, ts)
    ensures |us| == |ts|
  {
    seq(|ts|, i requires 0 <= i < |ts| => Oriented(f, ts[i], outward))
  }

  ghost predicate SameSides(ts: seq<Triangle>, us: seq<Triangle>, e: Edge, g: Edge) {
    |ts| == |us| && forall i | 0 <= i < |ts| :: HasSide(us[i], e, g) <==> HasSide(ts[i], e, g)
  }

  lemma {:induction false} SameSidesCount(ts: seq<Triangle>, us: seq<Triangle>, e: Edge, g: Edge)
    requires SameSides(ts, us, e, g)
    ensures Sides(ts, e, g) == Sides(us, e, g)
  {
    if ts != [] {
      SameSidesCount(ts[..|ts| - 1], us[..|us| - 1], e, g);
    }
  }

  lemma OrientAllSides(f: Field, ts: seq<Triangle>, outward: Vec, e: Edge, g: Edge)
    requires f.Valid() && AllCross(f, ts)
    ensures Sides(OrientAll(f, ts, outward), e, g) == Sides(ts, e, g)
    ensures AllCross(f, OrientAll(f, ts, outward))
  {
    SameSidesCount(ts, OrientAll(f, ts, outward), e, g);
  }

  /** The faces that one tetrahedron contributes, in order and oriented from low to high values. */
  ghost function Patch(f: Field, t: Tetrahedron): seq<Triangle>
    requires f.Valid() && f.extents.HasTetrahedron(t)
  {
    var q := CornerOffsets(f, t);
    var ins, outs := Below(f, q), NotBelow(f, q);
    CutCrosses(f, q);
    if ins == [] || outs == [] then [] else
      OrientAll(f, Cut(ins, outs), Sub(Mean(f, outs), Mean(f, ins)))
  }

  lemma {:induction false} PartsDistinct(f: Field, q: seq<nat>)
    requires f.Covers(q) && Distinct(q)
    ensures Distinct(Below(f, q)) && Distinct(NotBelow(f, q))
  {
    if q != [] {
      var n := |q| - 1;
      PartsDistinct(f, q[..n]);
      PartsMembers(f, q[..n], q[n]);
    }
  }

  /** Offsets `i` and `i'` are below the iso-value, `o` and `o'` are not, and the edges differ. */
  ghost predicate TwoCrossings(f: Field, i: nat, o: nat, i': nat, o': nat) {
    && i < |f.values| && i' < |f.values| && o < |f.values| && o' < |f.values|
    && f.Low(i) && f.Low(i') && !f.Low(o) && !f.Low(o') && (i != i' || o != o')
  }

  ghost predicate ContainsEnds(f: Field, t: Tetrahedron, i: nat, o: nat, i': nat, o': nat)
    requires f.Valid() && TwoCrossings(f, i, o, i', o')
  {
    && Contains(t, f.PointAt(i)) && Contains(t, f.PointAt(o))
    && Contains(t, f.PointAt(i')) && Contains(t, f.PointAt(o'))
  }

  lemma CornerSides(f: Field, q: seq<nat>, i: nat, o: nat, i': nat, o': nat)
    requires |q| == 4 && f.Covers(q) && Distinct(q) && TwoCrossings(f, i, o, i', o')
    ensures var n := Sides(Cut(Below(f, q), NotBelow(f, q)), Key(i, o), Key(i', o'));
            if !(i in q && o in q && i' in q && o' in q) then n == 0
            else if i == i' || o == o' then n == 1
            else n == 0 || n == 2
  {
    var ins, outs := Below(f, q), NotBelow(f, q);
    PartsDistinct(f, q);
    forall x: nat
      ensures x in ins <==> x in q && f.Low(x)
      ensures x in outs <==> x in q && !f.Low(x)
    {
      PartsMembers(f, q, x);
    }
    CutSides(ins, outs, i, o, i', o');
  }

  /** How often one tetrahedron contributes a side: the rule that closedness rests on. */
  ghost predicate CutsLike(f: Field, t: Tetrahedron, ts: seq<Triangle>)
    requires f.Valid()
  {
    && AllCross(f, ts)
    && forall i, o, i', o' | TwoCrossings(f, i, o, i', o') ::
         var n := Sides(ts, Key(i, o), Key(i', o'));
         if !ContainsEnds(f, t, i, o, i', o') then n == 0
         else if i == i' || o == o' then n == 1
         else n == 0 || n == 2
  }

  lemma PatchCutsLike(f: Field, t: Tetrahedron)
    requires f.Valid() && f.extents.HasTetrahedron(t)
    ensures CutsLike(f, t, Patch(f, t))
  {
    var q := CornerOffsets(f, t);
    PatchIsCut(f, t);
    forall i, o, i', o' | TwoCrossings(f, i, o, i', o')
      ensures var n := Sides(Patch(f, t), Key(i, o), Key(i', o'));
              if !ContainsEnds(f, t, i, o, i', o') then n == 0
              else if i == i' || o == o' then n == 1
              else n == 0 || n == 2
    {
      CornersAreContained(f, t, i);
      CornersAreContained(f, t, o);
      CornersAreContained(f, t, i');
      CornersAreContained(f, t, o');
      CornerSides(f, q, i, o, i', o');
      assert Sides(Patch(f, t), Key(i, o), Key(i', o')) ==
             Sides(Cut(Below(f, q), NotBelow(f, q)), Key(i, o), Key(i', o'));
    }
  }

  lemma PatchIsCut(f: Field, t: Tetrahedron)
    requires f.Valid() && f.extents.HasTetrahedron(t)
    ensures AllCross(f, Patch(f, t))
    ensures var q := CornerOffsets(f, t);
            forall e, g :: Sides(Patch(f, t), e, g) == Sides(Cut(Below(f, q), NotBelow(f, q)), e, g)
  {
    var q := CornerOffsets(f, t);
    var ins, outs := Below(f, q), NotBelow(f, q);
    CutCrosses(f, q);
    if ins != [] && outs != [] {
      forall e, g ensures Sides(Patch(f, t), e, g) == Sides(Cut(ins, outs), e, g) {
        OrientAllSides(f, Cut(ins, outs), Sub(Mean(f, outs), Mean(f, ins)), e, g);
      }
      OrientAllSides(f, Cut(ins, outs), Sub(Mean(f, outs), Mean(f, ins)), Edge(0, 0), Edge(0, 0));
    }
  }

  // ----- the tetrahedra of the volume in loop order

  /** Extents of the loop nest: tetrahedron fastest, then row, column and page of the cube. */
  function LoopDims(e: Extents): seq<nat>
    requires e.Valid()
  {
    [6, e.rows - 1, e.columns - 1, e.pages - 1]
  }

  function TetrahedronAt(e: Extents, n: nat): (t: Tetrahedron)
    requires e.Valid() && n < Product(LoopDims(e))
    ensures e.HasTetrahedron(t)
  {
    EncodeDecode(n, LoopDims(e));
    var c := Decode(n, LoopDims(e));
    Tetrahedron(Point(c[1], c[2], c[3]), c[0])
  }

  function NumberOf(e: Extents, t: Tetrahedron): (n: nat)
    requires e.Valid() && e.HasTetrahedron(t)
    ensures n < Product(LoopDims(e)) && TetrahedronAt(e, n) == t
  {
    var c := [t.kind, t.cube.row, t.cube.column, t.cube.page];
    EncodeBound(c, LoopDims(e));
    DecodeEncode(c, LoopDims(e));
    Encode(c, LoopDims(e))
  }

  lemma NumberOfTetrahedronAt(e: Extents, n: nat)
    requires e.Valid() && n < Product(LoopDims(e))
    ensures NumberOf(e, TetrahedronAt(e, n)) == n
  {
    EncodeDecode(n, LoopDims(e));
    var c := Decode(n, LoopDims(e));
    assert c == [c[0], c[1], c[2], c[3]];
  }

  /** Every tetrahedron of the volume in loop order. */
  ghost function AllTetrahedra(e: Extents): (ts: seq<Tetrahedron>)
    requires e.Valid()
    ensures |ts| == Product(LoopDims(e))
    ensures forall n | 0 <= n < |ts| :: ts[n] == TetrahedronAt(e, n)
  {
    seq(Product(LoopDims(e)), n requires 0 <= n < Product(LoopDims(e)) => TetrahedronAt(e, n))
  }

  /** The list holds each tetrahedron of the volume once. */
  ghost predicate Enumerates(e: Extents, ts: seq<Tetrahedron>) {
    && (forall k | 0 <= k < |ts| :: e.HasTetrahedron(ts[k]))
    && (forall t | e.HasTetrahedron(t) :: t in ts)
    && (forall j, k | 0 <= j < k < |ts| :: ts[j] != ts[k])
  }

  lemma AllTetrahedraEnumerates(e: Extents)
    requires e.Valid()
    ensures Enumerates(e, AllTetrahedra(e))
  {
    var ts := AllTetrahedra(e);
    forall t | e.HasTetrahedron(t) ensures t in ts {
      assert ts[NumberOf(e, t)] == t;
    }
    forall j, k | 0 <= j < k < |ts| ensures ts[j] != ts[k] {
      NumberOfTetrahedronAt(e, j);
      NumberOfTetrahedronAt(e, k);
    }
  }

  ghost function Flatten(parts: seq<seq<Triangle>>): seq<Triangle> {
    if parts == [] then [] else
      var n := |parts| - 1;
      Flatten(parts[..n]) + parts[n]
  }

  /** The contribution of each listed tetrahedron. */
  ghost function Patches(f: Field, ts: seq<Tetrahedron>): (parts: seq<seq<Triangle>>)
    requires f.Valid() && forall k | 0 <= k < |ts| :: f.extents.HasTetrahedron(ts[k])
    ensures |parts| == |ts|
    ensures forall k | 0 <= k < |ts| :: parts[k] == Patch(f, ts[k])
  {
    seq(|ts|, k requires 0 <= k < |ts| => Patch(f, ts[k]))
  }

  /** Every triangle of the surface before the near-zero-area drop. */
  ghost function Surface(f: Field): seq<Triangle>
    requires f.Valid()
  {
    AllTetrahedraEnumerates(f.extents);
    Flatten(Patches(f, AllTetrahedra(f.extents)))
  }
}
