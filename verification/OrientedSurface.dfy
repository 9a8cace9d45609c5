/**
 The extracted surface is consistently oriented.

 Two visible triangles that share a side run along it in opposite directions exactly when the tetrahedra on
 the two sides of each face that such triangles cross lean opposite ways: by the volume their corners span,
 or, for a flat tetrahedron, by the order in which the extractor lists its corners.  The cut of a tetrahedron
 enters by `CutLeans` and `CutOnce`, the positions only by the way in which corners turn.
 */
module OrientedSurface {
  import opened MixedRadix
  import opened Tetrahedra
  import opened Isosurface
  import opened Sealing
  import opened Surfaces
  import opened IsoMeshes
  import opened ClosedSurface
  import opened Determinants
  import opened Winding
  import opened DirectedCuts

  // ----- how the triangles of a field are wound

  /** `turn` is the turn of the field's corners; looked into only where `Unseal` is mentioned. */
  ghost predicate IsTurn(f: Field, turn: Turning)
    requires f.Valid()
  {
    forall n {:trigger Unseal(n)} :: Unseal(n) ==>
      forall a, b, c, d {:trigger Turn(f, a, b, c, d)} | HasCorners(f, a, b, c, d) :: turn(a, b, c, d) == Turn(f, a, b, c, d)
  }

  lemma TurningExists(f: Field) returns (turn: Turning)
    requires f.Valid()
    ensures IsTurn(f, turn) && Alternates(turn)
  {
    turn := (a: nat, b: nat, c: nat, d: nat) => if HasCorners(f, a, b, c, d) then Turn(f, a, b, c, d) else 0.0;
    forall a: nat, b: nat, c: nat, d: nat ensures AlternatesAt(turn, a, b, c, d) {
      if HasCorners(f, a, b, c, d) {
        TurnAlternates(f, a, b, c, d);
      }
    }
  }

  lemma TurnIs(f: Field, turn: Turning, a: nat, b: nat, c: nat, d: nat)
    requires f.Valid() && IsTurn(f, turn) && HasCorners(f, a, b, c, d)
    ensures turn(a, b, c, d) == Turn(f, a, b, c, d)
  {
    assert Unseal(0);
  }

  /** The corners of a field on the two sides of the iso-value. */
  ghost predicate Divides(f: Field, ins: seq<nat>, outs: seq<nat>) {
    && Splits(ins, outs) && f.Covers(ins) && f.Covers(outs)
    && (forall k | 0 <= k < |ins| :: f.Low(ins[k])) && (forall k | 0 <= k < |outs| :: !f.Low(outs[k]))
  }

  /** Every visible triangle of a cut is wound by the same turn. */
  ghost predicate WindsAlike(f: Field, turn: Turning, ins: seq<nat>, outs: seq<nat>)
    requires f.Valid()
  {
    && f.Covers(ins) && f.Covers(outs) && ins != [] && outs != []
    && forall k | 0 <= k < |Cut(ins, outs)| ::
         Crosses(f, Cut(ins, outs)[k]) && Winds(f, Cut(ins, outs)[k], Outward(f, ins, outs), Handed(turn, ins, outs))
  }

  lemma OneInsideWinds(f: Field, turn: Turning, a: nat, b: nat, c: nat, d: nat)
    requires f.Valid() && IsTurn(f, turn) && HasCorners(f, a, b, c, d) && f.Low(a) && !f.Low(b) && !f.Low(c) && !f.Low(d)
    ensures WindsAlike(f, turn, [a], [b, c, d])
  {
    InsideCorner(f, a, b, c, d);
    TurnIs(f, turn, a, b, c, d);
  }

  lemma OneOutsideWinds(f: Field, turn: Turning, a: nat, b: nat, c: nat, d: nat)
    requires f.Valid() && IsTurn(f, turn) && HasCorners(f, a, b, c, d) && !f.Low(a) && f.Low(b) && f.Low(c) && f.Low(d)
    ensures WindsAlike(f, turn, [b, c, d], [a])
  {
    OutsideCorner(f, a, b, c, d);
    TurnIs(f, turn, a, b, c, d);
  }

  lemma TwoInsideWind(f: Field, turn: Turning, a: nat, b: nat, c: nat, d: nat)
    requires f.Valid() && IsTurn(f, turn) && HasCorners(f, a, b, c, d) && f.Low(a) && f.Low(b) && !f.Low(c) && !f.Low(d)
    ensures WindsAlike(f, turn, [a, b], [c, d])
  {
    InsideEdge(f, a, b, c, d);
    TurnIs(f, turn, a, b, c, d);
  }

  lemma CutWinds(f: Field, turn: Turning, ins: seq<nat>, outs: seq<nat>)
    requires f.Valid() && IsTurn(f, turn) && Divides(f, ins, outs) && ins != [] && outs != []
    ensures WindsAlike(f, turn, ins, outs)
  {
    if |ins| == 1 {
      assert [ins[0]] == ins && [outs[0], outs[1], outs[2]] == outs;
      OneInsideWinds(f, turn, ins[0], outs[0], outs[1], outs[2]);
    } else if |ins| == 3 {
      assert [outs[0]] == outs && [ins[0], ins[1], ins[2]] == ins;
      OneOutsideWinds(f, turn, outs[0], ins[0], ins[1], ins[2]);
    } else {
      assert [ins[0], ins[1]] == ins && [outs[0], outs[1]] == outs;
      TwoInsideWind(f, turn, ins[0], ins[1], outs[0], outs[1]);
    }
  }

  // ----- the triangles of one tetrahedron

  lemma PartsDivide(f: Field, t: Tetrahedron)
    requires f.Valid() && f.extents.HasTetrahedron(t)
    ensures var q := CornerOffsets(f, t); Divides(f, Below(f, q), NotBelow(f, q))
  {
    var q := CornerOffsets(f, t);
    CornersAreContained(f, t, 0);
    PartsDistinct(f, q);
    forall k | 0 <= k < |Below(f, q)| ensures f.Low(Below(f, q)[k]) {
      PartsMembers(f, q, Below(f, q)[k]);
    }
    forall k | 0 <= k < |NotBelow(f, q)| ensures !f.Low(NotBelow(f, q)[k]) {
      PartsMembers(f, q, NotBelow(f, q)[k]);
    }
  }

  /** Which triangles are seen, by its values alone; looked into only where `Unseal` is mentioned. */
  ghost predicate IsSeen(f: Field, seen: Triangle -> bool)
    requires f.Valid()
  {
    forall n {:trigger Unseal(n)} :: Unseal(n) ==>
      forall t {:trigger Crosses(f, t)} :: seen(t) <==> Crosses(f, t) && Visible(f, t)
  }

  /** The triangles that the extractor keeps. */
  ghost function Sees(f: Field): Triangle -> bool
    requires f.Valid()
  {
    t => Crosses(f, t) && Visible(f, t)
  }

  lemma SeesIsSeen(f: Field)
    requires f.Valid()
    ensures IsSeen(f, Sees(f))
  {
  }

  lemma SeenIs(f: Field, seen: Triangle -> bool, t: Triangle)
    requires f.Valid() && IsSeen(f, seen)
    ensures seen(t) <==> Crosses(f, t) && Visible(f, t)
  {
    assert Unseal(0);
    assert Crosses(f, t) || !Crosses(f, t);
  }

  /** Triangle `u`, if seen, is triangle `t` as the hand says. */
  ghost predicate WoundBy(seen: Triangle -> bool, t: Triangle, u: Triangle, hand: real) {
    seen(u) ==> u == if hand < 0.0 then Swapped(t) else t
  }

  lemma WoundBack(f: Field, seen: Triangle -> bool, t: Triangle, u: Triangle, w: Vec, hand: real)
    requires f.Valid() && IsSeen(f, seen) && Crosses(f, t) && Winds(f, t, w, hand) && u == Oriented(f, t, w)
    ensures WoundBy(seen, t, u, hand)
  {
    SeenIs(f, seen, u);
    assert Unseal(0);
    VisibleSwapped(f, t);
  }

  /** The visible triangles of a tetrahedron are those of the cut, all turned around or none. */
  lemma PatchWinds(f: Field, turn: Turning, seen: Triangle -> bool, t: Tetrahedron) returns (ins: seq<nat>, outs: seq<nat>)
    requires f.Valid() && IsTurn(f, turn) && IsSeen(f, seen) && f.extents.HasTetrahedron(t)
    ensures ins == Below(f, CornerOffsets(f, t)) && outs == NotBelow(f, CornerOffsets(f, t)) && Divides(f, ins, outs)
    ensures |Patch(f, t)| == |Cut(ins, outs)|
    ensures forall k | 0 <= k < |Patch(f, t)| :: WoundBy(seen, Cut(ins, outs)[k], Patch(f, t)[k], Handed(turn, ins, outs))
  {
    ins, outs := Below(f, CornerOffsets(f, t)), NotBelow(f, CornerOffsets(f, t));
    PartsDivide(f, t);
    if ins != [] && outs != [] {
      CutWinds(f, turn, ins, outs);
      forall k | 0 <= k < |Patch(f, t)| ensures WoundBy(seen, Cut(ins, outs)[k], Patch(f, t)[k], Handed(turn, ins, outs)) {
        WoundBack(f, seen, Cut(ins, outs)[k], Patch(f, t)[k], Outward(f, ins, outs), Handed(turn, ins, outs));
      }
    }
  }

  /** `t` is seen and runs from `e` to `g`. */
  ghost predicate Runs(seen: Triangle -> bool, t: Triangle, e: Edge, g: Edge) {
    seen(t) && Directed(t, e, g)
  }

  // ----- which way a tetrahedron leans

  /** The corners of a tetrahedron as the extractor lists them: those below the iso-value first. */
  ghost function Listing(f: Field, t: Tetrahedron): seq<nat>
    requires f.Valid() && f.extents.HasTetrahedron(t)
  {
    Below(f, CornerOffsets(f, t)) + NotBelow(f, CornerOffsets(f, t))
  }

  /** Where a corner is when the listed ones are those of a unit tetrahedron. */
  function UnitSpot(q: seq<nat>, a: nat): Vec
    requires |q| == 4
  {
    if a == q[0] then Vec(0.0, 0.0, 0.0) else if a == q[1] then Vec(1.0, 0.0, 0.0)
    else if a == q[2] then Vec(0.0, 1.0, 0.0) else Vec(0.0, 0.0, 1.0)
  }

  function ListedTurn(q: seq<nat>, a: nat, b: nat, c: nat, d: nat): real
    requires |q| == 4
  {
    TurnOf(UnitSpot(q, a), UnitSpot(q, b), UnitSpot(q, c), UnitSpot(q, d))
  }

  ghost predicate Covers4(f: Field, q: seq<nat>) {
    |q| == 4 && Distinct(q) && HasCorners(f, q[0], q[1], q[2], q[3])
  }

  lemma ListingCovers(f: Field, t: Tetrahedron)
    requires f.Valid() && f.extents.HasTetrahedron(t)
    ensures Covers4(f, Listing(f, t))
    ensures forall o: nat :: o in Listing(f, t) <==> HasCorner(f, t, o)
  {
    PartsDivide(f, t);
    var q := CornerOffsets(f, t);
    var ins, outs := Below(f, q), NotBelow(f, q);
    assert forall k | 0 <= k < 4 :: Listing(f, t)[k] == if k < |ins| then ins[k] else outs[k - |ins|];
    forall o: nat ensures o in Listing(f, t) <==> HasCorner(f, t, o) {
      PartsMembers(f, q, o);
      assert o in Listing(f, t) <==> o in ins || o in outs;
      if o < |f.values| {
        CornersAreContained(f, t, o);
      }
    }
  }

  /** The corners of the tetrahedron are in one plane. */
  ghost predicate IsFlat(f: Field, t: Tetrahedron)
    requires f.Valid() && f.extents.HasTetrahedron(t)
  {
    ListingCovers(f, t);
    var q := Listing(f, t);
    Turn(f, q[0], q[1], q[2], q[3]) == 0.0
  }

  /** Which way corners of a tetrahedron turn: by the volume they span, or as listed if it has none. */
  ghost function Lean(f: Field, t: Tetrahedron, a: nat, b: nat, c: nat, d: nat): real
    requires f.Valid() && f.extents.HasTetrahedron(t) && HasCorners(f, a, b, c, d)
  {
    ListingCovers(f, t);
    if IsFlat(f, t) then ListedTurn(Listing(f, t), a, b, c, d) else Turn(f, a, b, c, d)
  }

  /** `turn` is the lean of the tetrahedron's corners; looked into only where `Unseal` is mentioned. */
  ghost predicate IsLean(f: Field, t: Tetrahedron, turn: Turning)
    requires f.Valid() && f.extents.HasTetrahedron(t)
  {
    forall n {:trigger Unseal(n)} :: Unseal(n) ==>
      forall a, b, c, d {:trigger Lean(f, t, a, b, c, d)} | HasCorners(f, a, b, c, d) :: turn(a, b, c, d) == Lean(f, t, a, b, c, d)
  }

  lemma LeanIs(f: Field, t: Tetrahedron, turn: Turning, a: nat, b: nat, c: nat, d: nat)
    requires f.Valid() && f.extents.HasTetrahedron(t) && IsLean(f, t, turn) && HasCorners(f, a, b, c, d)
    ensures turn(a, b, c, d) == Lean(f, t, a, b, c, d)
  {
    assert Unseal(0);
  }

  /** The deciding turn is that of the corners as listed. */
  lemma HandedIsListed(turn: Turning, ins: seq<nat>, outs: seq<nat>, q: seq<nat>)
    requires Alternates(turn) && Splits(ins, outs) && ins != [] && outs != [] && q == ins + outs
    ensures Handed(turn, ins, outs) == turn(q[0], q[1], q[2], q[3])
  {
    if |ins| == 3 {
      var a, b, c, d := ins[0], ins[1], ins[2], outs[0];
      assert AlternatesAt(turn, a, b, c, d) && AlternatesAt(turn, a, b, d, c) && AlternatesAt(turn, a, d, b, c);
    }
  }

  lemma ListedSwaps(q: seq<nat>, a: nat, b: nat, c: nat, d: nat)
    requires |q| == 4
    ensures ListedTurn(q, b, a, c, d) == ListedTurn(q, a, c, b, d) == ListedTurn(q, a, b, d, c) == 0.0 - ListedTurn(q, a, b, c, d)
  {
    TurnSwaps(UnitSpot(q, a), UnitSpot(q, b), UnitSpot(q, c), UnitSpot(q, d));
  }

  lemma UnitTurnIsOne(o: Vec, i: Vec, j: Vec, k: Vec)
    requires o == Vec(0.0, 0.0, 0.0) && i == Vec(1.0, 0.0, 0.0) && j == Vec(0.0, 1.0, 0.0) && k == Vec(0.0, 0.0, 1.0)
    ensures TurnOf(o, i, j, k) == 1.0
  {
    Determinant(Sub(i, o), Sub(j, o), Sub(k, o));
  }

  lemma UnitSpots(q: seq<nat>)
    requires |q| == 4 && Distinct(q)
    ensures UnitSpot(q, q[0]) == Vec(0.0, 0.0, 0.0) && UnitSpot(q, q[1]) == Vec(1.0, 0.0, 0.0)
    ensures UnitSpot(q, q[2]) == Vec(0.0, 1.0, 0.0) && UnitSpot(q, q[3]) == Vec(0.0, 0.0, 1.0)
  {
    assert q[0] != q[1] && q[0] != q[2] && q[0] != q[3] && q[1] != q[2] && q[1] != q[3] && q[2] != q[3];
  }

  lemma ListedUnit(q: seq<nat>, o: Vec, i: Vec, j: Vec, k: Vec)
    requires |q| == 4 && o == UnitSpot(q, q[0]) && i == UnitSpot(q, q[1]) && j == UnitSpot(q, q[2]) && k == UnitSpot(q, q[3])
    ensures ListedTurn(q, q[0], q[1], q[2], q[3]) == TurnOf(o, i, j, k)
  {
  }

  lemma ListedIsOne(q: seq<nat>)
    requires |q| == 4 && Distinct(q)
    ensures ListedTurn(q, q[0], q[1], q[2], q[3]) == 1.0
  {
    UnitSpots(q);
    var o, i, j, k := Vec(0.0, 0.0, 0.0), Vec(1.0, 0.0, 0.0), Vec(0.0, 1.0, 0.0), Vec(0.0, 0.0, 1.0);
    ListedUnit(q, o, i, j, k);
    UnitTurnIsOne(o, i, j, k);
  }

  lemma ListedTurns(q: seq<nat>) returns (turn: Turning)
    requires |q| == 4
    ensures Alternates(turn)
    ensures forall a, b, c, d :: turn(a, b, c, d) == ListedTurn(q, a, b, c, d)
  {
    turn := (a: nat, b: nat, c: nat, d: nat) => ListedTurn(q, a, b, c, d);
    forall a: nat, b: nat, c: nat, d: nat ensures AlternatesAt(turn, a, b, c, d) {
      ListedSwaps(q, a, b, c, d);
    }
  }

  /** Every visible triangle of the tetrahedron is wound by `turn`. */
  ghost predicate WoundAll(f: Field, t: Tetrahedron, seen: Triangle -> bool, turn: Turning)
    requires f.Valid() && f.extents.HasTetrahedron(t)
  {
    var ins, outs := Below(f, CornerOffsets(f, t)), NotBelow(f, CornerOffsets(f, t));
    && Divides(f, ins, outs) && |Patch(f, t)| == |Cut(ins, outs)|
    && (Cut(ins, outs) != [] ==> Handed(turn, ins, outs) != 0.0)
    && forall k | 0 <= k < |Patch(f, t)| :: WoundBy(seen, Cut(ins, outs)[k], Patch(f, t)[k], Handed(turn, ins, outs))
  }

  /** The visible triangles of any tetrahedron, flat or not, are wound by its lean, which is never zero. */
  lemma LeanExists(f: Field, t: Tetrahedron, seen: Triangle -> bool) returns (turn: Turning)
    requires f.Valid() && IsSeen(f, seen) && f.extents.HasTetrahedron(t)
    ensures Alternates(turn) && IsLean(f, t, turn) && WoundAll(f, t, seen, turn)
  {
    var spanned := TurningExists(f);
    var ins, outs := PatchWinds(f, spanned, seen, t);
    if IsFlat(f, t) {
      turn := FlatLean(f, t, seen, spanned, ins, outs);
    } else {
      turn := spanned;
      SpannedIsLean(f, t, turn);
      HandIsTurn(f, t, turn, ins, outs);
    }
  }

  /** Wound by the turn of the corners as listed. */
  lemma HandIsTurn(f: Field, t: Tetrahedron, turn: Turning, ins: seq<nat>, outs: seq<nat>)
    requires f.Valid() && f.extents.HasTetrahedron(t) && IsTurn(f, turn) && Alternates(turn)
    requires ins == Below(f, CornerOffsets(f, t)) && outs == NotBelow(f, CornerOffsets(f, t)) && Splits(ins, outs)
    ensures Cut(ins, outs) != [] ==> (Handed(turn, ins, outs) == 0.0 <==> IsFlat(f, t))
  {
    var q := Listing(f, t);
    ListingCovers(f, t);
    TurnIs(f, turn, q[0], q[1], q[2], q[3]);
    if Cut(ins, outs) != [] {
      HandedIsListed(turn, ins, outs, q);
    }
  }

  /** A flat tetrahedron is never turned around, so its triangles are as listed. */
  lemma FlatLean(f: Field, t: Tetrahedron, seen: Triangle -> bool, spanned: Turning, ins: seq<nat>, outs: seq<nat>) returns (turn: Turning)
    requires f.Valid() && f.extents.HasTetrahedron(t) && IsTurn(f, spanned) && Alternates(spanned) && IsFlat(f, t)
    requires ins == Below(f, CornerOffsets(f, t)) && outs == NotBelow(f, CornerOffsets(f, t)) && Divides(f, ins, outs)
    requires |Patch(f, t)| == |Cut(ins, outs)|
    requires forall k | 0 <= k < |Patch(f, t)| :: WoundBy(seen, Cut(ins, outs)[k], Patch(f, t)[k], Handed(spanned, ins, outs))
    ensures Alternates(turn) && IsLean(f, t, turn) && WoundAll(f, t, seen, turn)
  {
    ListingCovers(f, t);
    turn := ListedTurns(Listing(f, t));
    ListedIsLean(f, t, turn);
    HandIsTurn(f, t, spanned, ins, outs);
    ListedHand(turn, ins, outs, Listing(f, t));
    Rewound(f, t, seen, turn, ins, outs, Handed(spanned, ins, outs));
  }

  lemma ListedTurnsOne(turn: Turning, q: seq<nat>)
    requires |q| == 4 && Distinct(q) && forall a, b, c, d :: turn(a, b, c, d) == ListedTurn(q, a, b, c, d)
    ensures turn(q[0], q[1], q[2], q[3]) == 1.0
  {
    ListedIsOne(q);
  }

  lemma ListedHand(turn: Turning, ins: seq<nat>, outs: seq<nat>, q: seq<nat>)
    requires Alternates(turn) && Splits(ins, outs) && q == ins + outs && Distinct(q)
    requires forall a, b, c, d :: turn(a, b, c, d) == ListedTurn(q, a, b, c, d)
    ensures Cut(ins, outs) != [] ==> Handed(turn, ins, outs) == 1.0
  {
    ListedTurnsOne(turn, q);
    HandOfOne(turn, ins, outs, q);
  }

  lemma HandOfOne(turn: Turning, ins: seq<nat>, outs: seq<nat>, q: seq<nat>)
    requires Alternates(turn) && Splits(ins, outs) && q == ins + outs && Distinct(q)
    requires turn(q[0], q[1], q[2], q[3]) == 1.0
    ensures Cut(ins, outs) != [] ==> Handed(turn, ins, outs) == 1.0
  {
    if Cut(ins, outs) != [] {
      HandedIsListed(turn, ins, outs, q);
    }
  }

  /** Triangles that are not turned around are wound by any positive turn. */
  lemma Rewound(f: Field, t: Tetrahedron, seen: Triangle -> bool, turn: Turning, ins: seq<nat>, outs: seq<nat>, hand: real)
    requires f.Valid() && f.extents.HasTetrahedron(t)
    requires ins == Below(f, CornerOffsets(f, t)) && outs == NotBelow(f, CornerOffsets(f, t)) && Divides(f, ins, outs)
    requires |Patch(f, t)| == |Cut(ins, outs)| && (Cut(ins, outs) != [] ==> hand == 0.0 < Handed(turn, ins, outs))
    requires forall k | 0 <= k < |Patch(f, t)| :: WoundBy(seen, Cut(ins, outs)[k], Patch(f, t)[k], hand)
    ensures WoundAll(f, t, seen, turn)
  {
    forall k | 0 <= k < |Patch(f, t)| ensures WoundBy(seen, Cut(ins, outs)[k], Patch(f, t)[k], Handed(turn, ins, outs)) {
      assert WoundBy(seen, Cut(ins, outs)[k], Patch(f, t)[k], hand);
    }
  }

  lemma ListedIsLean(f: Field, t: Tetrahedron, turn: Turning)
    requires f.Valid() && f.extents.HasTetrahedron(t) && IsFlat(f, t) && |Listing(f, t)| == 4
    requires forall a, b, c, d :: turn(a, b, c, d) == ListedTurn(Listing(f, t), a, b, c, d)
    ensures IsLean(f, t, turn)
  {
  }

  lemma SpannedIsLean(f: Field, t: Tetrahedron, turn: Turning)
    requires f.Valid() && f.extents.HasTetrahedron(t) && IsTurn(f, turn) && !IsFlat(f, t)
    ensures IsLean(f, t, turn)
  {
    forall a, b, c, d | HasCorners(f, a, b, c, d) ensures turn(a, b, c, d) == Lean(f, t, a, b, c, d) {
      TurnIs(f, turn, a, b, c, d);
    }
  }

  /** Corners that span a volume lean as they turn. */
  lemma LeanIsTurn(f: Field, t: Tetrahedron, a: nat, b: nat, c: nat, x: nat)
    requires f.Valid() && f.extents.HasTetrahedron(t)
    requires HasCorner(f, t, a) && HasCorner(f, t, b) && HasCorner(f, t, c) && HasCorner(f, t, x)
    requires a != b && a != c && b != c && x != a && x != b && x != c && Turn(f, a, b, c, x) != 0.0
    ensures Lean(f, t, a, b, c, x) == Turn(f, a, b, c, x)
  {
    ListingCovers(f, t);
    SpansVolume(f, Listing(f, t), a, b, c, x);
  }

  /** Four corners span a volume in every order or in none. */
  lemma SpansVolume(f: Field, q: seq<nat>, a: nat, b: nat, c: nat, x: nat)
    requires f.Valid() && Covers4(f, q) && HasCorners(f, a, b, c, x) && a in q && b in q && c in q && x in q
    requires a != b && a != c && b != c && x != a && x != b && x != c && Turn(f, a, b, c, x) != 0.0
    ensures Turn(f, q[0], q[1], q[2], q[3]) != 0.0
  {
    var turn := TurningExists(f);
    assert q == [q[0], q[1], q[2], q[3]];
    AnyOrder(turn, q[0], q[1], q[2], q[3], a, b, c, x);
    TurnIs(f, turn, a, b, c, x);
    TurnIs(f, turn, q[0], q[1], q[2], q[3]);
  }

  /** A triangle that runs from edge `i-o` to edge `i'-o'` has this on its left. */
  ghost predicate LeansAway(turn: Turning, i: nat, o: nat, i': nat, o': nat, x: nat) {
    if i == i' then turn(i, o, o', x) > 0.0 else turn(o, i, i', x) < 0.0
  }

  lemma WoundLeans(turn: Turning, i: nat, o: nat, i': nat, o': nat, x: nat, hand: real)
    requires Alternates(turn) && (i == i' || o == o') && hand != 0.0
    requires if hand < 0.0 then Leans(turn, i', o', i, o, x, hand) else Leans(turn, i, o, i', o', x, hand)
    ensures LeansAway(turn, i, o, i', o', x)
  {
    assert AlternatesAt(turn, i, o, o', x) && AlternatesAt(turn, o, i, i', x);
  }

  /** A visible triangle of a tetrahedron leans away from the corner opposite the face its side is on. */
  lemma PatchLeans(f: Field, turn: Turning, seen: Triangle -> bool, t: Tetrahedron, u: Triangle,
                   i: nat, o: nat, i': nat, o': nat, x: nat)
    requires f.Valid() && f.extents.HasTetrahedron(t) && Alternates(turn) && WoundAll(f, t, seen, turn) && u in Patch(f, t)
    requires TwoCrossings(f, i, o, i', o') && (i == i' || o == o')
    requires HasCorner(f, t, x) && x != i && x != o && x != i' && x != o'
    requires Runs(seen, u, Key(i, o), Key(i', o'))
    ensures LeansAway(turn, i, o, i', o', x)
  {
    var ins, outs := Below(f, CornerOffsets(f, t)), NotBelow(f, CornerOffsets(f, t));
    var k :| 0 <= k < |Patch(f, t)| && Patch(f, t)[k] == u;
    var c, hand := Cut(ins, outs)[k], Handed(turn, ins, outs);
    assert WoundBy(seen, c, u, hand);
    CornersAreContained(f, t, x);
    PartsMembers(f, CornerOffsets(f, t), x);
    DirectedSide(c, Key(i, o), Key(i', o'));
    if hand < 0.0 {
      CutLeans(turn, ins, outs, k, i', o', i, o, x);
    } else {
      CutLeans(turn, ins, outs, k, i, o, i', o', x);
    }
    WoundLeans(turn, i, o, i', o', x, hand);
  }

  // ----- counting

  /** How many visible triangles run from `e` to `g`. */
  ghost function Passages(seen: Triangle -> bool, ts: seq<Triangle>, e: Edge, g: Edge): nat {
    if ts == [] then 0 else
      var n := |ts| - 1;
      Passages(seen, ts[..n], e, g) + if Runs(seen, ts[n], e, g) then 1 else 0
  }

  lemma {:induction false} PassagesConcat(seen: Triangle -> bool, s: seq<Triangle>, t: seq<Triangle>, e: Edge, g: Edge)
    ensures Passages(seen, s + t, e, g) == Passages(seen, s, e, g) + Passages(seen, t, e, g)
  {
    if t == [] {
      assert s + t == s;
    } else {
      var n := |t| - 1;
      PassagesConcat(seen, s, t[..n], e, g);
      assert (s + t)[..|s| + n] == s + t[..n];
    }
  }

  /** A side that is run along is a side. */
  lemma {:induction false} SomePassage(seen: Triangle -> bool, ts: seq<Triangle>, e: Edge, g: Edge) returns (t: Triangle)
    requires Passages(seen, ts, e, g) > 0 && e != g
    ensures t in ts && Runs(seen, t, e, g) && Sides(ts, e, g) > 0
  {
    var n := |ts| - 1;
    if Runs(seen, ts[n], e, g) {
      t := ts[n];
      DirectedSide(t, e, g);
    } else {
      t := SomePassage(seen, ts[..n], e, g);
    }
  }

  lemma PassagesOfFew(seen: Triangle -> bool, ts: seq<Triangle>, e: Edge, g: Edge)
    requires |ts| <= 2 && (|ts| == 2 ==> !(Runs(seen, ts[0], e, g) && Runs(seen, ts[1], e, g)))
    ensures Passages(seen, ts, e, g) <= 1
  {
    if |ts| == 2 {
      assert ts[..1][..0] == [] && ts[..1][0] == ts[0];
    } else if |ts| == 1 {
      assert ts[..0] == [];
    }
  }

  /** No directed side belongs to two visible triangles of one tetrahedron. */
  lemma PatchOnce(f: Field, turn: Turning, seen: Triangle -> bool, t: Tetrahedron, e: Edge, g: Edge)
    requires f.Valid() && IsTurn(f, turn) && IsSeen(f, seen) && f.extents.HasTetrahedron(t) && e != g
    ensures Passages(seen, Patch(f, t), e, g) <= 1
  {
    var ins, outs := PatchWinds(f, turn, seen, t);
    if |Cut(ins, outs)| == 2 {
      CutOnce(ins, outs, e, g);
      CutOnce(ins, outs, g, e);
    }
    WoundOnce(seen, Cut(ins, outs), Patch(f, t), Handed(turn, ins, outs), e, g);
  }

  lemma WoundOnce(seen: Triangle -> bool, ts: seq<Triangle>, us: seq<Triangle>, hand: real, e: Edge, g: Edge)
    requires |us| == |ts| <= 2 && forall k | 0 <= k < |us| :: WoundBy(seen, ts[k], us[k], hand)
    requires |ts| == 2 ==> !(Directed(ts[0], e, g) && Directed(ts[1], e, g)) && !(Directed(ts[0], g, e) && Directed(ts[1], g, e))
    ensures Passages(seen, us, e, g) <= 1
  {
    if |us| == 2 {
      DirectedSide(ts[0], e, g);
      DirectedSide(ts[1], e, g);
    }
    PassagesOfFew(seen, us, e, g);
  }

  /** Each part has at most one passage and no two parts have one. */
  ghost predicate Separate(seen: Triangle -> bool, parts: seq<seq<Triangle>>, e: Edge, g: Edge) {
    && (forall k | 0 <= k < |parts| :: Passages(seen, parts[k], e, g) <= 1)
    && (forall j, k | 0 <= j < k < |parts| :: Passages(seen, parts[j], e, g) == 0 || Passages(seen, parts[k], e, g) == 0)
  }

  lemma {:induction false} SeparateCount(seen: Triangle -> bool, parts: seq<seq<Triangle>>, e: Edge, g: Edge)
    requires Separate(seen, parts, e, g)
    ensures Passages(seen, Flatten(parts), e, g) <= 1
    ensures (forall k | 0 <= k < |parts| :: Passages(seen, parts[k], e, g) == 0) ==> Passages(seen, Flatten(parts), e, g) == 0
  {
    if parts != [] {
      var n := |parts| - 1;
      SeparateCount(seen, parts[..n], e, g);
      PassagesConcat(seen, Flatten(parts[..n]), parts[n], e, g);
    }
  }

  // ----- tetrahedra that share a face

  /** Corners `x` and `y` are on opposite sides of the plane through the other three. */
  predicate OppositeSides(f: Field, a: nat, b: nat, c: nat, x: nat, y: nat)
    requires f.Valid() && HasCorners(f, a, b, c, x) && y < |f.values|
  {
    Turn(f, a, b, c, x) < 0.0 < Turn(f, a, b, c, y) || Turn(f, a, b, c, y) < 0.0 < Turn(f, a, b, c, x)
  }

  predicate HasCorner(f: Field, t: Tetrahedron, o: nat)
    requires f.Valid()
  {
    o < |f.values| && Contains(t, f.PointAt(o))
  }

  /** Two tetrahedra of the volume with a common face and the corners opposite it. */
  predicate ShareFace(f: Field, t: Tetrahedron, u: Tetrahedron, a: nat, b: nat, c: nat, x: nat, y: nat)
    requires f.Valid()
  {
    && f.extents.HasTetrahedron(t) && f.extents.HasTetrahedron(u) && t != u
    && HasCorner(f, t, a) && HasCorner(f, t, b) && HasCorner(f, t, c) && HasCorner(f, t, x)
    && HasCorner(f, u, a) && HasCorner(f, u, b) && HasCorner(f, u, c) && HasCorner(f, u, y)
    && a != b && a != c && b != c && x != a && x != b && x != c && y != a && y != b && y != c
  }

  /** The positions do not fold the grid over: tetrahedra with a common face lie on opposite sides of it. */
  ghost predicate Unfolded(f: Field)
    requires f.Valid()
  {
    forall t, u, a, b, c, x, y :: ShareFace(f, t, u, a, b, c, x, y) ==> OppositeSides(f, a, b, c, x, y)
  }

  /** The corner of a tetrahedron that is on neither of two edges of one of its faces. */
  lemma FourthOffset(f: Field, t: Tetrahedron, i: nat, o: nat, r: nat) returns (x: nat)
    requires f.Valid() && f.extents.HasTetrahedron(t) && HasCorner(f, t, i) && HasCorner(f, t, o) && HasCorner(f, t, r)
    ensures HasCorner(f, t, x) && x != i && x != o && x != r
  {
    var p := FourthCorner(t, f.PointAt(i), f.PointAt(o), f.PointAt(r));
    TableMatchesContains(t, p);
    x := f.Offset(p);
    f.PointAtOffset(p);
  }

  /** A triangle that the extractor keeps. */
  ghost predicate Shown(f: Field, t: Triangle)
    requires f.Valid()
  {
    Crosses(f, t) && Visible(f, t)
  }

  /** Which way a kept triangle with a side on a face runs is which way its tetrahedron leans. */
  lemma RunsByLean(f: Field, t: Tetrahedron, v: Triangle, i: nat, o: nat, i': nat, o': nat, x: nat)
    requires f.Valid() && f.extents.HasTetrahedron(t) && v in Patch(f, t) && Shown(f, v) && HasSide(v, Key(i, o), Key(i', o'))
    requires TwoCrossings(f, i, o, i', o') && (i == i' || o == o')
    requires HasCorner(f, t, x) && x != i && x != o && x != i' && x != o'
    ensures var s := if i == i' then Lean(f, t, i, o, o', x) else 0.0 - Lean(f, t, o, i, i', x);
            s != 0.0 && (Directed(v, Key(i, o), Key(i', o')) <==> s > 0.0)
  {
    var seen := Sees(f);
    SeesIsSeen(f);
    SeenIs(f, seen, v);
    var turn := LeanExists(f, t, seen);
    if i == i' {
      LeanIs(f, t, turn, i, o, o', x);
    } else {
      LeanIs(f, t, turn, o, i, i', x);
    }
    DirectedSide(v, Key(i, o), Key(i', o'));
    if Directed(v, Key(i, o), Key(i', o')) {
      PatchLeans(f, turn, seen, t, v, i, o, i', o', x);
    } else {
      PatchLeans(f, turn, seen, t, v, i', o', i, o, x);
      assert AlternatesAt(turn, i, o, o', x) && AlternatesAt(turn, o, i, i', x);
    }
  }

  /** The tetrahedra lean opposite ways on the face. */
  ghost predicate OppositeLeans(f: Field, t: Tetrahedron, u: Tetrahedron, a: nat, b: nat, c: nat, x: nat, y: nat)
    requires f.Valid() && f.extents.HasTetrahedron(t) && f.extents.HasTetrahedron(u)
    requires HasCorners(f, a, b, c, x) && y < |f.values|
  {
    Lean(f, t, a, b, c, x) < 0.0 < Lean(f, u, a, b, c, y) || Lean(f, u, a, b, c, y) < 0.0 < Lean(f, t, a, b, c, x)
  }

  /** Two crossing edges of one face: what they share, and the rest of the face. */
  function Apex(i: nat, o: nat, i': nat): nat {
    if i == i' then i else o
  }

  function OneEnd(i: nat, o: nat, i': nat): nat {
    if i == i' then o else i
  }

  function OtherEnd(i: nat, i': nat, o': nat): nat {
    if i == i' then o' else i'
  }

  /** Kept triangles `v` and `w` on the two sides of a face have the side from `i-o` to `i'-o'` in common. */
  ghost predicate Meet(f: Field, t: Tetrahedron, u: Tetrahedron, v: Triangle, w: Triangle,
                       i: nat, o: nat, i': nat, o': nat, x: nat, y: nat)
    requires f.Valid()
  {
    && TwoCrossings(f, i, o, i', o') && (i == i' || o == o')
    && ShareFace(f, t, u, Apex(i, o, i'), OneEnd(i, o, i'), OtherEnd(i, i', o'), x, y)
    && v in Patch(f, t) && w in Patch(f, u) && Shown(f, v) && Shown(f, w)
    && HasSide(v, Key(i, o), Key(i', o')) && HasSide(w, Key(i, o), Key(i', o'))
  }

  /**
   Two kept triangles on the two sides of a common face run along their common side in opposite directions
   if and only if the tetrahedra, flat or not, lean opposite ways.
   */
  lemma OppositeIffLeans(f: Field, t: Tetrahedron, u: Tetrahedron, v: Triangle, w: Triangle,
                         i: nat, o: nat, i': nat, o': nat, x: nat, y: nat)
    requires f.Valid() && Meet(f, t, u, v, w, i, o, i', o', x, y)
    ensures Directed(v, Key(i, o), Key(i', o')) != Directed(w, Key(i, o), Key(i', o')) <==>
            OppositeLeans(f, t, u, Apex(i, o, i'), OneEnd(i, o, i'), OtherEnd(i, i', o'), x, y)
  {
    RunsByLean(f, t, v, i, o, i', o', x);
    RunsByLean(f, u, w, i, o, i', o', y);
  }

  /** Wherever kept triangles meet across a face, the tetrahedra lean opposite ways. */
  ghost predicate Straight(f: Field)
    requires f.Valid()
  {
    forall t, u, v, w, i, o, i', o', x, y :: StraightAt(f, t, u, v, w, i, o, i', o', x, y)
  }

  ghost predicate StraightAt(f: Field, t: Tetrahedron, u: Tetrahedron, v: Triangle, w: Triangle,
                             i: nat, o: nat, i': nat, o': nat, x: nat, y: nat)
    requires f.Valid()
  {
    Meet(f, t, u, v, w, i, o, i', o', x, y) ==>
      OppositeLeans(f, t, u, Apex(i, o, i'), OneEnd(i, o, i'), OtherEnd(i, i', o'), x, y)
  }

  lemma SidesLean(f: Field, t: Tetrahedron, u: Tetrahedron, a: nat, b: nat, c: nat, x: nat, y: nat)
    requires f.Valid() && ShareFace(f, t, u, a, b, c, x, y) && OppositeSides(f, a, b, c, x, y)
    ensures OppositeLeans(f, t, u, a, b, c, x, y)
  {
    LeanIsTurn(f, t, a, b, c, x);
    LeanIsTurn(f, u, a, b, c, y);
  }

  lemma UnfoldedMeets(f: Field, t: Tetrahedron, u: Tetrahedron, v: Triangle, w: Triangle,
                      i: nat, o: nat, i': nat, o': nat, x: nat, y: nat)
    requires f.Valid() && Unfolded(f)
    ensures StraightAt(f, t, u, v, w, i, o, i', o', x, y)
  {
    if Meet(f, t, u, v, w, i, o, i', o', x, y) {
      var a, b, c := Apex(i, o, i'), OneEnd(i, o, i'), OtherEnd(i, i', o');
      assert ShareFace(f, t, u, a, b, c, x, y);
      SidesLean(f, t, u, a, b, c, x, y);
    }
  }

  /** Positions that do not fold the grid over are straight everywhere. */
  lemma UnfoldedIsStraight(f: Field)
    requires f.Valid() && Unfolded(f)
    ensures Straight(f)
  {
    forall t, u, v, w, i, o, i', o', x, y ensures StraightAt(f, t, u, v, w, i, o, i', o', x, y) {
      UnfoldedMeets(f, t, u, v, w, i, o, i', o', x, y);
    }
  }

  /** Kept triangles of different tetrahedra with a common side on a face of both meet there. */
  lemma SidesMeet(f: Field, t: Tetrahedron, u: Tetrahedron, v: Triangle, w: Triangle, i: nat, o: nat, i': nat, o': nat)
    returns (x: nat, y: nat)
    requires f.Valid() && f.extents.HasTetrahedron(t) && f.extents.HasTetrahedron(u) && t != u
    requires v in Patch(f, t) && w in Patch(f, u) && Shown(f, v) && Shown(f, w)
    requires TwoCrossings(f, i, o, i', o') && (i == i' || o == o')
    requires ContainsEnds(f, t, i, o, i', o') && ContainsEnds(f, u, i, o, i', o')
    requires HasSide(v, Key(i, o), Key(i', o')) && HasSide(w, Key(i, o), Key(i', o'))
    ensures Meet(f, t, u, v, w, i, o, i', o', x, y)
  {
    x := FourthOffset(f, t, i, o, OtherEnd(i, i', o'));
    y := FourthOffset(f, u, i, o, OtherEnd(i, i', o'));
  }

  /** The triangles on the two sides of a face do not both run along a side in the same direction. */
  lemma SharedSide(f: Field, seen: Triangle -> bool, t: Tetrahedron, u: Tetrahedron, v: Triangle, w: Triangle,
                   i: nat, o: nat, i': nat, o': nat)
    requires f.Valid() && Straight(f) && IsSeen(f, seen) && t != u
    requires f.extents.HasTetrahedron(t) && f.extents.HasTetrahedron(u) && v in Patch(f, t) && w in Patch(f, u)
    requires TwoCrossings(f, i, o, i', o') && (i == i' || o == o')
    requires ContainsEnds(f, t, i, o, i', o') && ContainsEnds(f, u, i, o, i', o')
    requires Runs(seen, v, Key(i, o), Key(i', o'))
    ensures !Runs(seen, w, Key(i, o), Key(i', o'))
  {
    if Runs(seen, w, Key(i, o), Key(i', o')) {
      SeenIs(f, seen, v);
      SeenIs(f, seen, w);
      KeysDiffer(f, i, o, i', o');
      DirectedSide(v, Key(i, o), Key(i', o'));
      DirectedSide(w, Key(i, o), Key(i', o'));
      var x, y := SidesMeet(f, t, u, v, w, i, o, i', o');
      assert StraightAt(f, t, u, v, w, i, o, i', o', x, y);
      OppositeIffLeans(f, t, u, v, w, i, o, i', o', x, y);
    }
  }

  lemma KeysDiffer(f: Field, i: nat, o: nat, i': nat, o': nat)
    requires TwoCrossings(f, i, o, i', o')
    ensures Key(i, o) != Key(i', o')
  {
    SameKey(i, o, i', o');
  }

  /** A tetrahedron with a passage along a side contains the ends of its edges. */
  lemma PassageEnds(f: Field, seen: Triangle -> bool, t: Tetrahedron, e: Edge, g: Edge) returns (v: Triangle)
    requires f.Valid() && IsSeen(f, seen) && f.extents.HasTetrahedron(t) && e != g && Passages(seen, Patch(f, t), e, g) > 0
    ensures v in Patch(f, t) && Runs(seen, v, e, g) && Crossing(f, e) && Crossing(f, g)
    ensures TwoCrossings(f, LowEnd(f, e), HighEnd(f, e), LowEnd(f, g), HighEnd(f, g))
    ensures ContainsEnds(f, t, LowEnd(f, e), HighEnd(f, e), LowEnd(f, g), HighEnd(f, g))
  {
    v := SomePassage(seen, Patch(f, t), e, g);
    SeenIs(f, seen, v);
    PatchCutsLike(f, t);
    EndsOfSide(f, t, Patch(f, t), e, g);
  }

  lemma EndsOfSide(f: Field, t: Tetrahedron, ts: seq<Triangle>, e: Edge, g: Edge)
    requires f.Valid() && CutsLike(f, t, ts) && Sides(ts, e, g) > 0 && e != g && Crossing(f, e) && Crossing(f, g)
    ensures TwoCrossings(f, LowEnd(f, e), HighEnd(f, e), LowEnd(f, g), HighEnd(f, g))
    ensures ContainsEnds(f, t, LowEnd(f, e), HighEnd(f, e), LowEnd(f, g), HighEnd(f, g))
  {
    assert TwoCrossings(f, LowEnd(f, e), HighEnd(f, e), LowEnd(f, g), HighEnd(f, g));
  }

  /** The triangles of two tetrahedra have no directed side in common. */
  lemma PatchesSeparate(f: Field, seen: Triangle -> bool, t: Tetrahedron, u: Tetrahedron, e: Edge, g: Edge)
    requires f.Valid() && Straight(f) && IsSeen(f, seen) && e != g
    requires f.extents.HasTetrahedron(t) && f.extents.HasTetrahedron(u) && t != u
    ensures Passages(seen, Patch(f, t), e, g) == 0 || Passages(seen, Patch(f, u), e, g) == 0
  {
    if Passages(seen, Patch(f, t), e, g) > 0 && Passages(seen, Patch(f, u), e, g) > 0 {
      var v := PassageEnds(f, seen, t, e, g);
      var w := PassageEnds(f, seen, u, e, g);
      var i, o, i', o' := LowEnd(f, e), HighEnd(f, e), LowEnd(f, g), HighEnd(f, g);
      if i == i' || o == o' {
        SharedSide(f, seen, t, u, v, w, i, o, i', o');
      } else {
        DiagonalContribution(f, t, i, o, i', o', u);
      }
    }
  }

  lemma SurfacePassages(f: Field, seen: Triangle -> bool, e: Edge, g: Edge)
    requires f.Valid() && Straight(f) && IsSeen(f, seen) && e != g
    ensures Passages(seen, Surface(f), e, g) <= 1
  {
    var turn := TurningExists(f);
    var ts := AllTetrahedra(f.extents);
    AllTetrahedraEnumerates(f.extents);
    var parts := Patches(f, ts);
    forall k | 0 <= k < |parts| ensures Passages(seen, parts[k], e, g) <= 1 {
      PatchOnce(f, turn, seen, ts[k], e, g);
    }
    forall j, k | 0 <= j < k < |parts| ensures Passages(seen, parts[j], e, g) == 0 || Passages(seen, parts[k], e, g) == 0 {
      PatchesSeparate(f, seen, ts[j], ts[k], e, g);
    }
    SeparateCount(seen, parts, e, g);
  }

  // ----- the condition is exact

  lemma {:induction false} PartPassages(seen: Triangle -> bool, parts: seq<seq<Triangle>>, j: nat, e: Edge, g: Edge)
    requires j < |parts|
    ensures Passages(seen, Flatten(parts), e, g) >= Passages(seen, parts[j], e, g)
  {
    var n := |parts| - 1;
    PassagesConcat(seen, Flatten(parts[..n]), parts[n], e, g);
    if j < n {
      PartPassages(seen, parts[..n], j, e, g);
    }
  }

  /** Passages in different parts add up. */
  lemma {:induction false} TwoParts(seen: Triangle -> bool, parts: seq<seq<Triangle>>, j: nat, k: nat, e: Edge, g: Edge)
    requires j < |parts| && k < |parts| && j != k
    requires Passages(seen, parts[j], e, g) >= 1 && Passages(seen, parts[k], e, g) >= 1
    ensures Passages(seen, Flatten(parts), e, g) >= 2
  {
    var n := |parts| - 1;
    PassagesConcat(seen, Flatten(parts[..n]), parts[n], e, g);
    if j < n && k < n {
      TwoParts(seen, parts[..n], j, k, e, g);
    } else {
      PartPassages(seen, parts[..n], if j < n then j else k, e, g);
    }
  }

  /** Where tetrahedra do not lean opposite ways, two kept triangles run along a side in the same direction. */
  lemma FoldRepeats(f: Field, seen: Triangle -> bool, t: Tetrahedron, u: Tetrahedron, v: Triangle, w: Triangle,
                    i: nat, o: nat, i': nat, o': nat, x: nat, y: nat) returns (e: Edge, g: Edge)
    requires f.Valid() && IsSeen(f, seen) && Meet(f, t, u, v, w, i, o, i', o', x, y)
    requires !OppositeLeans(f, t, u, Apex(i, o, i'), OneEnd(i, o, i'), OtherEnd(i, i', o'), x, y)
    ensures e != g && Passages(seen, Surface(f), e, g) >= 2 && HasSide(v, e, g)
    ensures (e == Key(i, o) && g == Key(i', o')) || (e == Key(i', o') && g == Key(i, o))
  {
    OppositeIffLeans(f, t, u, v, w, i, o, i', o', x, y);
    KeysDiffer(f, i, o, i', o');
    e, g := Key(i, o), Key(i', o');
    DirectedSide(v, e, g);
    DirectedSide(w, e, g);
    if !Directed(v, e, g) {
      e, g := g, e;
    }
    SeenIs(f, seen, v);
    SeenIs(f, seen, w);
    BothCounted(f, seen, t, u, v, w, e, g);
  }

  lemma BothCounted(f: Field, seen: Triangle -> bool, t: Tetrahedron, u: Tetrahedron, v: Triangle, w: Triangle, e: Edge, g: Edge)
    requires f.Valid() && f.extents.HasTetrahedron(t) && f.extents.HasTetrahedron(u) && t != u
    requires v in Patch(f, t) && w in Patch(f, u) && Runs(seen, v, e, g) && Runs(seen, w, e, g)
    ensures Passages(seen, Surface(f), e, g) >= 2
  {
    var parts, j, k := PatchNumbers(f, t, u);
    MemberCounts(seen, Patch(f, t), v, e, g);
    MemberCounts(seen, Patch(f, u), w, e, g);
    TwoParts(seen, parts, j, k, e, g);
  }

  /** Where two tetrahedra come in the list. */
  lemma PatchNumbers(f: Field, t: Tetrahedron, u: Tetrahedron) returns (parts: seq<seq<Triangle>>, j: nat, k: nat)
    requires f.Valid() && f.extents.HasTetrahedron(t) && f.extents.HasTetrahedron(u) && t != u
    ensures Flatten(parts) == Surface(f) && j < |parts| && k < |parts| && j != k
    ensures parts[j] == Patch(f, t) && parts[k] == Patch(f, u)
  {
    var ts := AllTetrahedra(f.extents);
    AllTetrahedraEnumerates(f.extents);
    j :| 0 <= j < |ts| && ts[j] == t;
    k :| 0 <= k < |ts| && ts[k] == u;
    parts := Patches(f, ts);
  }

  lemma MemberCounts(seen: Triangle -> bool, ts: seq<Triangle>, v: Triangle, e: Edge, g: Edge)
    requires v in ts && Runs(seen, v, e, g)
    ensures Passages(seen, ts, e, g) >= 1
  {
    var j :| 0 <= j < |ts| && ts[j] == v;
    PassageCounts(seen, ts, j, e, g);
  }

  /** No directed side is run along twice, over the whole surface. */
  ghost predicate RunsOnce(f: Field, seen: Triangle -> bool)
    requires f.Valid()
  {
    forall e, g | e != g :: Passages(seen, Surface(f), e, g) <= 1
  }

  lemma RunsOnceIsStraight(f: Field, seen: Triangle -> bool)
    requires f.Valid() && IsSeen(f, seen) && RunsOnce(f, seen)
    ensures Straight(f)
  {
    forall t, u, v, w, i, o, i', o', x, y ensures StraightAt(f, t, u, v, w, i, o, i', o', x, y) {
      OnceLeans(f, seen, t, u, v, w, i, o, i', o', x, y);
    }
  }

  lemma OnceLeans(f: Field, seen: Triangle -> bool, t: Tetrahedron, u: Tetrahedron, v: Triangle, w: Triangle,
                  i: nat, o: nat, i': nat, o': nat, x: nat, y: nat)
    requires f.Valid() && IsSeen(f, seen) && RunsOnce(f, seen)
    ensures StraightAt(f, t, u, v, w, i, o, i', o', x, y)
  {
    if !StraightAt(f, t, u, v, w, i, o, i', o', x, y) {
      var e, g := FoldRepeats(f, seen, t, u, v, w, i, o, i', o', x, y);
    }
  }

  /** No directed side is run along twice if and only if the grid is straight where kept triangles meet. */
  lemma StraightIffRunsOnce(f: Field, seen: Triangle -> bool)
    requires f.Valid() && IsSeen(f, seen)
    ensures Straight(f) <==> RunsOnce(f, seen)
  {
    if Straight(f) {
      forall e, g | e != g ensures Passages(seen, Surface(f), e, g) <= 1 {
        SurfacePassages(f, seen, e, g);
      }
    }
    if RunsOnce(f, seen) {
      RunsOnceIsStraight(f, seen);
    }
  }

  // ----- the main statement

  lemma {:induction false} TwoPassages(seen: Triangle -> bool, ts: seq<Triangle>, j: nat, k: nat, e: Edge, g: Edge)
    requires j < k < |ts| && Runs(seen, ts[j], e, g) && Runs(seen, ts[k], e, g)
    ensures Passages(seen, ts, e, g) >= 2
  {
    var n := |ts| - 1;
    if k < n {
      TwoPassages(seen, ts[..n], j, k, e, g);
    } else {
      PassageCounts(seen, ts[..n], j, e, g);
    }
  }

  lemma {:induction false} PassageCounts(seen: Triangle -> bool, ts: seq<Triangle>, j: nat, e: Edge, g: Edge)
    requires j < |ts| && Runs(seen, ts[j], e, g)
    ensures Passages(seen, ts, e, g) >= 1
  {
    var n := |ts| - 1;
    if j < n {
      PassageCounts(seen, ts[..n], j, e, g);
    }
  }

  /**
   The surface is consistently oriented unless folded over: two triangles that are kept and share a side run
   along it in opposite directions.
   */
  lemma SurfaceIsOriented(f: Field, j: nat, k: nat, e: Edge, g: Edge)
    requires f.Valid() && Straight(f) && j < k < |Surface(f)|
    requires Shown(f, Surface(f)[j]) && Shown(f, Surface(f)[k])
    requires HasSide(Surface(f)[j], e, g) && HasSide(Surface(f)[k], e, g)
    ensures Directed(Surface(f)[j], e, g) != Directed(Surface(f)[k], e, g)
    ensures Directed(Surface(f)[j], g, e) != Directed(Surface(f)[k], g, e)
  {
    var seen := Sees(f);
    SeesIsSeen(f);
    var s := Surface(f);
    SeenIs(f, seen, s[j]);
    SeenIs(f, seen, s[k]);
    DirectedSide(s[j], e, g);
    DirectedSide(s[k], e, g);
    OneWayEach(f, seen, j, k, e, g);
    OneWayEach(f, seen, j, k, g, e);
  }

  lemma OneWayEach(f: Field, seen: Triangle -> bool, j: nat, k: nat, e: Edge, g: Edge)
    requires f.Valid() && Straight(f) && IsSeen(f, seen) && j < k < |Surface(f)| && e != g
    ensures !(Runs(seen, Surface(f)[j], e, g) && Runs(seen, Surface(f)[k], e, g))
  {
    SurfacePassages(f, seen, e, g);
    if Runs(seen, Surface(f)[j], e, g) && Runs(seen, Surface(f)[k], e, g) {
      TwoPassages(seen, Surface(f), j, k, e, g);
    }
  }
}
