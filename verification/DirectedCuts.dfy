/**
 The directions in which the triangles of a cut tetrahedron run along its faces.

 Everything is proved for any function of four corners that changes sign when two of them are
 exchanged; the volume they span is one.
 */
module DirectedCuts {
  import opened MixedRadix
  import opened Isosurface

  // ----- functions that change sign when two corners are exchanged

  type Turning = (nat, nat, nat, nat) -> real

  ghost predicate AlternatesAt(turn: Turning, a: nat, b: nat, c: nat, d: nat) {
    turn(b, a, c, d) == turn(a, c, b, d) == turn(a, b, d, c) == 0.0 - turn(a, b, c, d)
  }

  /** Exchanging neighbouring corners changes the sign; looked at where `AlternatesAt` is mentioned. */
  ghost predicate Alternates(turn: Turning) {
    forall a, b, c, d :: AlternatesAt(turn, a, b, c, d)
  }

  lemma Rotates(turn: Turning, a: nat, b: nat, c: nat, d: nat)
    requires Alternates(turn)
    ensures turn(a, c, d, b) == turn(a, b, c, d) == turn(a, d, b, c)
  {
    assert AlternatesAt(turn, a, b, c, d) && AlternatesAt(turn, a, c, b, d) && AlternatesAt(turn, a, b, d, c);
  }

  lemma EdgeOrders(turn: Turning, a: nat, b: nat, c: nat, d: nat)
    requires Alternates(turn)
    ensures turn(a, c, d, b) == turn(a, b, c, d) == turn(b, d, c, a)
    ensures turn(d, a, b, c) == turn(c, b, a, d) == 0.0 - turn(a, b, c, d)
  {
    Rotates(turn, a, b, c, d);
    assert AlternatesAt(turn, a, d, b, c) && AlternatesAt(turn, a, b, c, d);
    Rotates(turn, b, a, c, d);
    assert AlternatesAt(turn, b, c, d, a) && AlternatesAt(turn, b, c, a, d);
  }

  // ----- the order of the corners

  lemma OrderTwo(turn: Turning, c0: nat, c1: nat, c2: nat, c3: nat, c: nat, d: nat)
    requires Alternates(turn) && c != d && (c == c2 || c == c3) && (d == c2 || d == c3)
    ensures turn(c0, c1, c, d) == turn(c0, c1, c2, c3) || turn(c0, c1, c, d) == 0.0 - turn(c0, c1, c2, c3)
  {
    assert AlternatesAt(turn, c0, c1, c2, c3);
  }

  lemma OrderThree(turn: Turning, c0: nat, c1: nat, c2: nat, c3: nat, b: nat, c: nat, d: nat)
    requires Alternates(turn) && b != c && b != d && c != d && b in [c1, c2, c3] && c in [c1, c2, c3] && d in [c1, c2, c3]
    ensures turn(c0, b, c, d) == turn(c0, c1, c2, c3) || turn(c0, b, c, d) == 0.0 - turn(c0, c1, c2, c3)
  {
    assert AlternatesAt(turn, c0, b, c, d) && AlternatesAt(turn, c0, b, d, c);
    if b == c1 {
      OrderTwo(turn, c0, c1, c2, c3, c, d);
    } else if c == c1 {
      OrderTwo(turn, c0, c1, c2, c3, b, d);
    } else {
      OrderTwo(turn, c0, c1, c2, c3, b, c);
    }
  }

  /** In any order, four corners turn as they do in one order or the opposite way. */
  lemma AnyOrder(turn: Turning, c0: nat, c1: nat, c2: nat, c3: nat, a: nat, b: nat, c: nat, d: nat)
    requires Alternates(turn) && a != b && a != c && a != d && b != c && b != d && c != d
    requires a in [c0, c1, c2, c3] && b in [c0, c1, c2, c3] && c in [c0, c1, c2, c3] && d in [c0, c1, c2, c3]
    ensures turn(a, b, c, d) == turn(c0, c1, c2, c3) || turn(a, b, c, d) == 0.0 - turn(c0, c1, c2, c3)
  {
    assert AlternatesAt(turn, a, b, c, d) && AlternatesAt(turn, a, c, b, d);
    assert AlternatesAt(turn, a, b, d, c) && AlternatesAt(turn, a, d, b, c);
    if a == c0 {
      OrderThree(turn, c0, c1, c2, c3, b, c, d);
    } else if b == c0 {
      OrderThree(turn, c0, c1, c2, c3, a, c, d);
    } else if c == c0 {
      OrderThree(turn, c0, c1, c2, c3, a, b, d);
    } else {
      OrderThree(turn, c0, c1, c2, c3, a, b, c);
    }
  }

  // ----- directed sides

  /** The triangle runs from `e` to `g`. */
  predicate Directed(t: Triangle, e: Edge, g: Edge) {
    (t.a == e && t.b == g) || (t.b == e && t.c == g) || (t.c == e && t.a == g)
  }

  function Swapped(t: Triangle): Triangle {
    Triangle(t.a, t.c, t.b)
  }

  lemma DirectedSide(t: Triangle, e: Edge, g: Edge)
    ensures Directed(Swapped(t), e, g) <==> Directed(t, g, e)
    ensures e != g ==> (HasSide(t, e, g) <==> Directed(t, e, g) || Directed(t, g, e))
  {
  }

  /** The direction in which a corner's triangle runs from the edge to `s` to the edge to `s'`. */
  lemma CornerDirected(turn: Turning, a: nat, b: nat, c: nat, d: nat, s: nat, s': nat, x: nat)
    requires Alternates(turn) && a != b && a != c && a != d && Distinct([b, c, d])
    requires Directed(Triangle(Key(a, b), Key(a, c), Key(a, d)), Key(a, s), Key(a, s'))
    requires x in [b, c, d] && x != s && x != s'
    ensures turn(a, s, s', x) == turn(a, b, c, d)
  {
    var q := [b, c, d];
    assert q[0] != q[1] && q[0] != q[2] && q[1] != q[2];
    Rotates(turn, a, b, c, d);
  }

  /** A triangle from edge `i-o` to edge `i'-o'` of the face opposite `x`, wound by `hand`, turns this way with `x`. */
  ghost predicate Leans(turn: Turning, i: nat, o: nat, i': nat, o': nat, x: nat, hand: real) {
    if i == i' then turn(i, o, o', x) == hand else turn(o, i, i', x) == 0.0 - hand
  }

  /** Inside and outside corners of a tetrahedron: no corner is listed twice. */
  ghost predicate Splits(ins: seq<nat>, outs: seq<nat>) {
    && |ins| + |outs| == 4 && Distinct(ins) && Distinct(outs)
    && forall j, k | 0 <= j < |ins| && 0 <= k < |outs| :: ins[j] != outs[k]
  }

  /** The turn that decides how the triangles of a cut are wound. */
  function Handed(turn: Turning, ins: seq<nat>, outs: seq<nat>): real {
    if |ins| == 1 && |outs| == 3 then turn(ins[0], outs[0], outs[1], outs[2])
    else if |ins| == 3 && |outs| == 1 then 0.0 - turn(outs[0], ins[0], ins[1], ins[2])
    else if |ins| == 2 && |outs| == 2 then turn(ins[0], ins[1], outs[0], outs[1])
    else 0.0
  }

  /** Edges from the inside to the outside that are not the same. */
  ghost predicate TwoEdges(ins: seq<nat>, outs: seq<nat>, i: nat, o: nat, i': nat, o': nat) {
    && (i != i' || o != o') && i !in outs && i' !in outs && o !in ins && o' !in ins
  }

  /** `x` is a corner of the tetrahedron that is on neither edge. */
  predicate Opposite(ins: seq<nat>, outs: seq<nat>, i: nat, o: nat, i': nat, o': nat, x: nat) {
    (x in ins || x in outs) && x != i && x != o && x != i' && x != o'
  }

  lemma OneInsideLeans(turn: Turning, a: nat, outs: seq<nat>, i: nat, o: nat, i': nat, o': nat, x: nat)
    requires Alternates(turn) && Splits([a], outs) && TwoEdges([a], outs, i, o, i', o') && Opposite([a], outs, i, o, i', o', x)
    requires Directed(Triangle(Key(a, outs[0]), Key(a, outs[1]), Key(a, outs[2])), Key(i, o), Key(i', o'))
    ensures Leans(turn, i, o, i', o', x, turn(a, outs[0], outs[1], outs[2]))
  {
    var b, c, d := outs[0], outs[1], outs[2];
    assert outs == [b, c, d] && a in [a] && [a][0] == a;
    SameKey(i, o, a, b); SameKey(i, o, a, c); SameKey(i, o, a, d);
    SameKey(i', o', a, b); SameKey(i', o', a, c); SameKey(i', o', a, d);
    CornerDirected(turn, a, b, c, d, o, o', x);
  }

  lemma OneOutsideLeans(turn: Turning, a: nat, ins: seq<nat>, i: nat, o: nat, i': nat, o': nat, x: nat)
    requires Alternates(turn) && Splits(ins, [a]) && TwoEdges(ins, [a], i, o, i', o') && Opposite(ins, [a], i, o, i', o', x)
    requires Directed(Triangle(Key(a, ins[0]), Key(a, ins[1]), Key(a, ins[2])), Key(i, o), Key(i', o'))
    ensures Leans(turn, i, o, i', o', x, 0.0 - turn(a, ins[0], ins[1], ins[2]))
  {
    var b, c, d := ins[0], ins[1], ins[2];
    assert ins == [b, c, d] && a in [a] && [a][0] == a;
    SameKey(i, o, b, a); SameKey(i, o, c, a); SameKey(i, o, d, a);
    SameKey(i', o', b, a); SameKey(i', o', c, a); SameKey(i', o', d, a);
    assert Key(i, o) == Key(a, i) && Key(i', o') == Key(a, i');
    CornerDirected(turn, a, b, c, d, i, i', x);
  }

  lemma TwoInsideLeans(turn: Turning, ins: seq<nat>, outs: seq<nat>, k: nat, i: nat, o: nat, i': nat, o': nat, x: nat)
    requires Alternates(turn) && Splits(ins, outs) && |ins| == 2 && k < 2 && (i == i' || o == o')
    requires TwoEdges(ins, outs, i, o, i', o') && Opposite(ins, outs, i, o, i', o', x)
    requires Directed(Cut(ins, outs)[k], Key(i, o), Key(i', o'))
    ensures Leans(turn, i, o, i', o', x, turn(ins[0], ins[1], outs[0], outs[1]))
  {
    var a, b, c, d := ins[0], ins[1], outs[0], outs[1];
    assert ins == [a, b] && outs == [c, d];
    SameKey(i, o, a, c); SameKey(i, o, a, d); SameKey(i, o, b, c); SameKey(i, o, b, d);
    SameKey(i', o', a, c); SameKey(i', o', a, d); SameKey(i', o', b, c); SameKey(i', o', b, d);
    EdgeOrders(turn, a, b, c, d);
  }

  /** In which direction a triangle of a cut, as listed, runs along a face of its tetrahedron. */
  lemma CutLeans(turn: Turning, ins: seq<nat>, outs: seq<nat>, k: nat, i: nat, o: nat, i': nat, o': nat, x: nat)
    requires Alternates(turn) && Splits(ins, outs) && k < |Cut(ins, outs)| && (i == i' || o == o')
    requires TwoEdges(ins, outs, i, o, i', o') && Opposite(ins, outs, i, o, i', o', x)
    requires Directed(Cut(ins, outs)[k], Key(i, o), Key(i', o'))
    ensures Leans(turn, i, o, i', o', x, Handed(turn, ins, outs))
  {
    if |ins| == 1 {
      assert [ins[0]] == ins;
      OneInsideLeans(turn, ins[0], outs, i, o, i', o', x);
    } else if |ins| == 3 {
      assert [outs[0]] == outs;
      OneOutsideLeans(turn, outs[0], ins, i, o, i', o', x);
    } else {
      TwoInsideLeans(turn, ins, outs, k, i, o, i', o', x);
    }
  }

  /**
   The two triangles of a quadrilateral have its diagonal in common and no other side, and run along it in
   opposite directions.
   */
  lemma CutOnce(ins: seq<nat>, outs: seq<nat>, e: Edge, g: Edge)
    requires Splits(ins, outs) && |Cut(ins, outs)| == 2 && e != g
    ensures |ins| == |outs| == 2
    ensures var c, from, to := Cut(ins, outs), Key(ins[0], outs[0]), Key(ins[1], outs[1]);
            && (HasSide(c[0], e, g) && HasSide(c[1], e, g) <==> (e == from && g == to) || (e == to && g == from))
            && Directed(c[0], to, from) && Directed(c[1], from, to)
            && !(Directed(c[0], e, g) && Directed(c[1], e, g))
  {
    var a, b, c, d := ins[0], ins[1], outs[0], outs[1];
    SameKey(a, c, a, d); SameKey(a, c, b, c); SameKey(a, c, b, d);
    SameKey(a, d, b, c); SameKey(a, d, b, d); SameKey(b, c, b, d);
  }
}
