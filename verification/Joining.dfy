/**
 What it means for an array to be the concatenation of others along an axis, and that nesting
 concatenations does not matter.
 */
module Joining {
  import opened Sealing
  import opened Shapes
  import opened Tensors
  import opened Coordinates
  import opened Partitions

  /** The coordinates moved `shift` positions along an axis. */
  function Along(x: seq<nat>, axis: nat, shift: nat): (y: seq<nat>)
    ensures |y| == (if |x| <= axis then axis + 1 else |x|)
    ensures forall a: nat :: Coordinate(y, a) == Coordinate(x, a) + (if a == axis then shift else 0)
  {
    var z := if |x| <= axis then x + Zeros(axis + 1 - |x|) else x;
    z[axis := z[axis] + shift]
  }

  /** `Slices`, to be looked into only where `Unseal` is mentioned. */
  ghost predicate IsSlice<T>(whole: Tensor<T>, axis: nat, start: nat, part: Tensor<T>) {
    forall k {:trigger Unseal(k)} :: Unseal(k) ==> Slices(whole, axis, start, part)
  }

  /** `part` is what `whole` holds from `start` on along the axis. */
  ghost predicate Slices<T>(whole: Tensor<T>, axis: nat, start: nat, part: Tensor<T>) {
    && whole.Valid() && part.Valid()
    && (forall a: nat | a != axis :: Extent(part.dims, a) == Extent(whole.dims, a))
    && start + Extent(part.dims, axis) <= Extent(whole.dims, axis)
    && forall x: seq<nat> | Within(x, part.dims) ::
         && Within(Along(x, axis, start), whole.dims)
         && Element(whole, Along(x, axis, start)) == Element(part, x)
  }

  /** The extents along the axis. */
  function Extents<T>(inputs: seq<Tensor<T>>, axis: nat): (p: seq<nat>)
    ensures |p| == |inputs|
  {
    seq(|inputs|, i requires 0 <= i < |inputs| => Extent(inputs[i].dims, axis))
  }

  /** Where each input starts along the axis, and after them where the last one ends. */
  ghost predicate AreOffsets<T>(inputs: seq<Tensor<T>>, axis: nat, starts: seq<nat>) {
    && |starts| == |inputs| + 1 && starts[0] == 0
    && forall i: nat {:trigger inputs[i]} | i < |inputs| :: starts[i + 1] == starts[i] + Extent(inputs[i].dims, axis)
  }

  ghost predicate JoinsAt<T>(inputs: seq<Tensor<T>>, axis: nat, r: Tensor<T>, starts: seq<nat>) {
    && r.Valid() && AreOffsets(inputs, axis, starts) && Extent(r.dims, axis) == starts[|inputs|]
    && forall i: nat | i < |inputs| :: IsSlice(r, axis, starts[i], inputs[i])
  }

  /** Every input is the slice of `r` that begins where the inputs before it end, and nothing else is in `r`. */
  ghost predicate IsJoined<T>(inputs: seq<Tensor<T>>, axis: nat, r: Tensor<T>) {
    exists starts: seq<nat> :: JoinsAt(inputs, axis, r, starts)
  }

  lemma {:induction false} OffsetsAreStarts<T>(inputs: seq<Tensor<T>>, axis: nat, starts: seq<nat>, i: nat)
    requires AreOffsets(inputs, axis, starts) && i <= |inputs|
    ensures starts[i] == Start(Extents(inputs, axis), i)
  {
    if i > 0 {
      OffsetsAreStarts(inputs, axis, starts, i - 1);
      StartNext(Extents(inputs, axis), i - 1);
      assert starts[i] == starts[i - 1] + Extent(inputs[i - 1].dims, axis);
    }
  }

  /** The starts are partial sums of the extents. */
  lemma JoinedByStarts<T>(inputs: seq<Tensor<T>>, axis: nat, r: Tensor<T>)
    requires IsJoined(inputs, axis, r)
    ensures r.Valid() && Extent(r.dims, axis) == Sum(Extents(inputs, axis))
    ensures forall i: nat | i < |inputs| :: IsSlice(r, axis, Start(Extents(inputs, axis), i), inputs[i])
  {
    var starts :| JoinsAt(inputs, axis, r, starts);
    OffsetsAreStarts(inputs, axis, starts, |inputs|);
    StartEnd(Extents(inputs, axis));
    forall i: nat | i < |inputs| ensures IsSlice(r, axis, Start(Extents(inputs, axis), i), inputs[i]) {
      OffsetsAreStarts(inputs, axis, starts, i);
    }
  }

  lemma JoinedFromStarts<T>(inputs: seq<Tensor<T>>, axis: nat, r: Tensor<T>)
    requires r.Valid() && Extent(r.dims, axis) == Sum(Extents(inputs, axis))
    requires forall i: nat | i < |inputs| :: IsSlice(r, axis, Start(Extents(inputs, axis), i), inputs[i])
    ensures IsJoined(inputs, axis, r)
  {
    var p := Extents(inputs, axis);
    var starts := seq(|inputs| + 1, i requires 0 <= i < |inputs| + 1 => Start(p, i));
    StartEnd(p);
    forall i: nat | i < |inputs| ensures starts[i + 1] == starts[i] + Extent(inputs[i].dims, axis) {
      StartNext(p, i);
    }
    assert JoinsAt(inputs, axis, r, starts);
  }

  /** All inputs have the same extents along the other axes. */
  ghost predicate Compatible<T>(inputs: seq<Tensor<T>>, axis: nat) {
    forall i: nat, a: nat | i < |inputs| && a != axis :: Extent(inputs[i].dims, a) == Extent(inputs[0].dims, a)
  }

  // ----- slices

  lemma {:induction false} SliceOfSlice<T>(whole: Tensor<T>, axis: nat, s: nat, mid: Tensor<T>, t: nat, part: Tensor<T>)
    requires IsSlice(whole, axis, s, mid) && IsSlice(mid, axis, t, part)
    ensures IsSlice(whole, axis, s + t, part)
  {
    assert Unseal(0);
    forall x: seq<nat> | Within(x, part.dims)
      ensures Within(Along(x, axis, s + t), whole.dims)
      ensures Element(whole, Along(x, axis, s + t)) == Element(part, x)
    {
      AlongTwice(x, axis, s, t);
      assert Within(Along(x, axis, t), mid.dims);
    }
    forall a: nat | a != axis ensures Extent(part.dims, a) == Extent(whole.dims, a) {
      assert Extent(part.dims, a) == Extent(mid.dims, a);
    }
  }

  lemma AlongTwice(x: seq<nat>, axis: nat, s: nat, t: nat)
    ensures Along(Along(x, axis, t), axis, s) == Along(x, axis, s + t)
  {
  }

  lemma WholeSlice<T>(t: Tensor<T>, axis: nat)
    requires t.Valid()
    ensures IsSlice(t, axis, 0, t)
  {
    forall x: seq<nat> | Within(x, t.dims)
      ensures Within(Along(x, axis, 0), t.dims) && Element(t, Along(x, axis, 0)) == Element(t, x)
    {
      WithinSame(x, Along(x, axis, 0), t.dims);
      ElementSame(t, x, Along(x, axis, 0));
    }
  }

  /** A single input is its own concatenation. */
  lemma SingleJoined<T>(t: Tensor<T>, axis: nat)
    requires t.Valid()
    ensures IsJoined([t], axis, t)
  {
    WholeSlice(t, axis);
    assert JoinsAt([t], axis, t, [0, Extent(t.dims, axis)]);
  }

  // ----- a concatenation is determined by its inputs

  /** Every coordinate along the axis belongs to exactly one input. */
  lemma InputOf<T>(inputs: seq<Tensor<T>>, axis: nat, r: Tensor<T>, x: seq<nat>) returns (i: nat, y: seq<nat>)
    requires IsJoined(inputs, axis, r) && r.Valid() && Within(x, r.dims)
    ensures i < |inputs| && Within(y, inputs[i].dims)
    ensures forall a: nat :: Coordinate(Along(y, axis, Start(Extents(inputs, axis), i)), a) == Coordinate(x, a)
    ensures forall j: nat | j < |inputs| && Start(Extents(inputs, axis), j) <= Coordinate(x, axis)
                            < Start(Extents(inputs, axis), j) + Extent(inputs[j].dims, axis) :: j == i
  {
    var p := Extents(inputs, axis);
    JoinedByStarts(inputs, axis, r);
    assert Coordinate(x, axis) < Extent(r.dims, axis);
    i := Locate(p, Coordinate(x, axis));
    y := MovedBack(r, axis, Start(p, i), inputs[i], x);
    forall j: nat | j < |inputs| && Start(p, j) <= Coordinate(x, axis) < Start(p, j) + p[j] ensures j == i {
      LocateUnique(p, j, Coordinate(x, axis));
    }
  }

  lemma MovedBack<T>(r: Tensor<T>, axis: nat, start: nat, part: Tensor<T>, x: seq<nat>) returns (y: seq<nat>)
    requires IsSlice(r, axis, start, part) && Within(x, r.dims)
    requires start <= Coordinate(x, axis) < start + Extent(part.dims, axis)
    ensures Within(y, part.dims) && forall a: nat :: Coordinate(Along(y, axis, start), a) == Coordinate(x, a)
  {
    assert Unseal(0);
    var z := Along(x, axis, 0);
    y := z[axis := z[axis] - start];
    assert z[axis] == Coordinate(z, axis) == Coordinate(x, axis);
    forall a: nat ensures Coordinate(y, a) < Extent(part.dims, a) {
      assert Coordinate(x, a) < Extent(r.dims, a);
      assert Coordinate(z, a) == Coordinate(x, a);
    }
    forall a: nat ensures Coordinate(Along(y, axis, start), a) == Coordinate(x, a) {
      assert Coordinate(z, a) == Coordinate(x, a);
    }
  }

  lemma JoinedUnique<T>(inputs: seq<Tensor<T>>, axis: nat, r: Tensor<T>, r': Tensor<T>)
    requires inputs != [] && IsJoined(inputs, axis, r) && IsJoined(inputs, axis, r')
    ensures r == r'
  {
    var p := Extents(inputs, axis);
    JoinedByStarts(inputs, axis, r);
    JoinedByStarts(inputs, axis, r');
    assert Unseal(0);
    forall a: nat ensures Extent(r.dims, a) == Extent(r'.dims, a) {
      assert IsSlice(r, axis, Start(p, 0), inputs[0]) && IsSlice(r', axis, Start(p, 0), inputs[0]);
    }
    CanonicalUnique(r.dims, r'.dims);
    forall x: seq<nat> | Within(x, r.dims) ensures Element(r, x) == Element(r', x) {
      var i, y := InputOf(inputs, axis, r, x);
      var z := Along(y, axis, Start(p, i));
      assert IsSlice(r, axis, Start(p, i), inputs[i]) && IsSlice(r', axis, Start(p, i), inputs[i]);
      ElementSame(r, x, z);
      ElementSame(r', x, z);
    }
    SameByCoordinates(r, r');
  }

  // ----- nesting

  /** Where the inputs start when some of them, concatenated to `m`, are put back in their place. */
  ghost function FlatOffsets(n: nat, k: nat, outer: seq<nat>, inner: seq<nat>): (starts: seq<nat>)
    requires n + 1 < |outer| && |inner| == k + 1
    ensures |starts| == |outer| - 1 + k
  {
    seq(|outer| - 1 + k, i requires 0 <= i < |outer| - 1 + k =>
      if i < n then outer[i] else if i < n + k then outer[n] + inner[i - n] else outer[i - k + 1])
  }

  /** Concatenating some of the inputs first makes no difference. */
  lemma JoinNested<T>(pre: seq<Tensor<T>>, mid: seq<Tensor<T>>, post: seq<Tensor<T>>, axis: nat, m: Tensor<T>,
                      nested: seq<Tensor<T>>, flat: seq<Tensor<T>>, r: Tensor<T>)
    requires nested == pre + ([m] + post) && flat == pre + (mid + post)
    requires IsJoined(mid, axis, m) && IsJoined(nested, axis, r)
    ensures IsJoined(flat, axis, r)
  {
    var inner :| JoinsAt(mid, axis, m, inner);
    var outer :| JoinsAt(nested, axis, r, outer);
    var starts := FlatOffsets(|pre|, |mid|, outer, inner);
    FlatOffsetsAdd(pre, mid, post, axis, m, nested, flat, outer, inner, starts);
    forall i: nat | i < |flat| ensures IsSlice(r, axis, starts[i], flat[i]) {
      FlatSlice(pre, mid, post, axis, m, nested, flat, r, outer, inner, i);
    }
    assert JoinsAt(flat, axis, r, starts);
  }

  lemma FlatSlice<T>(pre: seq<Tensor<T>>, mid: seq<Tensor<T>>, post: seq<Tensor<T>>, axis: nat, m: Tensor<T>,
                     nested: seq<Tensor<T>>, flat: seq<Tensor<T>>, r: Tensor<T>, outer: seq<nat>, inner: seq<nat>, i: nat)
    requires nested == pre + ([m] + post) && flat == pre + (mid + post) && i < |flat|
    requires |outer| == |nested| + 1 && forall k: nat | k < |nested| :: IsSlice(r, axis, outer[k], nested[k])
    requires |inner| == |mid| + 1 && forall k: nat | k < |mid| :: IsSlice(m, axis, inner[k], mid[k])
    ensures IsSlice(r, axis, FlatOffsets(|pre|, |mid|, outer, inner)[i], flat[i])
  {
    FlatInput(pre, mid, post, m, nested, flat, outer, inner, i);
    if i < |pre| {
      assert IsSlice(r, axis, outer[i], nested[i]);
    } else if i < |pre| + |mid| {
      assert IsSlice(r, axis, outer[|pre|], nested[|pre|]);
      SliceOfSlice(r, axis, outer[|pre|], m, inner[i - |pre|], mid[i - |pre|]);
    } else {
      assert IsSlice(r, axis, outer[i - |mid| + 1], nested[i - |mid| + 1]);
    }
  }

  /** Which input comes where, and where it starts. */
  lemma FlatInput<T>(pre: seq<T>, mid: seq<T>, post: seq<T>, m: T, nested: seq<T>, flat: seq<T>, outer: seq<nat>, inner: seq<nat>, i: nat)
    requires nested == pre + ([m] + post) && flat == pre + (mid + post) && i < |flat|
    requires |outer| == |nested| + 1 && |inner| == |mid| + 1
    ensures var start := FlatOffsets(|pre|, |mid|, outer, inner)[i];
            && nested[|pre|] == m
            && if i < |pre| then flat[i] == nested[i] && start == outer[i]
               else if i < |pre| + |mid| then flat[i] == mid[i - |pre|] && start == outer[|pre|] + inner[i - |pre|]
               else flat[i] == nested[i - |mid| + 1] && start == outer[i - |mid| + 1]
  {
  }

  lemma FlatOffsetsAdd<T>(pre: seq<Tensor<T>>, mid: seq<Tensor<T>>, post: seq<Tensor<T>>, axis: nat, m: Tensor<T>,
                          nested: seq<Tensor<T>>, flat: seq<Tensor<T>>, outer: seq<nat>, inner: seq<nat>, starts: seq<nat>)
    requires nested == pre + ([m] + post) && flat == pre + (mid + post)
    requires AreOffsets(nested, axis, outer) && AreOffsets(mid, axis, inner) && Extent(m.dims, axis) == inner[|mid|]
    requires starts == FlatOffsets(|pre|, |mid|, outer, inner)
    ensures AreOffsets(flat, axis, starts) && starts[|flat|] == outer[|nested|]
  {
    assert nested[|pre|] == m;
    forall i: nat | i < |flat| ensures starts[i + 1] == starts[i] + Extent(flat[i].dims, axis) {
      if i < |pre| {
        assert nested[i] == flat[i];
      } else if i < |pre| + |mid| {
        assert flat[i] == mid[i - |pre|];
      } else {
        assert nested[i - |mid| + 1] == flat[i];
      }
    }
    assert pre != [] ==> nested[0] == flat[0];
  }

  /** Inputs are compatible exactly when they are after concatenating some of them. */
  lemma CompatibleNested<T>(pre: seq<Tensor<T>>, mid: seq<Tensor<T>>, post: seq<Tensor<T>>, axis: nat, m: Tensor<T>)
    requires mid != [] && IsJoined(mid, axis, m)
    ensures Compatible(pre + (mid + post), axis) <==> Compatible(pre + ([m] + post), axis)
  {
    forall i: nat, a: nat | i < |mid| && a != axis ensures Extent(mid[i].dims, a) == Extent(m.dims, a) {
      SliceKeepsExtents(mid, axis, m, i, a);
    }
    CompatibleFlat(pre, mid, post, axis, m, pre + ([m] + post), pre + (mid + post));
  }

  lemma SliceKeepsExtents<T>(inputs: seq<Tensor<T>>, axis: nat, r: Tensor<T>, i: nat, a: nat)
    requires IsJoined(inputs, axis, r) && i < |inputs| && a != axis
    ensures Extent(inputs[i].dims, a) == Extent(r.dims, a)
  {
    assert Unseal(0);
    JoinedByStarts(inputs, axis, r);
    assert IsSlice(r, axis, Start(Extents(inputs, axis), i), inputs[i]);
  }

  lemma CompatibleFlat<T>(pre: seq<Tensor<T>>, mid: seq<Tensor<T>>, post: seq<Tensor<T>>, axis: nat, m: Tensor<T>,
                          nested: seq<Tensor<T>>, flat: seq<Tensor<T>>)
    requires mid != [] && nested == pre + ([m] + post) && flat == pre + (mid + post)
    requires forall i: nat, a: nat | i < |mid| && a != axis :: Extent(mid[i].dims, a) == Extent(m.dims, a)
    ensures Compatible(flat, axis) <==> Compatible(nested, axis)
  {
    assert pre == [] ==> flat[0] == mid[0] && nested[0] == m;
    assert pre != [] ==> flat[0] == nested[0];
    if Compatible(flat, axis) {
      forall i: nat, a: nat | i < |nested| && a != axis ensures Extent(nested[i].dims, a) == Extent(nested[0].dims, a) {
        var j := if i <= |pre| then i else i - 1 + |mid|;
        assert Extent(flat[j].dims, a) == Extent(flat[0].dims, a);
        assert if i == |pre| then flat[j] == mid[0] && nested[i] == m else flat[j] == nested[i];
      }
    }
    if Compatible(nested, axis) {
      forall i: nat, a: nat | i < |flat| && a != axis ensures Extent(flat[i].dims, a) == Extent(flat[0].dims, a) {
        var j := if i < |pre| then i else if i < |pre| + |mid| then |pre| else i - |mid| + 1;
        assert Extent(nested[j].dims, a) == Extent(nested[0].dims, a);
        assert if j == |pre| then flat[i] == mid[i - |pre|] && nested[j] == m else flat[i] == nested[j];
      }
    }
  }

  lemma CompatiblePart<T>(pre: seq<Tensor<T>>, mid: seq<Tensor<T>>, post: seq<Tensor<T>>, axis: nat)
    requires Compatible(pre + (mid + post), axis)
    ensures Compatible(mid, axis)
  {
    var flat := pre + (mid + post);
    forall i: nat, a: nat | i < |mid| && a != axis ensures Extent(mid[i].dims, a) == Extent(mid[0].dims, a) {
      assert flat[|pre| + i] == mid[i] && flat[|pre|] == mid[0];
      assert Extent(flat[|pre| + i].dims, a) == Extent(flat[0].dims, a);
      assert Extent(flat[|pre|].dims, a) == Extent(flat[0].dims, a);
    }
  }

  function Flat<T>(groups: seq<seq<T>>): seq<T> {
    if groups == [] then [] else Flat(groups[..|groups| - 1]) + groups[|groups| - 1]
  }

  lemma FlatSnoc<T>(groups: seq<seq<T>>, k: nat)
    requires k < |groups|
    ensures Flat(groups[..k + 1]) == Flat(groups[..k]) + groups[k]
  {
    assert groups[..k + 1][..k] == groups[..k];
  }

  /** Concatenating concatenations of groups is concatenating all their members. */
  lemma {:induction false} JoinGroups<T>(groups: seq<seq<Tensor<T>>>, parts: seq<Tensor<T>>, axis: nat, r: Tensor<T>, k: nat)
    requires |groups| == |parts| && k <= |groups| && IsJoined(parts, axis, r)
    requires forall g: nat | g < |groups| :: IsJoined(groups[g], axis, parts[g])
    ensures IsJoined(Flat(groups[..k]) + parts[k..], axis, r)
  {
    if k == 0 {
      assert Flat(groups[..0]) + parts[0..] == parts;
    } else {
      JoinGroups(groups, parts, axis, r, k - 1);
      NextGroup(groups, parts, axis, r, k - 1);
    }
  }

  lemma NextGroup<T>(groups: seq<seq<Tensor<T>>>, parts: seq<Tensor<T>>, axis: nat, r: Tensor<T>, k: nat)
    requires |groups| == |parts| && k < |groups| && IsJoined(groups[k], axis, parts[k])
    requires IsJoined(Flat(groups[..k]) + parts[k..], axis, r)
    ensures IsJoined(Flat(groups[..k + 1]) + parts[k + 1..], axis, r)
  {
    JoinGroup(Flat(groups[..k]), groups[k], parts, k, axis, r);
    FlatSnoc(groups, k);
  }

  lemma JoinGroup<T>(pre: seq<Tensor<T>>, group: seq<Tensor<T>>, parts: seq<Tensor<T>>, k: nat, axis: nat, r: Tensor<T>)
    requires k < |parts| && IsJoined(group, axis, parts[k]) && IsJoined(pre + parts[k..], axis, r)
    ensures IsJoined((pre + group) + parts[k + 1..], axis, r)
  {
    var post := parts[k + 1..];
    assert pre + parts[k..] == pre + ([parts[k]] + post) && (pre + group) + post == pre + (group + post);
    JoinNested(pre, group, post, axis, parts[k], pre + parts[k..], (pre + group) + post, r);
  }

  lemma CompatibleGroup<T>(pre: seq<Tensor<T>>, group: seq<Tensor<T>>, parts: seq<Tensor<T>>, k: nat, axis: nat)
    requires k < |parts| && group != [] && IsJoined(group, axis, parts[k])
    ensures Compatible((pre + group) + parts[k + 1..], axis) <==> Compatible(pre + parts[k..], axis)
  {
    var post := parts[k + 1..];
    assert pre + parts[k..] == pre + ([parts[k]] + post) && (pre + group) + post == pre + (group + post);
    CompatibleNested(pre, group, post, axis, parts[k]);
  }

  lemma {:induction false} CompatibleGroups<T>(groups: seq<seq<Tensor<T>>>, parts: seq<Tensor<T>>, axis: nat, k: nat)
    requires |groups| == |parts| && k <= |groups|
    requires forall g: nat | g < |groups| :: groups[g] != [] && IsJoined(groups[g], axis, parts[g])
    ensures Compatible(Flat(groups[..k]) + parts[k..], axis) <==> Compatible(parts, axis)
  {
    if k == 0 {
      assert Flat(groups[..0]) + parts[0..] == parts;
    } else {
      CompatibleGroups(groups, parts, axis, k - 1);
      CompatibleGroup(Flat(groups[..k - 1]), groups[k - 1], parts, k - 1, axis);
      FlatSnoc(groups, k - 1);
    }
  }

  lemma {:induction false} GroupInFlat<T>(groups: seq<seq<T>>, g: nat) returns (pre: seq<T>, post: seq<T>)
    requires g < |groups|
    ensures Flat(groups) == pre + (groups[g] + post)
  {
    var n := |groups| - 1;
    if g == n {
      pre, post := Flat(groups[..n]), [];
      assert pre + (groups[g] + post) == pre + groups[g];
    } else {
      var rest;
      pre, rest := GroupInFlat(groups[..n], g);
      post := rest + groups[n];
      assert pre + (groups[g] + rest) + groups[n] == pre + (groups[g] + post);
    }
  }

  /** So a nested concatenation and the flat one are the same array. */
  lemma NestedIsFlat<T>(groups: seq<seq<Tensor<T>>>, parts: seq<Tensor<T>>, axis: nat, nested: Tensor<T>, flat: Tensor<T>)
    requires |groups| == |parts| && Flat(groups) != []
    requires forall g: nat | g < |groups| :: IsJoined(groups[g], axis, parts[g])
    requires IsJoined(parts, axis, nested) && IsJoined(Flat(groups), axis, flat)
    ensures nested == flat
  {
    JoinGroups(groups, parts, axis, nested, |groups|);
    assert groups[..|groups|] == groups && Flat(groups) + parts[|groups|..] == Flat(groups);
    JoinedUnique(Flat(groups), axis, nested, flat);
  }
}
