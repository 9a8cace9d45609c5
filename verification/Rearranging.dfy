/**
 Flipping and circular shifting: every output offset is decoded, its coordinates are moved along their
 axes, and the element is taken from the offset they then encode.
 */
module Rearranging {
  import opened MixedRadix
  import opened Results
  import opened Shapes
  import opened Tensors

  /** Where an element comes from: its mirror image along an axis, or so many positions back along each axis. */
  datatype Move = Flip(axis: nat) | Shift(shifts: seq<int>)

  function ShiftAlong(shifts: seq<int>, axis: nat): int {
    if axis < |shifts| then shifts[axis] else 0
  }

  /** The source coordinate for an output coordinate along an axis. */
  function MoveOne(mv: Move, axis: nat, extent: nat, x: nat): (y: nat)
    requires x < extent
    ensures y < extent
  {
    match mv
    case Flip(a) => if axis == a then extent - 1 - x else x
    case Shift(shifts) => (x - ShiftAlong(shifts, axis) % extent) % extent
  }

  function Moved(mv: Move, x: seq<nat>, d: seq<nat>): (y: seq<nat>)
    requires Inside(x, d)
    ensures Inside(y, d)
  {
    seq(|d|, i requires 0 <= i < |d| => MoveOne(mv, i, d[i], x[i]))
  }

  /** The source offset for an output offset. */
  function SourceOf(mv: Move, d: seq<nat>, o: nat): (s: nat)
    requires o < Product(d)
    ensures s < Product(d)
  {
    EncodeDecode(o, d);
    EncodeBound(Moved(mv, Decode(o, d), d), d);
    Encode(Moved(mv, Decode(o, d), d), d)
  }

  function Rearranged<T>(mv: Move, src: Tensor<T>): (r: Tensor<T>)
    requires src.Valid()
    ensures r.Valid() && r.dims == src.dims
  {
    Tensor(src.dims, seq(|src.data|, o requires 0 <= o < |src.data| => src.data[SourceOf(mv, src.dims, o)]))
  }

  // ----- the loops

  /** Moves the coordinates one by one. */
  method MoveCoordinates(mv: Move, x: seq<nat>, d: seq<nat>) returns (y: seq<nat>)
    requires Inside(x, d)
    ensures y == Moved(mv, x, d)
  {
    match mv
    case Flip(axis) =>
      y := if axis < |x| && d[axis] > 0 then x[axis := d[axis] - 1 - x[axis]] else x;
    case Shift(shifts) =>
      y := x;
      for axis := 0 to |x|
        invariant |y| == |d| && forall i | 0 <= i < |d| :: y[i] == if i < axis then MoveOne(mv, i, d[i], x[i]) else x[i]
      {
        if d[axis] > 0 {
          var shift := ShiftAlong(shifts, axis) % d[axis];
          y := y[axis := (y[axis] - shift) % d[axis]];
        }
      }
  }

  /** The source offset of every output offset. */
  method MappedOffsets(mv: Move, d: seq<nat>) returns (offsets: seq<nat>)
    ensures |offsets| == Product(d)
    ensures forall o: nat | o < Product(d) :: offsets[o] == SourceOf(mv, d, o)
  {
    offsets := [];
    for o := 0 to Product(d)
      invariant |offsets| == o && forall i: nat | i < o :: offsets[i] == SourceOf(mv, d, i)
    {
      EncodeDecode(o, d);
      var x := DecodeOffset(o, d);
      var y := MoveCoordinates(mv, x, d);
      var source := EncodeCoordinates(y, d);
      offsets := offsets + [source];
    }
  }

  /** Takes the elements at the given offsets; fails with the first one that is outside. */
  method ReorderSlice<T>(input: seq<T>, offsets: seq<nat>) returns (r: Result<seq<T>, nat>)
    ensures r.Ok? <==> forall i | 0 <= i < |offsets| :: offsets[i] < |input|
    ensures r.Ok? ==> |r.value| == |offsets| && forall i | 0 <= i < |offsets| :: r.value[i] == input[offsets[i]]
    ensures r.Err? ==> exists i | 0 <= i < |offsets| ::
              r.error == offsets[i] >= |input| && forall j | 0 <= j < i :: offsets[j] < |input|
  {
    var output: seq<T> := [];
    for i := 0 to |offsets|
      invariant |output| == i && forall j | 0 <= j < i :: offsets[j] < |input| && output[j] == input[offsets[j]]
    {
      if offsets[i] >= |input| {
        return Err(offsets[i]);
      }
      output := output + [input[offsets[i]]];
    }
    r := Ok(output);
  }

  /** Rearranges an array; no mapped offset is ever outside it, and every element is where the move takes it. */
  method Rearrange<T>(mv: Move, src: Tensor<T>) returns (r: Result<Tensor<T>, nat>)
    requires src.Valid()
    ensures r == Ok(Rearranged(mv, src))
    ensures r.value.dims == src.dims && forall x: seq<nat>, y: seq<nat> | ArrivesAt(mv, src.dims, x, y) :: At(r.value, y) == At(src, x)
  {
    forall x: seq<nat>, y: seq<nat> | ArrivesAt(mv, src.dims, x, y) ensures At(Rearranged(mv, src), y) == At(src, x) {
      RearrangedArrives(mv, src, x, y);
    }
    var offsets := MappedOffsets(mv, src.dims);
    var data := ReorderSlice(src.data, offsets);
    assert data.value == Rearranged(mv, src).data;
    r := Ok(Tensor(src.dims, data.value));
  }

  // ----- laws

  lemma RearrangedAt<T>(mv: Move, src: Tensor<T>, x: seq<nat>)
    requires src.Valid() && Inside(x, src.dims)
    ensures At(Rearranged(mv, src), x) == At(src, Moved(mv, x, src.dims))
  {
    EncodeBound(x, src.dims);
    DecodeEncode(x, src.dims);
  }

  /** A move takes an element from `x` to `y`: to the mirror image along an axis, or forward around the end along each. */
  ghost predicate ArrivesAt(mv: Move, d: seq<nat>, x: seq<nat>, y: seq<nat>) {
    && Inside(x, d) && Inside(y, d)
    && match mv
       case Flip(axis) => forall a | 0 <= a < |d| :: if a == axis then y[a] == d[a] - 1 - x[a] else y[a] == x[a]
       case Shift(shifts) => forall a | 0 <= a < |d| :: GoesForward(x[a], y[a], if a < |shifts| then shifts[a] else 0, d[a])
  }

  /** So many positions forward, but for whole turns. */
  ghost predicate GoesForward(x: nat, y: nat, shift: int, extent: nat) {
    extent > 0 && (x + shift - y) % extent == 0
  }

  lemma ComesBack(x: nat, y: nat, shift: int, e: nat)
    requires x < e && GoesForward(x, y, shift, e)
    ensures (y - shift % e) % e == x
  {
    var q := Turns(x + shift - y, e, 0);
    var u := Turns(shift, e, shift % e);
    assert y - shift % e == x + e * (u - q) by {
      assert e * (u - q) == e * u - e * q;
    }
    SameRemainder(x, e, u - q);
    SmallRemainder(x, e);
  }

  lemma RearrangedArrives<T>(mv: Move, src: Tensor<T>, x: seq<nat>, y: seq<nat>)
    requires src.Valid() && ArrivesAt(mv, src.dims, x, y)
    ensures At(Rearranged(mv, src), y) == At(src, x)
  {
    RearrangedAt(mv, src, y);
    forall a | 0 <= a < |src.dims| ensures Moved(mv, y, src.dims)[a] == x[a] {
      if mv.Shift? {
        ComesBack(x[a], y[a], ShiftAlong(mv.shifts, a), src.dims[a]);
      }
    }
    assert Moved(mv, y, src.dims) == x;
  }

  /** Along every axis, moving by `g` and then by `f` is moving by `h`. */
  ghost predicate Composes(f: Move, g: Move, h: Move, d: seq<nat>) {
    forall axis: nat, x: nat {:trigger MoveOne(h, axis, d[axis], x)} | axis < |d| && x < d[axis] ::
      MoveOne(f, axis, d[axis], MoveOne(g, axis, d[axis], x)) == MoveOne(h, axis, d[axis], x)
  }

  lemma MovedTwice(f: Move, g: Move, h: Move, d: seq<nat>, x: seq<nat>)
    requires Composes(f, g, h, d) && Inside(x, d)
    ensures Moved(f, Moved(g, x, d), d) == Moved(h, x, d)
  {
  }

  /** Two moves in a row are one move when they are so on every axis. */
  lemma MovesCompose<T>(f: Move, g: Move, h: Move, src: Tensor<T>)
    requires src.Valid() && Composes(f, g, h, src.dims)
    ensures Rearranged(g, Rearranged(f, src)) == Rearranged(h, src)
  {
    var once, twice := Rearranged(h, src), Rearranged(g, Rearranged(f, src));
    forall x: seq<nat> | Inside(x, src.dims) ensures At(twice, x) == At(once, x) {
      RearrangedAt(g, Rearranged(f, src), x);
      RearrangedAt(f, src, Moved(g, x, src.dims));
      RearrangedAt(h, src, x);
      MovedTwice(f, g, h, src.dims, x);
    }
    SameElements(twice, once);
  }

  /** The move leaves every coordinate where it is. */
  ghost predicate Stays(mv: Move, d: seq<nat>) {
    forall axis: nat, x: nat {:trigger MoveOne(mv, axis, d[axis], x)} | axis < |d| && x < d[axis] ::
      MoveOne(mv, axis, d[axis], x) == x
  }

  lemma StandsStill<T>(mv: Move, src: Tensor<T>)
    requires src.Valid() && Stays(mv, src.dims)
    ensures Rearranged(mv, src) == src
  {
    forall x: seq<nat> | Inside(x, src.dims) ensures At(Rearranged(mv, src), x) == At(src, x) {
      RearrangedAt(mv, src, x);
      assert Moved(mv, x, src.dims) == x;
    }
    SameElements(Rearranged(mv, src), src);
  }

  const STAY := Shift([])

  /** Flipping twice restores the array. */
  lemma FlipInvolution<T>(src: Tensor<T>, axis: nat)
    requires src.Valid()
    ensures Rearranged(Flip(axis), Rearranged(Flip(axis), src)) == src
  {
    forall a: nat, x: nat | a < |src.dims| && x < src.dims[a] ensures MoveOne(STAY, a, src.dims[a], x) == x {
      NoTurn(0, src.dims[a]);
      SmallRemainder(x, src.dims[a]);
    }
    StandsStill(STAY, src);
    MovesCompose(Flip(axis), Flip(axis), STAY, src);
  }

  /** Total shifts along each axis. */
  function TotalShifts(s: seq<int>, t: seq<int>): (r: seq<int>)
    ensures forall axis: nat :: ShiftAlong(r, axis) == ShiftAlong(s, axis) + ShiftAlong(t, axis)
  {
    var n := if |s| < |t| then |t| else |s|;
    seq(n, i requires 0 <= i < n => ShiftAlong(s, i) + ShiftAlong(t, i))
  }

  lemma ShiftTwice(x: int, s: int, t: int, e: int)
    requires e > 0
    ensures ((x - t % e) % e - s % e) % e == (x - (s + t) % e) % e
  {
    var u, v, w := TurnsOfSum(s, t, e, s % e, t % e, (s + t) % e);
    ShiftTwiceBy(x, e, u, v, w, s % e, t % e, (s + t) % e);
  }

  lemma TurnsOfSum(s: int, t: int, e: int, rs: int, rt: int, total: int) returns (u: int, v: int, w: int)
    requires e > 0 && rs == s % e && rt == t % e && total == (s + t) % e
    ensures e * u + rs + (e * v + rt) == e * w + total
  {
    u := Turns(s, e, rs);
    v := Turns(t, e, rt);
    w := Turns(s + t, e, total);
  }

  lemma Turns(a: int, e: int, r: int) returns (q: int)
    requires e > 0 && r == a % e
    ensures a == e * q + r
  {
    q := a / e;
  }

  lemma ShiftTwiceBy(x: int, e: int, u: int, v: int, w: int, rs: int, rt: int, total: int)
    requires e > 0 && e * u + rs + (e * v + rt) == e * w + total
    ensures ((x - rt) % e - rs) % e == (x - total) % e
  {
    var p := Turns(x - rt, e, (x - rt) % e);
    CollectTurns(x, e, p, u, v, w, rs, rt, total, (x - rt) % e);
    SameRemainder((x - rt) % e - rs, e, p - u - v + w);
  }

  lemma CollectTurns(x: int, e: int, p: int, u: int, v: int, w: int, rs: int, rt: int, total: int, rx: int)
    requires e * u + rs + (e * v + rt) == e * w + total && x - rt == e * p + rx
    ensures x - total == rx - rs + e * (p - u - v + w)
  {
    assert e * (p - u - v + w) == e * p - e * u - e * v + e * w;
  }

  lemma SameRemainder(y: int, e: int, k: int)
    requires e > 0
    ensures (y + e * k) % e == y % e
  {
    var q := (y + e * k) / e - y / e - k;
    assert e * q == y % e - (y + e * k) % e by {
      assert y + e * k == e * ((y + e * k) / e) + (y + e * k) % e && y == e * (y / e) + y % e;
      assert e * q == e * ((y + e * k) / e) - e * (y / e) - e * k;
    }
    assert q > 0 ==> e * q >= e;
    assert q < 0 ==> e * q <= -e;
  }

  /** Shifting by `s` and then by `t` is shifting by their sum. */
  lemma ShiftsAdd<T>(src: Tensor<T>, s: seq<int>, t: seq<int>)
    requires src.Valid()
    ensures Rearranged(Shift(t), Rearranged(Shift(s), src)) == Rearranged(Shift(TotalShifts(s, t)), src)
  {
    forall axis: nat, x: nat | axis < |src.dims| && x < src.dims[axis]
      ensures MoveOne(Shift(s), axis, src.dims[axis], MoveOne(Shift(t), axis, src.dims[axis], x))
              == MoveOne(Shift(TotalShifts(s, t)), axis, src.dims[axis], x)
    {
      ShiftTwice(x, ShiftAlong(s, axis), ShiftAlong(t, axis), src.dims[axis]);
    }
    MovesCompose(Shift(s), Shift(t), Shift(TotalShifts(s, t)), src);
  }

  /** Shifts by whole turns along every axis do nothing. */
  lemma WholeTurns<T>(src: Tensor<T>, s: seq<int>)
    requires src.Valid() && forall axis: nat | axis < |src.dims| && src.dims[axis] > 0 :: ShiftAlong(s, axis) % src.dims[axis] == 0
    ensures Rearranged(Shift(s), src) == src
  {
    forall axis: nat, x: nat | axis < |src.dims| && x < src.dims[axis] ensures MoveOne(Shift(s), axis, src.dims[axis], x) == x {
      assert ShiftAlong(s, axis) % src.dims[axis] == 0;
      SmallRemainder(x, src.dims[axis]);
    }
    StandsStill(Shift(s), src);
  }

  lemma NoTurn(total: int, e: int)
    requires e > 0 && (total == 0 || total == e)
    ensures total % e == 0
  {
  }

  lemma SmallRemainder(x: nat, e: nat)
    requires x < e
    ensures (x - 0) % e == x
  {
  }

  /** Opposite shifts undo each other. */
  lemma OppositeShifts<T>(src: Tensor<T>, s: seq<int>, t: seq<int>)
    requires src.Valid() && forall axis: nat | axis < |src.dims| :: ShiftAlong(t, axis) == -ShiftAlong(s, axis)
    ensures Rearranged(Shift(t), Rearranged(Shift(s), src)) == src
  {
    ShiftsAdd(src, s, t);
    forall axis: nat | axis < |src.dims| && src.dims[axis] > 0
      ensures ShiftAlong(TotalShifts(s, t), axis) % src.dims[axis] == 0
    {
      assert ShiftAlong(t, axis) == -ShiftAlong(s, axis);
      NoTurn(ShiftAlong(TotalShifts(s, t), axis), src.dims[axis]);
    }
    WholeTurns(src, TotalShifts(s, t));
  }

  /** A shift moves every element forward along each axis, around the end. */
  lemma ShiftForward<T>(src: Tensor<T>, s: seq<int>, x: seq<nat>)
    requires src.Valid() && Inside(x, src.dims)
    ensures Inside(Forward(x, s, src.dims), src.dims)
    ensures At(Rearranged(Shift(s), src), Forward(x, s, src.dims)) == At(src, x)
  {
    var y := Forward(x, s, src.dims);
    RearrangedAt(Shift(s), src, y);
    forall i | 0 <= i < |x| ensures Moved(Shift(s), y, src.dims)[i] == x[i] {
      ForthAndBack(x[i], ShiftAlong(s, i), src.dims[i]);
    }
    assert Moved(Shift(s), y, src.dims) == x;
  }

  function Forward(x: seq<nat>, s: seq<int>, d: seq<nat>): (y: seq<nat>)
    requires Inside(x, d)
    ensures Inside(y, d)
  {
    seq(|d|, i requires 0 <= i < |d| => (x[i] + ShiftAlong(s, i)) % d[i])
  }

  lemma ForthAndBack(x: nat, s: int, e: nat)
    requires x < e
    ensures ((x + s) % e - s % e) % e == x
  {
    var q := Turns(x + s, e, (x + s) % e);
    var u := Turns(s, e, s % e);
    TurnDifference(x, e, q, u, (x + s) % e, s % e);
    SameRemainder(x, e, u - q);
    SmallRemainder(x, e);
  }

  lemma TurnDifference(x: int, e: int, q: int, u: int, r: int, rs: int)
    requires x + (e * u + rs) == e * q + r
    ensures r - rs == x + e * (u - q)
  {
    assert e * (u - q) == e * u - e * q;
  }

  // ----- frequency shifts

  function FrequencyShift(extent: nat, inverse: bool): int {
    if inverse then -(extent / 2) else extent / 2
  }

  /** Half of every extent, or of one, forward or back. */
  ghost predicate IsFrequencyShift(shifts: seq<int>, d: seq<nat>, axis: Option<nat>, inverse: bool) {
    forall a: nat :: ShiftAlong(shifts, a) ==
      if axis == Some(a) || (axis == None && a < |d|) then FrequencyShift(Extent(d, a), inverse) else 0
  }

  /** The shifts of `fftshift` or `ifftshift` over one axis or all of them. */
  method FrequencyShifts(d: seq<nat>, axis: Option<nat>, inverse: bool) returns (shifts: seq<int>)
    ensures IsFrequencyShift(shifts, d, axis, inverse)
  {
    shifts := seq(|d|, _ => 0);
    match axis
    case Some(a) =>
      if |shifts| <= a {
        shifts := shifts + seq(a + 1 - |shifts|, _ => 0);
      }
      shifts := shifts[a := FrequencyShift(Extent(d, a), inverse)];
    case None =>
      for a := 0 to |d|
        invariant |shifts| == |d|
        invariant forall i | 0 <= i < |d| :: shifts[i] == if i < a then FrequencyShift(d[i], inverse) else 0
      {
        shifts := shifts[a := FrequencyShift(d[a], inverse)];
      }
  }

  /**
   `fftshift` takes the element at position 0 to position `extent / 2`, and the ones behind it along, around the
   end; `ifftshift` takes them back.
   */
  ghost predicate HalfwayAlong(extent: nat, inverse: bool, x: nat, y: nat) {
    if inverse then HalfwayAlong(extent, false, y, x)
    else y == if x + extent / 2 < extent then x + extent / 2 else x + extent / 2 - extent
  }

  ghost predicate ArrivesHalfway(d: seq<nat>, axis: Option<nat>, inverse: bool, x: seq<nat>, y: seq<nat>) {
    && Inside(x, d) && Inside(y, d)
    && forall a: nat | a < |d| ::
         if axis == None || axis == Some(a) then HalfwayAlong(d[a], inverse, x[a], y[a]) else y[a] == x[a]
  }

  lemma HalfwayForward(extent: nat, inverse: bool, x: nat, y: nat)
    requires x < extent && y < extent && HalfwayAlong(extent, inverse, x, y)
    ensures GoesForward(x, y, FrequencyShift(extent, inverse), extent)
  {
    var turns := x + FrequencyShift(extent, inverse) - y;
    WholeTurn(turns, extent);
  }

  lemma WholeTurn(turns: int, extent: nat)
    requires extent > 0 && (turns == 0 || turns == extent || turns + extent == 0)
    ensures turns % extent == 0
  {
    if turns + extent == 0 {
      SameRemainder(0, extent, -1);
    }
  }

  lemma FrequencyArrives(shifts: seq<int>, d: seq<nat>, axis: Option<nat>, inverse: bool, x: seq<nat>, y: seq<nat>)
    requires IsFrequencyShift(shifts, d, axis, inverse) && ArrivesHalfway(d, axis, inverse, x, y)
    ensures ArrivesAt(Shift(shifts), d, x, y)
  {
    forall a: nat | a < |d| ensures GoesForward(x[a], y[a], if a < |shifts| then shifts[a] else 0, d[a]) {
      assert ShiftAlong(shifts, a) == if axis == Some(a) || axis == None then FrequencyShift(d[a], inverse) else 0;
      if axis == None || axis == Some(a) {
        HalfwayForward(d[a], inverse, x[a], y[a]);
      } else {
        NoTurn(0, d[a]);
      }
    }
  }

  method FrequencyRearrange<T>(src: Tensor<T>, axis: Option<nat>, inverse: bool) returns (r: Result<Tensor<T>, nat>)
    requires src.Valid()
    ensures r.Ok? && exists shifts: seq<int> ::
              IsFrequencyShift(shifts, src.dims, axis, inverse) && r.value == Rearranged(Shift(shifts), src)
    ensures r.value.dims == src.dims
    ensures forall x: seq<nat>, y: seq<nat> | ArrivesHalfway(src.dims, axis, inverse, x, y) :: At(r.value, y) == At(src, x)
  {
    var shifts := FrequencyShifts(src.dims, axis, inverse);
    forall x: seq<nat>, y: seq<nat> | ArrivesHalfway(src.dims, axis, inverse, x, y) ensures ArrivesAt(Shift(shifts), src.dims, x, y) {
      FrequencyArrives(shifts, src.dims, axis, inverse, x, y);
    }
    r := Rearrange(Shift(shifts), src);
  }

  /** `ifftshift` undoes `fftshift` and the other way round, for odd and even extents, over one axis or all. */
  lemma FrequencyShiftsUndo<T>(src: Tensor<T>, axis: Option<nat>, inverse: bool, s: seq<int>, t: seq<int>)
    requires src.Valid()
    requires IsFrequencyShift(s, src.dims, axis, inverse) && IsFrequencyShift(t, src.dims, axis, !inverse)
    ensures Rearranged(Shift(t), Rearranged(Shift(s), src)) == src
  {
    OppositeShifts(src, s, t);
  }
}
