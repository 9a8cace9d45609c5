/**
 Concatenating arrays along an axis: a plan records which interval of the axis each input fills, and
 every output element is fetched from the input whose interval holds its coordinate.
 */
module Concatenation {
  import opened MixedRadix
  import opened Results
  import opened Sealing
  import opened Shapes
  import opened Tensors
  import opened Coordinates
  import opened Partitions
  import opened Joining

  // ----- the plan

  /** The part of the axis that one input fills, and its extents with trailing singletons. */
  datatype Interval = Interval(dims: seq<nat>, start: nat, end: nat)

  ghost predicate AllValid<T>(inputs: seq<Tensor<T>>) {
    forall i | 0 <= i < |inputs| :: inputs[i].Valid()
  }

  /** The extents along every axis up to `rank` agree with those of the first input, except along `axis`. */
  ghost predicate Agrees<T>(inputs: seq<Tensor<T>>, axis: nat, rank: nat, i: nat)
    requires i < |inputs|
  {
    forall a: nat | a < rank && a != axis :: Extent(inputs[i].dims, a) == Extent(inputs[0].dims, a)
  }

  ghost predicate IsRank<T>(inputs: seq<Tensor<T>>, axis: nat, rank: nat) {
    rank >= 2 && axis < rank && forall i | 0 <= i < |inputs| :: |inputs[i].dims| <= rank
  }

  lemma AgreesIsCompatible<T>(inputs: seq<Tensor<T>>, axis: nat, rank: nat)
    requires inputs != [] && IsRank(inputs, axis, rank)
    ensures Compatible(inputs, axis) <==> forall i: nat | i < |inputs| :: Agrees(inputs, axis, rank, i)
  {
    if forall i: nat | i < |inputs| :: Agrees(inputs, axis, rank, i) {
      forall i: nat, a: nat | i < |inputs| && a != axis ensures Extent(inputs[i].dims, a) == Extent(inputs[0].dims, a) {
        assert Agrees(inputs, axis, rank, i);
        if a >= rank {
          assert Extent(inputs[i].dims, a) == 1 && Extent(inputs[0].dims, a) == 1;
        }
      }
    }
  }

  method LargestRank<T>(inputs: seq<Tensor<T>>, axis: nat) returns (rank: nat)
    requires inputs != [] && AllValid(inputs)
    ensures IsRank(inputs, axis, rank)
  {
    rank := axis + 1;
    for i := 0 to |inputs|
      invariant axis < rank && (i > 0 ==> rank >= 2) && forall j | 0 <= j < i :: |inputs[j].dims| <= rank
    {
      if |inputs[i].dims| > rank {
        rank := |inputs[i].dims|;
      }
      assert inputs[i].Valid();
    }
  }

  /** The intervals of the first inputs, given where all of them start. */
  ghost predicate AreIntervals<T>(inputs: seq<Tensor<T>>, rank: nat, exts: seq<nat>, starts: seq<nat>, intervals: seq<Interval>) {
    && |intervals| <= |inputs| == |exts| < |starts|
    && forall i | 0 <= i < |intervals| ::
         intervals[i] == Interval(Extended(inputs[i].dims, rank), starts[i], starts[i] + exts[i])
  }

  lemma IntervalsNext<T>(inputs: seq<Tensor<T>>, rank: nat, exts: seq<nat>, starts: seq<nat>, intervals: seq<Interval>, next: Interval)
    requires AreIntervals(inputs, rank, exts, starts, intervals) && |intervals| < |inputs|
    requires var i := |intervals|; next == Interval(Extended(inputs[i].dims, rank), starts[i], starts[i] + exts[i])
    ensures AreIntervals(inputs, rank, exts, starts, intervals + [next])
  {
  }

  lemma IntervalAt<T>(inputs: seq<Tensor<T>>, rank: nat, exts: seq<nat>, starts: seq<nat>, intervals: seq<Interval>, i: nat)
    requires AreStarts(starts, exts) && AreIntervals(inputs, rank, exts, starts, intervals) && i < |intervals|
    ensures intervals[i] == Interval(Extended(inputs[i].dims, rank), Start(exts, i), Start(exts, i) + exts[i])
  {
  }

  /** Where the intervals start, and after them where the last one ends. */
  ghost predicate AreStarts(starts: seq<nat>, exts: seq<nat>) {
    |starts| == |exts| + 1 && forall i | 0 <= i <= |exts| :: starts[i] == Start(exts, i)
  }

  lemma StartsExist(exts: seq<nat>) returns (starts: seq<nat>)
    ensures AreStarts(starts, exts) && starts[0] == 0 && starts[|exts|] == Sum(exts)
    ensures forall i | 0 <= i < |exts| :: starts[i + 1] == starts[i] + exts[i]
  {
    starts := seq(|exts| + 1, i requires 0 <= i < |exts| + 1 => Start(exts, i));
    StartEnd(exts);
    forall i | 0 <= i < |exts| ensures starts[i + 1] == starts[i] + exts[i] {
      StartNext(exts, i);
    }
  }

  /** The output's extents: the common ones, and the sum along the axis. */
  ghost predicate Ready<T>(inputs: seq<Tensor<T>>, axis: nat, rank: nat, exts: seq<nat>, out: seq<nat>) {
    && inputs != [] && IsRank(inputs, axis, rank) && AllValid(inputs) && Compatible(inputs, axis)
    && exts == Extents(inputs, axis) && out == Extended(inputs[0].dims, rank)[axis := Sum(exts)]
  }

  /** Compares the extents of one input with the plan's, except along the axis. */
  method CheckExtents<T>(inputs: seq<Tensor<T>>, axis: nat, rank: nat, i: nat, dims: seq<nat>, out: seq<nat>) returns (ok: bool)
    requires i < |inputs| && IsRank(inputs, axis, rank) && dims == Extended(inputs[i].dims, rank)
    requires |out| == rank && forall a | 0 <= a < rank && a != axis :: out[a] == Extent(inputs[0].dims, a)
    ensures ok <==> Agrees(inputs, axis, rank, i)
  {
    for a := 0 to rank
      invariant forall b: nat | b < a && b != axis :: Extent(inputs[i].dims, b) == Extent(inputs[0].dims, b)
    {
      if a != axis && dims[a] != out[a] {
        return false;
      }
    }
    ok := true;
  }

  /** Fails with the first input whose extents differ from the first one's. */
  method MakeIntervals<T>(inputs: seq<Tensor<T>>, axis: nat, rank: nat, out: seq<nat>, ghost exts: seq<nat>, ghost starts: seq<nat>)
    returns (r: Result<seq<Interval>, nat>, total: nat)
    requires inputs != [] && IsRank(inputs, axis, rank) && |exts| == |inputs| < |starts| && starts[0] == 0
    requires forall i | 0 <= i < |inputs| :: exts[i] == Extent(inputs[i].dims, axis) && starts[i + 1] == starts[i] + exts[i]
    requires |out| == rank && forall a | 0 <= a < rank && a != axis :: out[a] == Extent(inputs[0].dims, a)
    ensures r.Ok? <==> forall i: nat | i < |inputs| :: Agrees(inputs, axis, rank, i)
    ensures r.Ok? ==> AreIntervals(inputs, rank, exts, starts, r.value) && |r.value| == |inputs| && total == starts[|inputs|]
    ensures r.Err? ==> r.error < |inputs| && !Agrees(inputs, axis, rank, r.error)
    ensures r.Err? ==> forall j: nat | j < r.error :: Agrees(inputs, axis, rank, j)
  {
    var intervals: seq<Interval> := [];
    total := 0;
    for i := 0 to |inputs|
      invariant |intervals| == i && total == starts[i] && AreIntervals(inputs, rank, exts, starts, intervals)
      invariant forall j: nat | j < i :: Agrees(inputs, axis, rank, j)
    {
      var dims := Extended(inputs[i].dims, rank);
      var ok := CheckExtents(inputs, axis, rank, i, dims, out);
      if !ok {
        return Err(i), total;
      }
      var end := total + dims[axis];
      IntervalsNext(inputs, rank, exts, starts, intervals, Interval(dims, total, end));
      intervals := intervals + [Interval(dims, total, end)];
      total := end;
    }
    r := Ok(intervals);
  }

  // ----- fetching the elements

  lemma SourceInside<T>(inputs: seq<Tensor<T>>, axis: nat, rank: nat, exts: seq<nat>, out: seq<nat>, x: seq<nat>, i: nat, y: seq<nat>)
    requires Ready(inputs, axis, rank, exts, out) && Inside(x, out) && i < |inputs|
    requires Start(exts, i) <= x[axis] < Start(exts, i) + exts[i] && y == x[axis := x[axis] - Start(exts, i)]
    ensures Inside(y, Extended(inputs[i].dims, rank))
    ensures Encode(y, Extended(inputs[i].dims, rank)) < |inputs[i].data|
  {
    var e := Extended(inputs[i].dims, rank);
    forall a | 0 <= a < |e| ensures y[a] < e[a] {
      if a != axis {
        assert Extent(inputs[i].dims, a) == Extent(inputs[0].dims, a);
        assert x[a] < out[a];
      }
    }
    EncodeBound(y, e);
    ExtendedSize(inputs[i].dims, rank);
    assert inputs[i].Valid();
  }

  /** The element of input `i` that comes to coordinates `x` of the output. */
  ghost function FromInput<T>(inputs: seq<Tensor<T>>, axis: nat, rank: nat, exts: seq<nat>, out: seq<nat>, x: seq<nat>, i: nat): T
    requires Ready(inputs, axis, rank, exts, out) && Inside(x, out) && i < |inputs|
    requires Start(exts, i) <= x[axis] < Start(exts, i) + exts[i]
  {
    var y := x[axis := x[axis] - Start(exts, i)];
    SourceInside(inputs, axis, rank, exts, out, x, i, y);
    inputs[i].data[Encode(y, Extended(inputs[i].dims, rank))]
  }

  /** The element that comes to coordinates `x` of the output. */
  ghost function JoinedAt<T>(inputs: seq<Tensor<T>>, axis: nat, rank: nat, exts: seq<nat>, out: seq<nat>, x: seq<nat>): T
    requires Ready(inputs, axis, rank, exts, out) && Inside(x, out)
  {
    assert x[axis] < out[axis];
    FromInput(inputs, axis, rank, exts, out, x, Locate(exts, x[axis]))
  }

  /** `data` holds the element that comes there at every offset. */
  ghost predicate HoldsJoined<T>(inputs: seq<Tensor<T>>, axis: nat, rank: nat, exts: seq<nat>, out: seq<nat>, data: seq<T>) {
    && Ready(inputs, axis, rank, exts, out) && |data| == Product(out)
    && forall x: seq<nat> {:trigger Encode(x, out)} | Inside(x, out) ::
         Encode(x, out) < |data| && data[Encode(x, out)] == JoinedAt(inputs, axis, rank, exts, out, x)
  }

  lemma JoinedExists<T>(inputs: seq<Tensor<T>>, axis: nat, rank: nat, exts: seq<nat>, out: seq<nat>) returns (data: seq<T>)
    requires Ready(inputs, axis, rank, exts, out)
    ensures HoldsJoined(inputs, axis, rank, exts, out, data)
  {
    data := seq(Product(out), o requires 0 <= o < Product(out) =>
      EncodeDecode(o, out); JoinedAt(inputs, axis, rank, exts, out, Decode(o, out)));
    forall x: seq<nat> | Inside(x, out)
      ensures Encode(x, out) < |data| && data[Encode(x, out)] == JoinedAt(inputs, axis, rank, exts, out, x)
    {
      EncodeBound(x, out);
      DecodeEncode(x, out);
    }
  }

  /** `HoldsJoined`, to be looked into only where `Unseal` is mentioned. */
  ghost predicate SealedJoined<T>(inputs: seq<Tensor<T>>, axis: nat, rank: nat, exts: seq<nat>, out: seq<nat>, data: seq<T>) {
    forall k {:trigger Unseal(k)} :: Unseal(k) ==> HoldsJoined(inputs, axis, rank, exts, out, data)
  }

  /** Exactly one interval holds the coordinate. */
  lemma OneInterval<T>(inputs: seq<Tensor<T>>, intervals: seq<Interval>, coordinate: nat, rank: nat, exts: seq<nat>, starts: seq<nat>)
    requires AreStarts(starts, exts) && coordinate < Sum(exts)
    requires AreIntervals(inputs, rank, exts, starts, intervals) && |intervals| == |inputs|
    ensures forall k | 0 <= k < |intervals| ::
              intervals[k].start <= coordinate < intervals[k].end <==> k == Locate(exts, coordinate)
  {
    forall k | 0 <= k < |intervals|
      ensures intervals[k].start <= coordinate < intervals[k].end <==> k == Locate(exts, coordinate)
    {
      assert intervals[k].start == Start(exts, k);
      if intervals[k].start <= coordinate < intervals[k].end {
        LocateUnique(exts, k, coordinate);
      }
    }
  }

  /** The first interval that holds the coordinate. */
  method FindInterval(intervals: seq<Interval>, coordinate: nat, ghost only: nat) returns (i: Option<nat>)
    requires only < |intervals|
    requires forall k | 0 <= k < |intervals| :: intervals[k].start <= coordinate < intervals[k].end <==> k == only
    ensures i == Some(only)
  {
    for k := 0 to |intervals|
      invariant k <= only
    {
      if intervals[k].start <= coordinate < intervals[k].end {
        return Some(k);
      }
    }
    i := None;
  }

  lemma JoinedFromInput<T>(inputs: seq<Tensor<T>>, axis: nat, rank: nat, exts: seq<nat>, out: seq<nat>, x: seq<nat>, i: nat)
    requires Ready(inputs, axis, rank, exts, out) && Inside(x, out) && i < |inputs|
    requires Start(exts, i) <= x[axis] < Start(exts, i) + exts[i]
    ensures JoinedAt(inputs, axis, rank, exts, out, x) == FromInput(inputs, axis, rank, exts, out, x, i)
  {
    LocateUnique(exts, i, x[axis]);
  }

  lemma JoinedFrom<T>(inputs: seq<Tensor<T>>, axis: nat, rank: nat, exts: seq<nat>, out: seq<nat>, x: seq<nat>, i: nat, y: seq<nat>)
    requires Ready(inputs, axis, rank, exts, out) && Inside(x, out) && i < |inputs|
    requires Start(exts, i) <= x[axis] < Start(exts, i) + exts[i] && y == x[axis := x[axis] - Start(exts, i)]
    ensures |y| == |Extended(inputs[i].dims, rank)| && Encode(y, Extended(inputs[i].dims, rank)) < |inputs[i].data|
    ensures JoinedAt(inputs, axis, rank, exts, out, x) == inputs[i].data[Encode(y, Extended(inputs[i].dims, rank))]
  {
    SourceInside(inputs, axis, rank, exts, out, x, i, y);
    JoinedFromInput(inputs, axis, rank, exts, out, x, i);
  }

  method FetchFrom<T>(data: seq<T>, dims: seq<nat>, y: seq<nat>) returns (v: Option<T>)
    requires |y| == |dims|
    ensures v == if Encode(y, dims) < |data| then Some(data[Encode(y, dims)]) else None
  {
    var offset := EncodeCoordinates(y, dims);
    v := if offset < |data| then Some(data[offset]) else None;
  }

  lemma AxisInRange<T>(inputs: seq<Tensor<T>>, axis: nat, rank: nat, exts: seq<nat>, out: seq<nat>, expected: seq<T>, o: nat, x: seq<nat>)
    requires SealedJoined(inputs, axis, rank, exts, out, expected) && o < |expected| && x == Decode(o, out)
    ensures Ready(inputs, axis, rank, exts, out) && Inside(x, out) && axis < |x| && x[axis] < Sum(exts)
    ensures expected[o] == JoinedAt(inputs, axis, rank, exts, out, x)
  {
    assert Unseal(0);
    EncodeDecode(o, out);
    assert x[axis] < out[axis];
  }

  lemma SourceValue<T>(inputs: seq<Tensor<T>>, axis: nat, rank: nat, exts: seq<nat>, out: seq<nat>, expected: seq<T>, o: nat, x: seq<nat>,
                       i: nat, y: seq<nat>)
    requires SealedJoined(inputs, axis, rank, exts, out, expected) && o < |expected| && x == Decode(o, out)
    requires i < |inputs| == |exts| && axis < |x|
    requires Start(exts, i) <= x[axis] < Start(exts, i) + exts[i] && y == x[axis := x[axis] - Start(exts, i)]
    ensures |y| == |Extended(inputs[i].dims, rank)| && Encode(y, Extended(inputs[i].dims, rank)) < |inputs[i].data|
    ensures expected[o] == inputs[i].data[Encode(y, Extended(inputs[i].dims, rank))]
  {
    AxisInRange(inputs, axis, rank, exts, out, expected, o, x);
    JoinedFrom(inputs, axis, rank, exts, out, x, i, y);
  }

  /** Where the element at an output offset comes from. */
  lemma SourceOf<T>(inputs: seq<Tensor<T>>, axis: nat, intervals: seq<Interval>, out: seq<nat>, o: nat,
                    rank: nat, exts: seq<nat>, starts: seq<nat>, expected: seq<T>, x: seq<nat>) returns (i: nat, y: seq<nat>)
    requires SealedJoined(inputs, axis, rank, exts, out, expected) && o < |expected| && x == Decode(o, out)
    requires AreStarts(starts, exts) && AreIntervals(inputs, rank, exts, starts, intervals) && |intervals| == |inputs|
    ensures axis < |x| && i < |inputs|
    ensures forall k | 0 <= k < |intervals| :: intervals[k].start <= x[axis] < intervals[k].end <==> k == i
    ensures x[axis] >= intervals[i].start && y == x[axis := x[axis] - intervals[i].start] && |y| == |intervals[i].dims|
    ensures Encode(y, intervals[i].dims) < |inputs[i].data|
    ensures inputs[i].data[Encode(y, intervals[i].dims)] == expected[o]
  {
    assert axis < |x| && x[axis] < Sum(exts) by {
      AxisInRange(inputs, axis, rank, exts, out, expected, o, x);
    }
    i := Locate(exts, x[axis]);
    OneInterval(inputs, intervals, x[axis], rank, exts, starts);
    IntervalAt(inputs, rank, exts, starts, intervals, i);
    y := x[axis := x[axis] - intervals[i].start];
    SourceValue(inputs, axis, rank, exts, out, expected, o, x, i, y);
  }

  /** Decodes an output offset, finds the input it belongs to and fetches the element. */
  method Fetch<T>(inputs: seq<Tensor<T>>, axis: nat, intervals: seq<Interval>, out: seq<nat>, o: nat,
                  ghost rank: nat, ghost exts: seq<nat>, ghost starts: seq<nat>, ghost expected: seq<T>) returns (v: Option<T>)
    requires SealedJoined(inputs, axis, rank, exts, out, expected) && o < |expected|
    requires AreStarts(starts, exts) && AreIntervals(inputs, rank, exts, starts, intervals) && |intervals| == |inputs|
    ensures v == Some(expected[o])
  {
    var x := DecodeOffset(o, out);
    ghost var i, y := SourceOf(inputs, axis, intervals, out, o, rank, exts, starts, expected, x);
    var found := FindInterval(intervals, x[axis], i);
    var k := found.value;
    v := FetchFrom(inputs[k].data, intervals[k].dims, x[axis := x[axis] - intervals[k].start]);
  }

  method ConcatMap<T>(inputs: seq<Tensor<T>>, axis: nat, intervals: seq<Interval>, out: seq<nat>,
                      ghost rank: nat, ghost exts: seq<nat>, ghost starts: seq<nat>, ghost expected: seq<T>) returns (r: Option<seq<T>>)
    requires SealedJoined(inputs, axis, rank, exts, out, expected) && |expected| == Product(out)
    requires AreStarts(starts, exts) && AreIntervals(inputs, rank, exts, starts, intervals) && |intervals| == |inputs|
    ensures r == Some(expected)
  {
    var output: seq<T> := [];
    for o := 0 to Product(out)
      invariant |output| == o && output == expected[..o]
    {
      var v := Fetch(inputs, axis, intervals, out, o, rank, exts, starts, expected);
      if v.None? {
        return None;
      }
      output := output + [v.value];
    }
    assert expected[..|expected|] == expected;
    r := Some(output);
  }

  // ----- the result is the concatenation

  lemma HoldsIsJoined<T>(inputs: seq<Tensor<T>>, axis: nat, rank: nat, exts: seq<nat>, out: seq<nat>, data: seq<T>, r: Tensor<T>)
    requires HoldsJoined(inputs, axis, rank, exts, out, data) && r == Tensor(Canonical(out), data)
    ensures IsJoined(inputs, axis, r)
  {
    CanonicalIsCanonical(out);
    forall i: nat | i < |inputs| ensures IsSlice(r, axis, Start(Extents(inputs, axis), i), inputs[i]) {
      InputIsSlice(inputs, axis, rank, exts, out, data, r, i, Start(exts, i));
    }
    JoinedFromStarts(inputs, axis, r);
  }

  lemma InputIsSlice<T>(inputs: seq<Tensor<T>>, axis: nat, rank: nat, exts: seq<nat>, out: seq<nat>, data: seq<T>, r: Tensor<T>,
                        i: nat, start: nat)
    requires HoldsJoined(inputs, axis, rank, exts, out, data) && r == Tensor(Canonical(out), data) && r.Valid()
    requires i < |inputs| && start == Start(exts, i)
    ensures IsSlice(r, axis, start, inputs[i])
  {
    assert inputs[i].Valid();
    IntervalFits(exts, i);
    SliceExtents(inputs, axis, rank, exts, out, i);
    forall x: seq<nat> | Within(x, inputs[i].dims)
      ensures Within(Along(x, axis, start), r.dims) && Element(r, Along(x, axis, start)) == Element(inputs[i], x)
    {
      forall a: nat ensures Coordinate(Along(x, axis, start), a) < Extent(r.dims, a) {
        assert Coordinate(x, a) < Extent(inputs[i].dims, a);
      }
      ElementFetched(inputs, axis, rank, exts, out, data, r, i, start, x);
    }
  }

  lemma IntervalFits(exts: seq<nat>, i: nat)
    requires i < |exts|
    ensures Start(exts, i) + exts[i] <= Sum(exts)
  {
    StartNext(exts, i);
    StartMonotone(exts, i + 1, |exts|);
    StartEnd(exts);
  }

  lemma SliceExtents<T>(inputs: seq<Tensor<T>>, axis: nat, rank: nat, exts: seq<nat>, out: seq<nat>, i: nat)
    requires Ready(inputs, axis, rank, exts, out) && i < |inputs|
    ensures forall a: nat | a != axis :: Extent(inputs[i].dims, a) == Extent(Canonical(out), a)
    ensures Extent(Canonical(out), axis) == Sum(exts)
  {
    CanonicalIsCanonical(out);
    forall a: nat | a != axis ensures Extent(inputs[i].dims, a) == Extent(Canonical(out), a) {
      assert Extent(inputs[i].dims, a) == Extent(inputs[0].dims, a);
      assert Extent(out, a) == Extent(inputs[0].dims, a);
    }
  }

  lemma ElementFetched<T>(inputs: seq<Tensor<T>>, axis: nat, rank: nat, exts: seq<nat>, out: seq<nat>, data: seq<T>, r: Tensor<T>,
                          i: nat, start: nat, x: seq<nat>)
    requires HoldsJoined(inputs, axis, rank, exts, out, data) && r == Tensor(Canonical(out), data) && r.Valid()
    requires i < |inputs| && start == Start(exts, i) && inputs[i].Valid()
    requires Within(x, inputs[i].dims) && Within(Along(x, axis, start), r.dims)
    ensures Element(r, Along(x, axis, start)) == Element(inputs[i], x)
  {
    var z := Fit(Along(x, axis, start), rank);
    CanonicalIsCanonical(out);
    ExtendedCanonical(out);
    FitOffset(Along(x, axis, start), r.dims, rank);
    FitOffset(x, inputs[i].dims, rank);
    assert Encode(z, out) == OffsetFrom(Along(x, axis, start), r.dims);
    JoinedAtInput(inputs, axis, rank, exts, out, i, start, x, z);
  }

  lemma JoinedAtInput<T>(inputs: seq<Tensor<T>>, axis: nat, rank: nat, exts: seq<nat>, out: seq<nat>, i: nat, start: nat,
                         x: seq<nat>, z: seq<nat>)
    requires Ready(inputs, axis, rank, exts, out) && i < |inputs| && start == Start(exts, i)
    requires Within(x, inputs[i].dims) && z == Fit(Along(x, axis, start), rank) && Inside(z, out)
    requires Encode(Fit(x, rank), Extended(inputs[i].dims, rank)) < |inputs[i].data|
    ensures JoinedAt(inputs, axis, rank, exts, out, z) == inputs[i].data[Encode(Fit(x, rank), Extended(inputs[i].dims, rank))]
  {
    assert z[axis] == Coordinate(z, axis) == Coordinate(x, axis) + start;
    assert Coordinate(x, axis) < Extent(inputs[i].dims, axis);
    SameSource(x, axis, start, rank, z);
    JoinedFrom(inputs, axis, rank, exts, out, z, i, Fit(x, rank));
  }

  /** Moved along the axis, cut to the rank and moved back. */
  lemma SameSource(x: seq<nat>, axis: nat, start: nat, rank: nat, z: seq<nat>)
    requires axis < rank && z == Fit(Along(x, axis, start), rank) && z[axis] >= start
    ensures z[axis := z[axis] - start] == Fit(x, rank)
  {
    var y := Along(x, axis, start);
    forall a | 0 <= a < rank ensures z[axis := z[axis] - start][a] == Fit(x, rank)[a] {
      assert z[a] == Coordinate(y, a) && Fit(x, rank)[a] == Coordinate(x, a);
    }
  }

  /**
   No input gives an empty array and one input is returned as it is; otherwise compatible inputs are
   joined, and the error names the first input that does not fit.
   */
  method Concatenate<T>(inputs: seq<Tensor<T>>, axis: nat) returns (r: Result<Tensor<T>, nat>)
    requires AllValid(inputs)
    ensures inputs == [] ==> r == Ok(Nothing())
    ensures inputs != [] ==> (r.Ok? <==> Compatible(inputs, axis))
    ensures inputs != [] && r.Ok? ==> IsJoined(inputs, axis, r.value)
    ensures r.Err? ==> r.error < |inputs| && Compatible(inputs[..r.error], axis) && !Compatible(inputs[..r.error + 1], axis)
  {
    if |inputs| == 0 {
      return Ok(Nothing());
    }
    assert inputs[0].Valid();
    if |inputs| == 1 {
      SingleJoined(inputs[0], axis);
      assert inputs == [inputs[0]];
      return Ok(inputs[0]);
    }
    r := ConcatenateMany(inputs, axis);
  }

  method ConcatenateMany<T>(inputs: seq<Tensor<T>>, axis: nat) returns (r: Result<Tensor<T>, nat>)
    requires AllValid(inputs) && inputs != []
    ensures r.Ok? <==> Compatible(inputs, axis)
    ensures r.Ok? ==> IsJoined(inputs, axis, r.value)
    ensures r.Err? ==> r.error < |inputs| && Compatible(inputs[..r.error], axis) && !Compatible(inputs[..r.error + 1], axis)
  {
    var rank := LargestRank(inputs, axis);
    AgreesIsCompatible(inputs, axis, rank);
    var out := Extended(inputs[0].dims, rank)[axis := 0];
    ghost var exts := Extents(inputs, axis);
    ghost var starts := StartsExist(exts);
    var intervals, total := MakeIntervals(inputs, axis, rank, out, exts, starts);
    if intervals.Err? {
      FirstMisfit(inputs, axis, rank, intervals.error);
      return Err(intervals.error);
    }
    out := out[axis := total];
    var joined := JoinByPlan(inputs, axis, rank, intervals.value, out, exts, starts);
    r := Ok(joined);
  }

  method JoinByPlan<T>(inputs: seq<Tensor<T>>, axis: nat, ghost rank: nat, intervals: seq<Interval>, out: seq<nat>,
                       ghost exts: seq<nat>, ghost starts: seq<nat>) returns (r: Tensor<T>)
    requires Ready(inputs, axis, rank, exts, out) && AreStarts(starts, exts)
    requires AreIntervals(inputs, rank, exts, starts, intervals) && |intervals| == |inputs|
    ensures IsJoined(inputs, axis, r)
  {
    ghost var expected := JoinedExists(inputs, axis, rank, exts, out);
    var data := ConcatMap(inputs, axis, intervals, out, rank, exts, starts, expected);
    r := Tensor(Canonical(out), data.value);
    HoldsIsJoined(inputs, axis, rank, exts, out, data.value, r);
  }

  lemma FirstMisfit<T>(inputs: seq<Tensor<T>>, axis: nat, rank: nat, i: nat)
    requires IsRank(inputs, axis, rank) && i < |inputs| && !Agrees(inputs, axis, rank, i)
    requires forall j: nat | j < i :: Agrees(inputs, axis, rank, j)
    ensures Compatible(inputs[..i], axis) && !Compatible(inputs[..i + 1], axis)
  {
    assert Agrees(inputs, axis, rank, 0);
    forall j: nat | j < i ensures Agrees(inputs[..i], axis, rank, j) {
      assert Agrees(inputs, axis, rank, j);
    }
    AgreesIsCompatible(inputs[..i], axis, rank);
    assert !Agrees(inputs[..i + 1], axis, rank, i);
    AgreesIsCompatible(inputs[..i + 1], axis, rank);
  }
}
