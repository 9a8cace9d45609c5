/**
 Transforming every line along an axis: the lines are gathered into one batch, transformed there one
 after another, and scattered back in place.
 */
module AxisTransform {
  import opened MixedRadix
  import opened Results
  import opened Sealing
  import opened Shapes
  import opened Lines
  import opened ComplexNumbers

  // ----- where the batch keeps each element

  /** The offset in an array of the element at each position of the batch. */
  ghost function Places(s: nat, n: nat, m: nat): (p: seq<nat>)
    ensures |p| == n * (s * m)
  {
    Table(n, s, m, (j: nat, inner: nat, outer: nat) => LineOffset(s, n, inner, j, outer))
  }

  lemma PlaceAt(s: nat, n: nat, m: nat, inner: nat, j: nat, outer: nat)
    requires inner < s && j < n && outer < m
    ensures LineOffset(n, s, j, inner, outer) < n * (s * m) == s * (n * m)
    ensures Places(s, n, m)[LineOffset(n, s, j, inner, outer)] == LineOffset(s, n, inner, j, outer) < n * (s * m)
  {
    TableAt(n, s, m, (j: nat, inner: nat, outer: nat) => LineOffset(s, n, inner, j, outer), j, inner, outer);
    LineOffsetBound(s, n, m, inner, j, outer);
    SameSize(s, n, m);
  }

  lemma SameSize(s: nat, n: nat, m: nat)
    ensures n * (s * m) == s * (n * m) == (s * n) * m
  {
  }

  /** `p` lists every number below `k` once. */
  ghost predicate IsListing(p: seq<nat>, k: nat) {
    && |p| == k
    && (forall i | 0 <= i < k :: p[i] < k)
    && (forall i, j | 0 <= i < j < k :: p[i] != p[j])
    && (forall o: nat | o < k :: o in p)
  }

  /** The batch is a rearrangement: it holds every element exactly once. */
  lemma PlacesList(s: nat, n: nat, m: nat)
    ensures IsListing(Places(s, n, m), s * (n * m))
  {
    var p := Places(s, n, m);
    SameSize(s, n, m);
    forall i | 0 <= i < |p| ensures p[i] < |p| {
      var j, inner, outer := OffsetOnLine(n, s, m, i);
      PlaceAt(s, n, m, inner, j, outer);
    }
    forall i, k | 0 <= i < k < |p| ensures p[i] != p[k] {
      var j, inner, outer := OffsetOnLine(n, s, m, i);
      var j', inner', outer' := OffsetOnLine(n, s, m, k);
      PlaceAt(s, n, m, inner, j, outer);
      PlaceAt(s, n, m, inner', j', outer');
      if p[i] == p[k] {
        LineOffsetUnique(s, n, inner, j, outer, inner', j', outer');
      }
    }
    forall o: nat | o < |p| ensures o in p {
      var inner, j, outer := OffsetOnLine(s, n, m, o);
      PlaceAt(s, n, m, inner, j, outer);
    }
  }

  function Gathered<T>(values: seq<T>, places: seq<nat>): (batch: seq<T>)
    requires |places| == |values| && forall i | 0 <= i < |places| :: places[i] < |values|
    ensures |batch| == |values|
  {
    seq(|places|, i requires 0 <= i < |places| => values[places[i]])
  }

  /** `values` is the array whose elements the batch holds. */
  ghost predicate IsScattered<T>(batch: seq<T>, places: seq<nat>, values: seq<T>) {
    && |places| == |values| == |batch|
    && forall i | 0 <= i < |places| :: places[i] < |values| && values[places[i]] == batch[i]
  }

  /** Scattering undoes gathering, and only the gathered array scatters from a batch. */
  lemma ScatterGather<T>(values: seq<T>, places: seq<nat>, scattered: seq<T>)
    requires IsListing(places, |values|)
    requires IsScattered(Gathered(values, places), places, scattered)
    ensures scattered == values
  {
    forall o | 0 <= o < |values| ensures scattered[o] == values[o] {
      assert o in places;
      var i :| 0 <= i < |places| && places[i] == o;
      assert scattered[places[i]] == Gathered(values, places)[i];
    }
  }

  // ----- gathering

  ghost predicate SealedPlaces(s: nat, n: nat, m: nat, places: seq<nat>) {
    forall k {:trigger Unseal(k)} :: Unseal(k) ==> places == Places(s, n, m)
  }

  method ElementOffset(s: nat, n: nat, m: nat, inner: nat, j: nat, outer: nat, ghost places: seq<nat>)
    returns (o: nat)
    requires SealedPlaces(s, n, m, places) && inner < s && j < n && outer < m
    ensures LineOffset(n, s, j, inner, outer) < |places|
    ensures o == places[LineOffset(n, s, j, inner, outer)]
  {
    assert Unseal(0);
    PlaceAt(s, n, m, inner, j, outer);
    o := outer * (n * s) + j * s + inner;
    OffsetForm(s, n, inner, j, outer);
  }

  lemma OffsetForm(s: nat, n: nat, inner: nat, j: nat, outer: nat)
    ensures outer * (n * s) + j * s + inner == LineOffset(s, n, inner, j, outer)
  {
    assert s * (j + n * outer) == s * j + s * (n * outer);
    assert outer * (n * s) == s * (n * outer);
  }

  method GatherLine<T>(values: seq<T>, s: nat, n: nat, m: nat, inner: nat, outer: nat,
                       output: seq<T>, ghost places: seq<nat>) returns (r: Option<seq<T>>)
    requires SealedPlaces(s, n, m, places) && IsListing(places, |values|) && inner < s && outer < m
    requires Emitted(output, Gathered(values, places), LineOffset(n, s, 0, inner, outer))
    ensures r.Some? && Emitted(r.value, Gathered(values, places), LineOffset(n, s, 0, inner + 1, outer))
  {
    var line := output;
    ghost var expected := Gathered(values, places);
    for j := 0 to n
      invariant Emitted(line, expected, LineOffset(n, s, j, inner, outer))
    {
      var o := ElementOffset(s, n, m, inner, j, outer, places);
      if o >= |values| {
        return None;
      }
      line := line + [values[o]];
    }
    NextOffset(n, s, inner, outer);
    r := Some(line);
  }

  method GatherBlock<T>(values: seq<T>, s: nat, n: nat, m: nat, outer: nat,
                        output: seq<T>, ghost places: seq<nat>) returns (r: Option<seq<T>>)
    requires SealedPlaces(s, n, m, places) && IsListing(places, |values|) && outer < m
    requires Emitted(output, Gathered(values, places), LineOffset(n, s, 0, 0, outer))
    ensures r.Some? && Emitted(r.value, Gathered(values, places), LineOffset(n, s, 0, 0, outer + 1))
  {
    var block := output;
    for inner := 0 to s
      invariant Emitted(block, Gathered(values, places), LineOffset(n, s, 0, inner, outer))
    {
      var line := GatherLine(values, s, n, m, inner, outer, block, places);
      if line.None? {
        return None;
      }
      block := line.value;
    }
    NextOffset(n, s, 0, outer);
    r := Some(block);
  }

  /** Whether the values make up whole blocks of lines. */
  predicate WholeBlocks(s: nat, n: nat, length: nat) {
    n * s > 0 && length % (n * s) == 0
  }

  lemma BlocksFill(s: nat, n: nat, length: nat)
    requires WholeBlocks(s, n, length)
    ensures length == s * (n * (length / (n * s)))
  {
    assert length == (n * s) * (length / (n * s));
    assert (n * s) * (length / (n * s)) == s * (n * (length / (n * s)));
  }

  /** Gathers the lines along an axis one after another; fails exactly when they do not fill the values. */
  method GatherAxis<T>(values: seq<T>, dims: seq<nat>, axis: nat) returns (r: Option<seq<T>>)
    ensures var s, n := Stride(dims, axis), Extent(dims, axis);
            && (r.Some? <==> WholeBlocks(s, n, |values|))
            && (r.Some? ==> var places := Places(s, n, |values| / (n * s));
                  IsListing(places, |values|) && r.value == Gathered(values, places))
  {
    var s, n := Stride(dims, axis), Extent(dims, axis);
    if n * s == 0 || |values| % (n * s) != 0 {
      return None;
    }
    var m := |values| / (n * s);
    BlocksFill(s, n, |values|);
    ghost var places := Places(s, n, m);
    PlacesList(s, n, m);
    var output := GatherBlocks(values, s, n, m, places);
    r := output;
  }

  method GatherBlocks<T>(values: seq<T>, s: nat, n: nat, m: nat, ghost places: seq<nat>) returns (r: Option<seq<T>>)
    requires SealedPlaces(s, n, m, places) && IsListing(places, |values|) && |values| == s * (n * m)
    ensures r == Some(Gathered(values, places))
  {
    var output: seq<T> := [];
    NextOffset(n, s, 0, 0);
    for outer := 0 to m
      invariant Emitted(output, Gathered(values, places), LineOffset(n, s, 0, 0, outer))
    {
      var block := GatherBlock(values, s, n, m, outer, output, places);
      if block.None? {
        return None;
      }
      output := block.value;
    }
    NextOffset(n, s, 0, m);
    SameSize(s, n, m);
    ghost var expected := Gathered(values, places);
    assert expected[..|expected|] == expected;
    r := Some(output);
  }

  // ----- scattering

  /** The first `count` elements of the batch are in place. */
  ghost predicate Placed<T>(values: seq<T>, batch: seq<T>, places: seq<nat>, count: nat) {
    && count <= |batch| == |values| && IsListing(places, |values|)
    && forall i | 0 <= i < count :: values[places[i]] == batch[i]
  }

  method ScatterLine<T>(values: array<T>, batch: seq<T>, s: nat, n: nat, m: nat, inner: nat, outer: nat,
                        input: nat, ghost places: seq<nat>) returns (next: nat)
    requires SealedPlaces(s, n, m, places) && inner < s && outer < m
    requires input == LineOffset(n, s, 0, inner, outer) && Placed(values[..], batch, places, input)
    modifies values
    ensures next == LineOffset(n, s, 0, inner + 1, outer) && Placed(values[..], batch, places, next)
  {
    next := input;
    for j := 0 to n
      invariant next == LineOffset(n, s, j, inner, outer) && Placed(values[..], batch, places, next)
    {
      var o := ElementOffset(s, n, m, inner, j, outer, places);
      values[o] := batch[next];
      next := next + 1;
    }
    NextOffset(n, s, inner, outer);
  }

  method ScatterBlocks<T>(values: array<T>, batch: seq<T>, s: nat, n: nat, m: nat, ghost places: seq<nat>)
    requires SealedPlaces(s, n, m, places) && IsListing(places, |batch|)
    requires values.Length == |batch| == s * (n * m)
    modifies values
    ensures IsScattered(batch, places, values[..])
  {
    var input := 0;
    NextOffset(n, s, 0, 0);
    for outer := 0 to m
      invariant input == LineOffset(n, s, 0, 0, outer) && Placed(values[..], batch, places, input)
    {
      for inner := 0 to s
        invariant input == LineOffset(n, s, 0, inner, outer) && Placed(values[..], batch, places, input)
      {
        input := ScatterLine(values, batch, s, n, m, inner, outer, input, places);
      }
      NextOffset(n, s, 0, outer);
    }
    NextOffset(n, s, 0, m);
    SameSize(s, n, m);
  }

  /** Writes a batch of lines back over the values; on failure nothing is written. */
  method ScatterAxis<T>(values: array<T>, batch: seq<T>, dims: seq<nat>, axis: nat) returns (ok: bool)
    modifies values
    ensures var s, n := Stride(dims, axis), Extent(dims, axis);
            && (ok <==> |batch| == values.Length && WholeBlocks(s, n, values.Length))
            && (ok ==> var places := Places(s, n, values.Length / (n * s));
                  IsListing(places, values.Length) && IsScattered(batch, places, values[..]))
            && (!ok ==> values[..] == old(values[..]))
  {
    var s, n := Stride(dims, axis), Extent(dims, axis);
    if n * s == 0 || values.Length != |batch| || values.Length % (n * s) != 0 {
      return false;
    }
    var m := values.Length / (n * s);
    BlocksFill(s, n, values.Length);
    PlacesList(s, n, m);
    ScatterBlocks(values, batch, s, n, m, Places(s, n, m));
    ok := true;
  }

  // ----- transforming

  /** A provider's transform of consecutive lines of length `n`. */
  function Chunked<T>(batch: seq<T>, n: nat, f: seq<T> -> seq<T>): seq<T>
    requires n > 0
  {
    if |batch| < n then batch else f(batch[..n]) + Chunked(batch[n..], n, f)
  }

  lemma ChunkStart(n: nat, k: nat, lo: nat)
    requires k > 0 && lo == n * k
    ensures lo - n == n * (k - 1) >= 0
  {
    assert n * k == n * (k - 1) + n;
  }

  lemma {:induction false} ChunkAt<T(!new)>(batch: seq<T>, n: nat, f: seq<T> -> seq<T>, k: nat, lo: nat)
    requires n > 0 && KeepsLength(f, n) && lo == n * k && lo + n <= |batch| == |Chunked(batch, n, f)|
    ensures Chunked(batch, n, f)[lo..lo + n] == f(batch[lo..lo + n])
  {
    var first, rest := f(batch[..n]), batch[n..];
    assert Chunked(batch, n, f) == first + Chunked(rest, n, f);
    if k > 0 {
      ChunkStart(n, k, lo);
      ChunkAt(rest, n, f, k - 1, lo - n);
      SliceOfSecond(first, Chunked(rest, n, f), n, lo);
      SliceOfSecond(batch[..n], rest, n, lo);
      assert batch == batch[..n] + rest;
    }
  }

  lemma SliceOfSecond<T>(a: seq<T>, b: seq<T>, n: nat, lo: nat)
    requires |a| == n <= lo && lo <= |b|
    ensures (a + b)[lo..lo + n] == b[lo - n..lo]
  {
  }

  lemma {:induction false} ChunkedLength<T(!new)>(batch: seq<T>, n: nat, f: seq<T> -> seq<T>, q: nat)
    requires n > 0 && KeepsLength(f, n) && |batch| == n * q
    ensures |Chunked(batch, n, f)| == |batch|
  {
    if q > 0 {
      assert n * q == n + n * (q - 1);
      ChunkedLength(batch[n..], n, f, q - 1);
    } else {
      assert batch == [];
    }
  }

  /** What becomes of one line: the inverse transform is divided by the length. */
  function TransformedLine(f: seq<Complex> -> seq<Complex>, inverse: bool, line: seq<Complex>): seq<Complex>
    requires line != []
  {
    if inverse then Scaled(f(line), 1.0 / |line| as real) else f(line)
  }

  function Scaled(values: seq<Complex>, scale: real): seq<Complex> {
    seq(|values|, i requires 0 <= i < |values| => values[i].Times(scale))
  }

  /** Every element is so many times that of the line, in both parts. */
  ghost predicate IsMultiple(values: seq<Complex>, n: nat, line: seq<Complex>) {
    && |values| == |line|
    && forall j | 0 <= j < |line| :: values[j].re == n as real * line[j].re && values[j].im == n as real * line[j].im
  }

  /** What a line becomes: what the provider makes of it, which an inverse transform divides by the length. */
  ghost predicate Becomes(f: seq<Complex> -> seq<Complex>, inverse: bool, line: seq<Complex>, after: seq<Complex>) {
    if inverse then IsMultiple(f(line), |line|, after) else after == f(line)
  }

  lemma TransformedBecomes(f: seq<Complex> -> seq<Complex>, inverse: bool, line: seq<Complex>)
    requires line != []
    ensures Becomes(f, inverse, line, TransformedLine(f, inverse, line))
  {
    if inverse {
      var after := TransformedLine(f, true, line);
      forall j | 0 <= j < |after|
        ensures f(line)[j].re == |line| as real * after[j].re && f(line)[j].im == |line| as real * after[j].im
      {
        DividedTimes(f(line)[j].re, |line|, after[j].re);
        DividedTimes(f(line)[j].im, |line|, after[j].im);
      }
    }
  }

  lemma DividedTimes(x: real, n: nat, y: real)
    requires n > 0
    ensures y == x * (1.0 / n as real) <==> x == n as real * y
  {
    var r := 1.0 / n as real;
    assert n as real * r == 1.0;
    assert n as real * (x * r) == x * (n as real * r);
    assert (n as real * y) * r == y * (n as real * r);
  }

  /** Only one line has a given multiple. */
  lemma MultipleUnique(values: seq<Complex>, n: nat, a: seq<Complex>, b: seq<Complex>)
    requires n > 0 && IsMultiple(values, n, a) && IsMultiple(values, n, b)
    ensures a == b
  {
    forall j | 0 <= j < |a| ensures a[j] == b[j] {
      DividedTimes(values[j].re, n, a[j].re);
      DividedTimes(values[j].re, n, b[j].re);
      DividedTimes(values[j].im, n, a[j].im);
      DividedTimes(values[j].im, n, b[j].im);
    }
  }

  /** On lines of a length, `g` after `f` multiplies by the length, as an unnormalised pair of transforms does. */
  ghost predicate Inverts(f: seq<Complex> -> seq<Complex>, g: seq<Complex> -> seq<Complex>, n: nat) {
    KeepsLength(f, n) && forall line: seq<Complex> | |line| == n :: IsMultiple(g(f(line)), n, line)
  }

  lemma Restores(g: seq<Complex> -> seq<Complex>, spectrum: seq<Complex>, line: seq<Complex>)
    requires |spectrum| == |line| > 0 && IsMultiple(g(spectrum), |line|, line)
    ensures TransformedLine(g, true, spectrum) == line
  {
    TransformedBecomes(g, true, spectrum);
    MultipleUnique(g(spectrum), |line|, TransformedLine(g, true, spectrum), line);
  }

  lemma InverseRestores(f: seq<Complex> -> seq<Complex>, g: seq<Complex> -> seq<Complex>, line: seq<Complex>)
    requires line != [] && Inverts(f, g, |line|)
    ensures TransformedLine(f, false, line) == f(line) && |f(line)| == |line| && TransformedLine(g, true, f(line)) == line
  {
    assert IsMultiple(g(f(line)), |line|, line);
    Restores(g, f(line), line);
  }

  method ScaleBatch(batch: seq<Complex>, scale: real) returns (r: seq<Complex>)
    ensures r == Scaled(batch, scale)
  {
    r := batch;
    for i := 0 to |batch|
      invariant |r| == |batch| && r[..i] == Scaled(batch, scale)[..i] && r[i..] == batch[i..]
    {
      r := r[i := batch[i].Times(scale)];
    }
  }

  /** Element `j` of line (`inner`, `outer`) is element `j` of chunk `k` of the batch. */
  lemma BatchPosition(s: nat, n: nat, m: nat, inner: nat, j: nat, outer: nat, k: nat, places: seq<nat>)
    requires inner < s && j < n && outer < m && k == inner + s * outer && places == Places(s, n, m)
    ensures n * k + j < |places| && places[n * k + j] == LineOffset(s, n, inner, j, outer)
  {
    PlaceAt(s, n, m, inner, j, outer);
    assert LineOffset(n, s, j, inner, outer) == n * k + j;
  }

  lemma ChunkFits(s: nat, n: nat, m: nat, inner: nat, outer: nat, k: nat)
    requires inner < s && outer < m && k == inner + s * outer
    ensures k < s * m && n * k + n <= n * (s * m) == s * (n * m)
  {
    BoundByRest(inner, s, outer, m);
    SameSize(s, n, m);
    NextMultiple(n, k, s * m);
  }

  lemma NextMultiple(n: nat, k: nat, q: nat)
    requires k < q
    ensures n * k + n <= n * q
  {
    assert n * (k + 1) <= n * q;
  }

  /** A line is a chunk of the batch. */
  lemma LineOfBatch<T>(values: seq<T>, batch: seq<T>, s: nat, n: nat, m: nat, inner: nat, outer: nat, k: nat,
                       places: seq<nat>, line: seq<T>, lo: nat)
    requires |values| == s * (n * m) && inner < s && outer < m && k == inner + s * outer && lo == n * k
    requires places == Places(s, n, m) && IsScattered(batch, places, values)
    requires line == Line(values, s, n, m, inner, outer) && lo + n <= |batch|
    ensures batch[lo..lo + n] == line
  {
    forall j: nat | j < n ensures batch[lo + j] == line[j] {
      BatchPosition(s, n, m, inner, j, outer, k, places);
      LineAt(values, s, n, m, inner, outer, j);
    }
  }

  /** The batch of transformed lines. */
  function TransformedBatch(f: seq<Complex> -> seq<Complex>, inverse: bool, batch: seq<Complex>, n: nat): seq<Complex>
    requires n > 0
  {
    if inverse then Scaled(Chunked(batch, n, f), 1.0 / n as real) else Chunked(batch, n, f)
  }

  lemma TransformedChunk(f: seq<Complex> -> seq<Complex>, inverse: bool, batch: seq<Complex>, n: nat, q: nat, k: nat, lo: nat)
    requires n > 0 && KeepsLength(f, n) && |batch| == n * q && k < q && lo == n * k && lo + n <= |batch|
    ensures |TransformedBatch(f, inverse, batch, n)| == |batch|
    ensures TransformedBatch(f, inverse, batch, n)[lo..lo + n] == TransformedLine(f, inverse, batch[lo..lo + n])
  {
    ChunkedLength(batch, n, f, q);
    ChunkAt(batch, n, f, k, lo);
    ScaledSlice(Chunked(batch, n, f), 1.0 / n as real, lo, n);
  }

  lemma ScaledSlice(values: seq<Complex>, scale: real, lo: nat, n: nat)
    requires lo + n <= |values|
    ensures Scaled(values, scale)[lo..lo + n] == Scaled(values[lo..lo + n], scale)
  {
  }

  /** Gathering, transforming the batch and scattering does to every line what the transform does to it alone. */
  lemma TransformIsFibrewise(f: seq<Complex> -> seq<Complex>, inverse: bool, before: seq<Complex>, after: seq<Complex>,
                             s: nat, n: nat, m: nat, inner: nat, outer: nat, places: seq<nat>, gathered: seq<Complex>)
    requires n > 0 && KeepsLength(f, n) && |before| == s * (n * m) == |after| && inner < s && outer < m
    requires places == Places(s, n, m) && IsListing(places, |before|) && gathered == Gathered(before, places)
    requires IsScattered(TransformedBatch(f, inverse, gathered, n), places, after)
    ensures Line(after, s, n, m, inner, outer) == TransformedLine(f, inverse, Line(before, s, n, m, inner, outer))
  {
    var k := inner + s * outer;
    var lo := n * k;
    ChunkFits(s, n, m, inner, outer, k);
    TransformedChunk(f, inverse, gathered, n, s * m, k, lo);
    LineOfBatch(before, gathered, s, n, m, inner, outer, k, places, Line(before, s, n, m, inner, outer), lo);
    LineOfBatch(after, TransformedBatch(f, inverse, gathered, n), s, n, m, inner, outer, k, places,
                Line(after, s, n, m, inner, outer), lo);
  }

  /** Every line of `after` is the transform of that line of `before`. */
  ghost predicate TransformsLines(f: seq<Complex> -> seq<Complex>, inverse: bool, before: seq<Complex>, after: seq<Complex>,
                                  s: nat, n: nat, m: nat) {
    && n > 0 && |before| == s * (n * m) == |after|
    && forall inner: nat, outer: nat | inner < s && outer < m ::
         Line(after, s, n, m, inner, outer) == TransformedLine(f, inverse, Line(before, s, n, m, inner, outer))
  }

  /** Every line becomes what it should, in terms of the provider alone. */
  lemma LineBecomes(f: seq<Complex> -> seq<Complex>, inverse: bool, before: seq<Complex>, after: seq<Complex>,
                    s: nat, n: nat, m: nat, inner: nat, outer: nat)
    requires TransformsLines(f, inverse, before, after, s, n, m) && inner < s && outer < m
    ensures Becomes(f, inverse, Line(before, s, n, m, inner, outer), Line(after, s, n, m, inner, outer))
  {
    TransformedBecomes(f, inverse, Line(before, s, n, m, inner, outer));
  }

  /** If the provider's two transforms multiply every line by the length, then forward and inverse restore the array. */
  lemma TransformRoundTrip(f: seq<Complex> -> seq<Complex>, g: seq<Complex> -> seq<Complex>,
                           original: seq<Complex>, spectrum: seq<Complex>, restored: seq<Complex>, s: nat, n: nat, m: nat)
    requires n > 0 && Inverts(f, g, n)
    requires TransformsLines(f, false, original, spectrum, s, n, m)
    requires TransformsLines(g, true, spectrum, restored, s, n, m)
    ensures restored == original
  {
    forall inner: nat, outer: nat | inner < s && outer < m
      ensures Line(restored, s, n, m, inner, outer) == Line(original, s, n, m, inner, outer)
    {
      InverseRestores(f, g, Line(original, s, n, m, inner, outer));
    }
    LinesDetermine(restored, original, s, n, m);
  }

  /** Transforms every line along an axis in place; axes of extent one or less are left alone. */
  method TransformAxis(values: array<Complex>, dims: seq<nat>, axis: nat, inverse: bool, f: seq<Complex> -> seq<Complex>)
    returns (ok: bool)
    requires KeepsLength(f, Extent(dims, axis))
    modifies values
    ensures var s, n := Stride(dims, axis), Extent(dims, axis);
            && (ok <==> n <= 1 || values.Length == 0 || WholeBlocks(s, n, values.Length))
            && (ok && n > 1 && values.Length > 0 ==>
                  TransformsLines(f, inverse, old(values[..]), values[..], s, n, values.Length / (n * s))
                  && forall inner: nat, outer: nat | inner < s && outer < values.Length / (n * s) ::
                       Becomes(f, inverse, Line(old(values[..]), s, n, values.Length / (n * s), inner, outer),
                               Line(values[..], s, n, values.Length / (n * s), inner, outer)))
            && (!ok || n <= 1 ==> values[..] == old(values[..]))
  {
    var n := Extent(dims, axis);
    if n <= 1 || values.Length == 0 {
      return true;
    }
    var gathered := GatherAxis(values[..], dims, axis);
    if gathered.None? {
      return false;
    }
    ghost var s, m := Stride(dims, axis), values.Length / (n * Stride(dims, axis));
    BlocksFill(s, n, values.Length);
    SameSize(s, n, m);
    ChunkedLength(gathered.value, n, f, s * m);
    var batch := Chunked(gathered.value, n, f);
    if inverse {
      batch := ScaleBatch(batch, 1.0 / n as real);
    }
    ok := ScatterAxis(values, batch, dims, axis);
    forall inner: nat, outer: nat | inner < s && outer < m
      ensures Line(values[..], s, n, m, inner, outer)
              == TransformedLine(f, inverse, Line(old(values[..]), s, n, m, inner, outer))
    {
      TransformIsFibrewise(f, inverse, old(values[..]), values[..], s, n, m, inner, outer, Places(s, n, m),
                           gathered.value);
    }
    forall inner: nat, outer: nat | inner < s && outer < m
      ensures Becomes(f, inverse, Line(old(values[..]), s, n, m, inner, outer), Line(values[..], s, n, m, inner, outer))
    {
      LineBecomes(f, inverse, old(values[..]), values[..], s, n, m, inner, outer);
    }
  }

  /** Forward and back along an axis; the array is restored whether or not its lines can be transformed. */
  method ForwardAndBack(values: array<Complex>, dims: seq<nat>, axis: nat, f: seq<Complex> -> seq<Complex>, g: seq<Complex> -> seq<Complex>)
    returns (ok: bool)
    requires KeepsLength(f, Extent(dims, axis)) && KeepsLength(g, Extent(dims, axis))
    requires Extent(dims, axis) > 1 ==> Inverts(f, g, Extent(dims, axis))
    modifies values
    ensures values[..] == old(values[..])
    ensures ok <==> Extent(dims, axis) <= 1 || values.Length == 0 || WholeBlocks(Stride(dims, axis), Extent(dims, axis), values.Length)
  {
    ok := TransformAxis(values, dims, axis, false, f);
    if ok {
      ghost var s, n, spectrum := Stride(dims, axis), Extent(dims, axis), values[..];
      ok := TransformAxis(values, dims, axis, true, g);
      if n > 1 && values.Length > 0 {
        TransformRoundTrip(f, g, old(values[..]), spectrum, values[..], s, n, values.Length / (n * s));
      }
    }
  }
}
