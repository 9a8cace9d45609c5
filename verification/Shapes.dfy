/**
 Canonical array shapes and subscript conversion, with the 64-bit checks of the original arithmetic.

 A shape keeps at least two extents and no trailing singleton beyond the second.  Subscripts are
 one-based; fewer subscripts than extents collapse the remaining extents into the last one, more
 subscripts address trailing singletons.
 */
module Shapes {
  import opened MixedRadix
  import opened Results

  const U64_MAX: nat := 0xFFFF_FFFF_FFFF_FFFF

  datatype ArrayError =
    | SizeOverflow(dimension: nat, partial: nat, extent: nat)
    | OffsetOverflow
    | DataLengthMismatch(expected: nat, actual: nat)
    | NoSubscripts
    | IndexOutOfBounds(dimension: nat, index: nat, extent: nat)
    | LinearIndexOutOfBounds(index: nat, numel: nat)

  function CheckedMul(a: nat, b: nat): Option<nat> {
    if a * b <= U64_MAX then Some(a * b) else None
  }

  function CheckedAdd(a: nat, b: nat): Option<nat> {
    if a + b <= U64_MAX then Some(a + b) else None
  }

  // ----- canonical extents

  function Padded(d: seq<nat>): seq<nat> {
    if |d| == 0 then [1, 1] else if |d| == 1 then [d[0], 1] else d
  }

  function Stripped(d: seq<nat>): seq<nat>
    requires |d| >= 2
  {
    if |d| > 2 && d[|d| - 1] == 1 then Stripped(d[..|d| - 1]) else d
  }

  /** The extents that a shape built from `d` keeps. */
  function Canonical(d: seq<nat>): seq<nat> {
    Stripped(Padded(d))
  }

  predicate IsCanonical(d: seq<nat>) {
    |d| >= 2 && (|d| == 2 || d[|d| - 1] != 1)
  }

  function Ones(k: nat): seq<nat> {
    seq(k, _ => 1)
  }

  function Zeros(k: nat): seq<nat> {
    seq(k, _ => 0)
  }

  /** Extents with trailing singletons up to rank `n`. */
  function Extended(d: seq<nat>, n: nat): seq<nat> {
    if |d| >= n then d else d + Ones(n - |d|)
  }

  /** The extent along any axis; axes past the rank are singletons. */
  function Extent(d: seq<nat>, axis: nat): nat {
    if axis < |d| then d[axis] else 1
  }

  lemma {:induction false} StrippedIsCanonical(d: seq<nat>)
    requires |d| >= 2
    ensures IsCanonical(Stripped(d)) && |Stripped(d)| <= |d|
    ensures d == Stripped(d) + Ones(|d| - |Stripped(d)|)
    ensures Product(Stripped(d)) == Product(d)
  {
    if |d| > 2 && d[|d| - 1] == 1 {
      var e := d[..|d| - 1];
      StrippedIsCanonical(e);
      assert d == e + [1];
      assert Ones(|e| - |Stripped(d)|) + [1] == Ones(|d| - |Stripped(d)|);
      ProductConcat(e, [1]);
    }
  }

  lemma CanonicalIsCanonical(d: seq<nat>)
    ensures IsCanonical(Canonical(d)) && Product(Canonical(d)) == Product(d)
    ensures IsCanonical(d) ==> Canonical(d) == d
    ensures forall axis: nat :: Extent(Canonical(d), axis) == Extent(d, axis)
  {
    StrippedIsCanonical(Padded(d));
    if |d| == 1 {
      ProductConcat(d, [1]);
      assert Padded(d) == d + [1];
    }
    var c := Canonical(d);
    assert Padded(d) == c + Ones(|Padded(d)| - |c|);
    forall axis: nat ensures Extent(c, axis) == Extent(d, axis) {
    }
  }

  lemma {:induction false} OnesAndZeros(k: nat)
    ensures Product(Ones(k)) == 1 && Encode(Zeros(k), Ones(k)) == 0 && Inside(Zeros(k), Ones(k))
  {
    if k > 0 {
      OnesAndZeros(k - 1);
      assert Ones(k)[1..] == Ones(k - 1) && Zeros(k)[1..] == Zeros(k - 1);
    }
  }

  lemma {:induction false} EncodeZeros(d: seq<nat>)
    ensures Encode(Zeros(|d|), d) == 0
  {
    if d != [] {
      assert Zeros(|d|)[1..] == Zeros(|d[1..]|);
      EncodeZeros(d[1..]);
    }
  }

  /** Trailing singletons change neither the size nor any offset. */
  lemma ExtendedSameOffsets(c: seq<nat>, d: seq<nat>, k: nat)
    requires |c| == |d|
    ensures Product(d + Ones(k)) == Product(d)
    ensures Encode(c + Zeros(k), d + Ones(k)) == Encode(c, d)
  {
    OnesAndZeros(k);
    ProductConcat(d, Ones(k));
    EncodeConcat(c, Zeros(k), d, Ones(k));
  }

  // ----- shapes

  datatype Shape = Shape(dimensions: seq<nat>, strides: seq<nat>, numel: nat)
  {
    ghost predicate Valid() {
      && IsCanonical(dimensions) && |strides| == |dimensions|
      && (forall k | 0 <= k < |dimensions| :: strides[k] == Product(dimensions[..k]))
      && numel == Product(dimensions)
      && Representable(dimensions)
    }
  }

  /** Every running product of the extents fits 64 bits. */
  ghost predicate Representable(d: seq<nat>) {
    forall k | 0 <= k <= |d| :: Product(d[..k]) <= U64_MAX
  }

  /** Running products fit up to extent `k`, and multiplying by extent `k` overflows. */
  ghost predicate OverflowsAt(d: seq<nat>, k: nat) {
    && k < |d| && Product(d[..k]) * d[k] > U64_MAX
    && forall j | 0 <= j <= k :: Product(d[..j]) <= U64_MAX
  }

  lemma ProductSnoc(d: seq<nat>, k: nat)
    requires k < |d|
    ensures Product(d[..k + 1]) == Product(d[..k]) * d[k]
  {
    EncodeSnoc(d, d, k);
  }

  /** Pads to two extents and drops trailing singletons. */
  method StripExtents(extents: seq<nat>) returns (d: seq<nat>)
    ensures d == Canonical(extents) && IsCanonical(d)
  {
    d := extents;
    if |d| == 0 {
      d := [1, 1];
    } else if |d| == 1 {
      d := d + [1];
    }
    while |d| > 2 && d[|d| - 1] == 1
      invariant |d| >= 2 && Stripped(d) == Canonical(extents)
    {
      d := d[..|d| - 1];
    }
    StrippedIsCanonical(Padded(extents));
  }

  /** The running products, checked. */
  method MakeStrides(d: seq<nat>) returns (r: Result<Shape, ArrayError>)
    ensures r.Ok? <==> Representable(d)
    ensures r.Ok? ==> r.value.dimensions == d && |r.value.strides| == |d| && r.value.numel == Product(d)
    ensures r.Ok? ==> forall k | 0 <= k < |d| :: r.value.strides[k] == Product(d[..k])
    ensures r.Err? ==> exists k: nat :: OverflowsAt(d, k) && r.error == SizeOverflow(k, Product(d[..k]), d[k])
  {
    var strides, cumulative := [], 1;
    for k := 0 to |d|
      invariant |strides| == k && cumulative == Product(d[..k])
      invariant forall j | 0 <= j < k :: strides[j] == Product(d[..j])
      invariant forall j | 0 <= j <= k :: Product(d[..j]) <= U64_MAX
    {
      strides := strides + [cumulative];
      ProductSnoc(d, k);
      match CheckedMul(cumulative, d[k])
      case None =>
        assert OverflowsAt(d, k);
        assert !(Product(d[..k + 1]) <= U64_MAX);
        return Err(SizeOverflow(k, cumulative, d[k]));
      case Some(product) =>
        cumulative := product;
    }
    assert d[..|d|] == d;
    return Ok(Shape(d, strides, cumulative));
  }

  /** Builds the canonical shape of the given extents, or reports the first running product that overflows. */
  method NewShape(extents: seq<nat>) returns (r: Result<Shape, ArrayError>)
    ensures r.Ok? <==> Representable(Canonical(extents))
    ensures r.Ok? ==> r.value.Valid() && r.value.dimensions == Canonical(extents)
    ensures r.Err? ==>
      exists k: nat :: OverflowsAt(Canonical(extents), k) &&
                       r.error == SizeOverflow(k, Product(Canonical(extents)[..k]), Canonical(extents)[k])
  {
    var d := StripExtents(extents);
    r := MakeStrides(d);
  }

  // ----- what an indexing expression means

  /** The zero-based offset of a one-based linear index. */
  function LinearOffset(s: Shape, index: nat): Result<nat, ArrayError> {
    if index == 0 || index > s.numel then Err(LinearIndexOutOfBounds(index, s.numel)) else Ok(index - 1)
  }

  /** The extents seen by an expression with `count` subscripts, before any overflow check. */
  function Effective(d: seq<nat>, count: nat): (e: seq<nat>)
    requires count > 0
    ensures |e| == count
  {
    if count == 1 then [Product(d)]
    else if count < |d| then d[..count - 1] + [Product(d[count - 1..])]
    else Extended(d, count)
  }

  /** Only the collapsed extent is computed, so only it can overflow; and only when the array is empty. */
  ghost predicate CollapseFits(d: seq<nat>, count: nat) {
    1 < count < |d| ==> Representable(d[count - 1..])
  }

  /** The first extent at which collapsing leaves 64 bits, with the product before it. */
  ghost predicate IsCollapseError(d: seq<nat>, count: nat, error: ArrayError) {
    && 1 < count < |d|
    && var tail := d[count - 1..];
       exists k: nat :: OverflowsAt(tail, k) && error == SizeOverflow(count - 1 + k, Product(tail[..k]), tail[k])
  }

  predicate ValidSubscripts(subs: seq<nat>, d: seq<nat>) {
    |subs| == |d| && forall k | 0 <= k < |d| :: 1 <= subs[k] <= d[k]
  }

  /** `k` is the position of the first subscript outside its extent. */
  ghost predicate FirstInvalid(subs: seq<nat>, d: seq<nat>, k: nat) {
    && |subs| == |d| && k < |d| && !(1 <= subs[k] <= d[k])
    && forall j | 0 <= j < k :: 1 <= subs[j] <= d[j]
  }

  /** The error that a subscript list which addresses nothing leads to. */
  ghost predicate IsSubscriptError(s: Shape, subs: seq<nat>, error: ArrayError) {
    if |subs| == 0 then error == NoSubscripts
    else if |subs| == 1 then error == LinearIndexOutOfBounds(subs[0], s.numel)
    else if !CollapseFits(s.dimensions, |subs|) then IsCollapseError(s.dimensions, |subs|, error)
    else
      var d := Effective(s.dimensions, |subs|);
      exists k: nat :: FirstInvalid(subs, d, k) && error == IndexOutOfBounds(k, subs[k], d[k])
  }

  function ZeroBased(subs: seq<nat>): seq<nat>
    requires forall k | 0 <= k < |subs| :: subs[k] >= 1
  {
    seq(|subs|, k requires 0 <= k < |subs| => subs[k] - 1)
  }

  function OneBased(c: seq<nat>): seq<nat> {
    seq(|c|, k requires 0 <= k < |c| => c[k] + 1)
  }

  lemma EffectiveSameSize(d: seq<nat>, count: nat)
    requires count > 0
    ensures Product(Effective(d, count)) == Product(d)
  {
    if count == 1 {
      assert Product([Product(d)]) == Product(d);
    } else if count < |d| {
      var tail := d[count - 1..];
      ProductConcat(d[..count - 1], tail);
      assert d == d[..count - 1] + tail;
      ProductConcat(d[..count - 1], [Product(tail)]);
      assert Product([Product(tail)]) == Product(tail);
    } else {
      ExtendedSameOffsets(d, d, count - |d|);
      if |d| == count {
        assert Extended(d, count) == d;
      }
    }
  }

  lemma ProductOfPart(d: seq<nat>, j: nat, k: nat)
    requires Positive(d) && j <= k <= |d|
    ensures 0 < Product(d[j..k]) <= Product(d)
  {
    var a, b, c := d[..j], d[j..k], d[k..];
    assert d == (a + b) + c;
    ProductConcat(a + b, c);
    ProductConcat(a, b);
    ProductPositive(a);
    ProductPositive(b);
    ProductPositive(c);
    MiddleFactor(Product(a), Product(b), Product(c));
  }

  lemma MiddleFactor(a: nat, b: nat, c: nat)
    requires a > 0 && b > 0 && c > 0
    ensures b <= a * b * c
  {
    assert a * b >= 1 * b;
    assert (a * b) * c >= (a * b) * 1;
  }

  lemma NonemptyCollapseFits(s: Shape, count: nat)
    requires s.Valid() && s.numel > 0
    ensures CollapseFits(s.dimensions, count)
  {
    var d := s.dimensions;
    ProductPositive(d);
    if 1 < count < |d| {
      var tail := d[count - 1..];
      forall k | 0 <= k <= |tail| ensures Product(tail[..k]) <= U64_MAX {
        assert tail[..k] == d[count - 1..count - 1 + k];
        ProductOfPart(d, count - 1, count - 1 + k);
        assert d[..|d|] == d;
      }
    }
  }

  /** The extents seen by `count` subscripts. */
  method EffectiveDimensions(s: Shape, count: nat) returns (r: Result<seq<nat>, ArrayError>)
    requires s.Valid()
    ensures count == 0 ==> r == Err(NoSubscripts)
    ensures count > 0 ==> (r.Ok? <==> CollapseFits(s.dimensions, count))
    ensures count > 0 && r.Ok? ==> r.value == Effective(s.dimensions, count)
    ensures count > 0 && r.Err? ==> IsCollapseError(s.dimensions, count, r.error)
  {
    if count == 0 {
      return Err(NoSubscripts);
    }
    if count == 1 {
      return Ok([s.numel]);
    }
    var d := s.dimensions;
    if count < |d| {
      var tail, collapsed := d[count - 1..], 1;
      for k := 0 to |tail|
        invariant collapsed == Product(tail[..k])
        invariant forall j | 0 <= j <= k :: Product(tail[..j]) <= U64_MAX
      {
        ProductSnoc(tail, k);
        match CheckedMul(collapsed, tail[k])
        case None =>
          assert !(Product(tail[..k + 1]) <= U64_MAX) && OverflowsAt(tail, k);
          return Err(SizeOverflow(k + count - 1, collapsed, tail[k]));
        case Some(product) =>
          collapsed := product;
      }
      assert tail[..|tail|] == tail;
      return Ok(d[..count - 1] + [collapsed]);
    }
    return Ok(d + seq(count - |d|, _ => 1));
  }

  /** While subscripts stay inside their extents, no running stride or offset leaves 64 bits. */
  lemma RunningStrideFits(s: Shape, subs: seq<nat>, k: nat)
    requires s.Valid() && |subs| > 1 && CollapseFits(s.dimensions, |subs|) && k <= |subs|
    requires var d := Effective(s.dimensions, |subs|);
             |d| == |subs| && forall j | 0 <= j < k :: 1 <= subs[j] <= d[j]
    ensures var d := Effective(s.dimensions, |subs|);
            Product(d[..k]) <= U64_MAX
  {
    var full, d := s.dimensions, Effective(s.dimensions, |subs|);
    if k <= |subs| - 1 && k <= |full| {
      assert d[..k] == full[..k];
    } else if |subs| < |full| {
      assert d[..k] == d;
      EffectiveSameSize(full, |subs|);
      assert full[..|full|] == full;
    } else {
      var extra := k - |full|;
      assert d[..k] == full + Ones(extra);
      ExtendedSameOffsets(full, full, extra);
      assert full[..|full|] == full;
    }
  }

  /** The checked arithmetic of one axis; it succeeds for a coordinate inside an extent whose stride fits. */
  method CheckedStep(offset: nat, stride: nat, coordinate: nat, extent: nat) returns (r: Option<(nat, nat)>)
    requires offset < stride && coordinate < extent && stride * extent <= U64_MAX
    ensures r == Some((offset + stride * coordinate, stride * extent))
    ensures offset + stride * coordinate < stride * extent
  {
    BoundByRest(offset, stride, coordinate, extent);
    var contribution := CheckedMul(coordinate, stride);
    if contribution.None? {
      return None;
    }
    var total := CheckedAdd(offset, contribution.value);
    if total.None? {
      return None;
    }
    var next := CheckedMul(stride, extent);
    if next.None? {
      return None;
    }
    return Some((total.value, next.value));
  }

  /** The sum of the first `count` subscripts, less one each, times the strides. */
  function StrideSum(strides: seq<nat>, subs: seq<nat>, count: nat): int
    requires count <= |strides| && count <= |subs|
  {
    if count == 0 then 0 else StrideSum(strides, subs, count - 1) + (subs[count - 1] as int - 1) * strides[count - 1]
  }

  /**
   Every subscript is from one to the extent, the last one to the number of elements along all remaining axes, and
   those past the rank are one.
   */
  ghost predicate InRange(subs: seq<nat>, d: seq<nat>) {
    && subs != []
    && forall k: nat | k < |subs| ::
         1 <= subs[k] <= if k >= |d| then 1 else if k < |subs| - 1 then d[k] else Product(d[k..])
  }

  /** The offset is the sum over the strides, of as many axes as both subscripts and shape have. */
  ghost predicate IsAddress(s: Shape, subs: seq<nat>, offset: nat) {
    && InRange(subs, s.dimensions) && |s.strides| == |s.dimensions|
    && offset == StrideSum(s.strides, subs, if |subs| < |s.strides| then |subs| else |s.strides|)
  }

  lemma EffectiveRange(d: seq<nat>, subs: seq<nat>)
    requires subs != [] && |d| >= 2
    ensures ValidSubscripts(subs, Effective(d, |subs|)) <==> InRange(subs, d)
  {
    var e := Effective(d, |subs|);
    forall k: nat | k < |subs|
      ensures e[k] == if k >= |d| then 1 else if k < |subs| - 1 then d[k] else Product(d[k..])
    {
      if k == |d| - 1 == |subs| - 1 {
        assert d[k..] == [d[k]];
        Singleton(0, d[k]);
      } else if k == 0 == |subs| - 1 {
        assert d[0..] == d;
      }
    }
  }

  /** The extents before the last one seen are the shape's, and those past the rank are singletons. */
  lemma EffectivePrefix(d: seq<nat>, count: nat, k: nat)
    requires |d| >= 2 && k < count
    ensures k < |d| ==> Effective(d, count)[..k] == d[..k]
    ensures k >= |d| ==> Effective(d, count)[k] == 1
  {
  }

  lemma Share(before: nat, subscript: nat, coordinate: nat, stride: nat)
    requires subscript == coordinate + 1
    ensures before + (subscript as int - 1) * stride == before + coordinate * stride
    ensures coordinate == 0 ==> coordinate * stride == 0
  {
  }

  lemma {:induction false} SumOverStrides(strides: seq<nat>, e: seq<nat>, subs: seq<nat>, z: seq<nat>, k: nat)
    requires |e| == |subs| == |z| >= k
    requires forall j | 0 <= j < |z| :: subs[j] == z[j] + 1
    requires forall j | 0 <= j < |z| :: if j < |strides| then strides[j] == Product(e[..j]) else z[j] == 0
    ensures Encode(z[..k], e[..k]) == StrideSum(strides, subs, if k < |strides| then k else |strides|)
  {
    if k > 0 {
      SumOverStrides(strides, e, subs, z, k - 1);
      EncodeSnoc(z, e, k - 1);
      Share(Encode(z[..k - 1], e[..k - 1]), subs[k - 1], z[k - 1], Product(e[..k - 1]));
    }
  }

  lemma StrideSeen(s: Shape, e: seq<nat>, subs: seq<nat>, j: nat)
    requires s.Valid() && subs != [] && j < |subs| == |e| && e == Effective(s.dimensions, |subs|) && 1 <= subs[j] <= e[j]
    ensures if j < |s.strides| then s.strides[j] == Product(e[..j]) else subs[j] == 1
  {
    EffectivePrefix(s.dimensions, |subs|, j);
  }

  lemma OffsetIsAddress(s: Shape, subs: seq<nat>)
    requires s.Valid() && subs != [] && ValidSubscripts(subs, Effective(s.dimensions, |subs|))
    ensures IsAddress(s, subs, Encode(ZeroBased(subs), Effective(s.dimensions, |subs|)))
  {
    EffectiveRange(s.dimensions, subs);
    AddressSum(s, Effective(s.dimensions, |subs|), subs, ZeroBased(subs));
  }

  lemma AddressSum(s: Shape, e: seq<nat>, subs: seq<nat>, z: seq<nat>)
    requires s.Valid() && subs != [] && e == Effective(s.dimensions, |subs|) && ValidSubscripts(subs, e)
    requires |z| == |subs| && forall j | 0 <= j < |z| :: subs[j] == z[j] + 1
    ensures Encode(z, e) == StrideSum(s.strides, subs, if |subs| < |s.strides| then |subs| else |s.strides|)
  {
    forall j: nat | j < |z| ensures if j < |s.strides| then s.strides[j] == Product(e[..j]) else z[j] == 0 {
      StrideSeen(s, e, subs, j);
    }
    SumOverStrides(s.strides, e, subs, z, |subs|);
    assert z[..|subs|] == z && e[..|subs|] == e;
  }

  /**
   Converts one-based subscripts to a zero-based offset.  The overflow branches of the loop are never
   taken: the only errors are the ones named here, and `OffsetOverflow` is not among them.
   */
  method OffsetForSubscripts(s: Shape, subs: seq<nat>) returns (r: Result<nat, ArrayError>)
    requires s.Valid()
    ensures |subs| == 0 ==> r == Err(NoSubscripts)
    ensures |subs| == 1 ==> r == LinearOffset(s, subs[0])
    ensures |subs| > 1 ==>
              (r.Ok? <==> CollapseFits(s.dimensions, |subs|) && ValidSubscripts(subs, Effective(s.dimensions, |subs|)))
    ensures |subs| > 1 && r.Ok? ==> r.value == Encode(ZeroBased(subs), Effective(s.dimensions, |subs|))
    ensures r.Err? ==> IsSubscriptError(s, subs, r.error)
    ensures r.Ok? <==> CollapseFits(s.dimensions, |subs|) && InRange(subs, s.dimensions)
    ensures r.Ok? ==> IsAddress(s, subs, r.value)
  {
    if |subs| == 1 {
      LinearIsAddress(s, subs);
      return LinearOffset(s, subs[0]);
    }
    var dimensions := EffectiveDimensions(s, |subs|);
    if dimensions.Err? {
      return Err(dimensions.error);
    }
    r := AccumulateOffset(s, subs, dimensions.value);
    EffectiveRange(s.dimensions, subs);
    if r.Ok? {
      OffsetIsAddress(s, subs);
    }
  }

  lemma LinearIsAddress(s: Shape, subs: seq<nat>)
    requires s.Valid() && |subs| == 1
    ensures LinearOffset(s, subs[0]).Ok? <==> InRange(subs, s.dimensions)
    ensures InRange(subs, s.dimensions) ==> IsAddress(s, subs, LinearOffset(s, subs[0]).value)
  {
    var d := s.dimensions;
    assert d[0..] == d && d[..0] == [];
    assert InRange(subs, d) ==> 1 <= subs[0] <= Product(d[0..]);
    assert StrideSum(s.strides, subs, 0) == 0;
  }

  /** The checked loop over the subscripts; only a subscript out of range stops it. */
  method AccumulateOffset(ghost s: Shape, subs: seq<nat>, d: seq<nat>) returns (r: Result<nat, ArrayError>)
    requires s.Valid() && |subs| > 1 && CollapseFits(s.dimensions, |subs|) && d == Effective(s.dimensions, |subs|)
    ensures r.Ok? <==> ValidSubscripts(subs, d)
    ensures r.Ok? ==> r.value == Encode(ZeroBased(subs), d)
    ensures r.Err? ==> exists k: nat :: FirstInvalid(subs, d, k) && r.error == IndexOutOfBounds(k, subs[k], d[k])
  {
    var stride, offset := 1, 0;
    ghost var c: seq<nat> := [];
    for k := 0 to |subs|
      invariant forall j | 0 <= j < k :: 1 <= subs[j] <= d[j]
      invariant |c| == k && forall j | 0 <= j < k :: c[j] == subs[j] - 1
      invariant stride == Product(d[..k]) && offset == Encode(c, d[..k])
      invariant offset < stride <= U64_MAX
    {
      if subs[k] == 0 || subs[k] > d[k] {
        assert FirstInvalid(subs, d, k);
        return Err(IndexOutOfBounds(k, subs[k], d[k]));
      }
      RunningStrideFits(s, subs, k + 1);
      StrideStep(c, subs[k] - 1, d, k);
      c := c + [subs[k] - 1];
      var next := CheckedStep(offset, stride, subs[k] - 1, d[k]);
      if next.None? {
        return Err(OffsetOverflow);
      }
      offset, stride := next.value.0, next.value.1;
    }
    assert d[..|d|] == d && c == ZeroBased(subs);
    return Ok(offset);
  }

  lemma StrideStep(c: seq<nat>, x: nat, d: seq<nat>, k: nat)
    requires k < |d| && |c| == k
    ensures Product(d[..k + 1]) == Product(d[..k]) * d[k]
    ensures Encode(c + [x], d[..k + 1]) == Encode(c, d[..k]) + Product(d[..k]) * x
  {
    var e := d[..k];
    assert d[..k + 1] == e + [d[k]];
    ProductConcat(e, [d[k]]);
    EncodeConcat(c, [x], e, [d[k]]);
    Singleton(x, d[k]);
  }

  /** The offset that valid subscripts address. */
  function OffsetOf(d: seq<nat>, subs: seq<nat>): nat
    requires |subs| > 0 && ValidSubscripts(subs, Effective(d, |subs|))
  {
    Encode(ZeroBased(subs), Effective(d, |subs|))
  }

  /** The `count` subscripts of a linear index. */
  function SubscriptsOf(d: seq<nat>, index: nat, count: nat): seq<nat>
    requires index > 0 && count > 0
  {
    OneBased(Decode(index - 1, Effective(d, count)))
  }

  /** What valid subscripts address is below the number of elements, which 64 bits hold. */
  lemma OffsetFits(s: Shape, subs: seq<nat>)
    requires s.Valid() && subs != [] && ValidSubscripts(subs, Effective(s.dimensions, |subs|))
    ensures OffsetOf(s.dimensions, subs) < s.numel <= U64_MAX
    ensures |subs| == 1 ==> OffsetOf(s.dimensions, subs) == subs[0] - 1
  {
    OffsetInRange(s.dimensions, subs);
    assert s.dimensions[..|s.dimensions|] == s.dimensions;
    if |subs| == 1 {
      assert ZeroBased(subs) == [subs[0] - 1];
      Singleton(subs[0] - 1, s.numel);
    }
  }

  lemma NoOverflowError(s: Shape, subs: seq<nat>, error: ArrayError)
    requires IsSubscriptError(s, subs, error)
    ensures error != OffsetOverflow
  {
  }

  /** Converts one-based subscripts to a one-based linear index; the increment cannot overflow. */
  method LinearIndexForSubscripts(s: Shape, subs: seq<nat>) returns (r: Result<nat, ArrayError>)
    requires s.Valid()
    ensures r.Ok? <==> |subs| > 0 && CollapseFits(s.dimensions, |subs|)
                       && ValidSubscripts(subs, Effective(s.dimensions, |subs|))
    ensures r.Ok? ==> r.value == OffsetOf(s.dimensions, subs) + 1 && r.value <= s.numel && IsAddress(s, subs, r.value - 1)
    ensures r.Err? ==> IsSubscriptError(s, subs, r.error) && r.error != OffsetOverflow
  {
    var offset := OffsetForSubscripts(s, subs);
    if subs != [] {
      EffectiveRange(s.dimensions, subs);
    }
    if offset.Err? {
      NoOverflowError(s, subs, offset.error);
      return Err(offset.error);
    }
    OffsetFits(s, subs);
    match CheckedAdd(offset.value, 1)
    case None => return Err(OffsetOverflow);
    case Some(index) => return Ok(index);
  }

  lemma OffsetInRange(d: seq<nat>, subs: seq<nat>)
    requires |subs| > 0 && ValidSubscripts(subs, Effective(d, |subs|))
    ensures Inside(ZeroBased(subs), Effective(d, |subs|)) && OffsetOf(d, subs) < Product(d)
  {
    EncodeBound(ZeroBased(subs), Effective(d, |subs|));
    EffectiveSameSize(d, |subs|);
  }

  /** Converts a one-based linear index to `count` one-based subscripts. */
  method SubscriptsForLinearIndex(s: Shape, index: nat, count: nat) returns (r: Result<seq<nat>, ArrayError>)
    requires s.Valid()
    ensures !(1 <= index <= s.numel) ==> r == Err(LinearIndexOutOfBounds(index, s.numel))
    ensures 1 <= index <= s.numel && count == 0 ==> r == Err(NoSubscripts)
    ensures 1 <= index <= s.numel && count > 0 ==> r == Ok(SubscriptsOf(s.dimensions, index, count))
  {
    var linear := LinearOffset(s, index);
    if linear.Err? {
      return Err(linear.error);
    }
    NonemptyCollapseFits(s, count);
    var dimensions := EffectiveDimensions(s, count);
    if dimensions.Err? {
      return Err(dimensions.error);
    }
    EffectiveSameSize(s.dimensions, count);
    var subs := DecodedSubscripts(linear.value, dimensions.value);
    return Ok(subs);
  }

  /** The remainder loop over the effective extents, none of which is zero. */
  method DecodedSubscripts(start: nat, d: seq<nat>) returns (subs: seq<nat>)
    requires start < Product(d)
    ensures subs == OneBased(Decode(start, d))
  {
    var offset := start;
    subs := [];
    EncodeDecode(start, d);
    ghost var c := Decode(start, d);
    assert d[0..] == d;
    for k := 0 to |d|
      invariant subs == OneBased(c[..k]) && c[k..] == Decode(offset, d[k..])
    {
      assert d[k..][0] == d[k] && d[k..][1..] == d[k + 1..] && c[k] < d[k];
      assert c[k] == c[k..][0] == offset % d[k] && c[k + 1..] == c[k..][1..];
      OneBasedSnoc(c, k);
      subs := subs + [offset % d[k] + 1];
      offset := offset / d[k];
    }
    assert c[..|d|] == c;
  }

  lemma OneBasedSnoc(c: seq<nat>, k: nat)
    requires k < |c|
    ensures OneBased(c[..k + 1]) == OneBased(c[..k]) + [c[k] + 1]
  {
  }

  lemma DecodedIsValid(n: nat, e: seq<nat>)
    requires n < Product(e)
    ensures ValidSubscripts(OneBased(Decode(n, e)), e)
    ensures Encode(ZeroBased(OneBased(Decode(n, e))), e) == n
  {
    EncodeDecode(n, e);
    assert ZeroBased(OneBased(Decode(n, e))) == Decode(n, e);
  }

  lemma ValidIsDecoded(subs: seq<nat>, e: seq<nat>)
    requires ValidSubscripts(subs, e)
    ensures Encode(ZeroBased(subs), e) < Product(e)
    ensures OneBased(Decode(Encode(ZeroBased(subs), e), e)) == subs
  {
    EncodeBound(ZeroBased(subs), e);
    DecodeEncode(ZeroBased(subs), e);
    assert OneBased(ZeroBased(subs)) == subs;
  }

  /**
   Subscript conversion is a bijection for every subscript count: on a nonempty array, linear index to
   subscripts and subscripts to linear index undo each other.
   */
  lemma SubscriptRoundTrip(d: seq<nat>, index: nat, count: nat)
    requires count > 0 && 1 <= index <= Product(d)
    ensures var subs := SubscriptsOf(d, index, count);
            |subs| == count && ValidSubscripts(subs, Effective(d, |subs|)) && OffsetOf(d, subs) + 1 == index
  {
    EffectiveSameSize(d, count);
    DecodedIsValid(index - 1, Effective(d, count));
    AddressOver(d, SubscriptsOf(d, index, count), index - 1, Effective(d, count));
  }

  lemma AddressOver(d: seq<nat>, subs: seq<nat>, n: nat, e: seq<nat>)
    requires |subs| > 0 && e == Effective(d, |subs|) && ValidSubscripts(subs, e) && Encode(ZeroBased(subs), e) == n
    ensures ValidSubscripts(subs, Effective(d, |subs|)) && OffsetOf(d, subs) == n
  {
  }

  lemma LinearRoundTrip(d: seq<nat>, subs: seq<nat>)
    requires |subs| > 0 && ValidSubscripts(subs, Effective(d, |subs|))
    ensures 1 <= OffsetOf(d, subs) + 1 <= Product(d)
    ensures SubscriptsOf(d, OffsetOf(d, subs) + 1, |subs|) == subs
  {
    EffectiveSameSize(d, |subs|);
    ValidIsDecoded(subs, Effective(d, |subs|));
  }
}
