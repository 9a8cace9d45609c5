/**
 Inverse permutation of axes.  `order` is zero-based here: input axis `i` becomes output axis `order[i]`.
 */
module Permuting {
  import opened MixedRadix
  import opened Results
  import opened Shapes
  import opened Tensors
  import opened Coordinates

  datatype PermuteError = TooShort | NotAPermutation

  /** Every number below the length occurs; so each occurs once. */
  ghost predicate IsPermutation(order: seq<nat>) {
    && (forall i | 0 <= i < |order| :: order[i] < |order|)
    && (forall i, j | 0 <= i < j < |order| :: order[i] != order[j])
  }

  /** The validation loop over the positions already seen. */
  method CheckPermutation(order: seq<nat>) returns (ok: bool)
    ensures ok <==> IsPermutation(order)
  {
    var rank := |order|;
    var seen := seq(rank, _ => false);
    for k := 0 to rank
      invariant |seen| == rank
      invariant forall i | 0 <= i < k :: order[i] < rank && seen[order[i]]
      invariant forall a | 0 <= a < rank && seen[a] :: exists i | 0 <= i < k :: order[i] == a
      invariant forall i, j | 0 <= i < j < k :: order[i] != order[j]
    {
      if order[k] >= rank || seen[order[k]] {
        return false;
      }
      seen := seen[order[k] := true];
    }
    ok := true;
  }

  ghost function Below(k: nat): (s: set<nat>)
    ensures |s| == k && forall v: nat :: v in s <==> v < k
  {
    if k == 0 then {} else Below(k - 1) + {k - 1}
  }

  ghost function Values(order: seq<nat>): (s: set<nat>)
    ensures forall v: nat :: v in s <==> v in order
  {
    set v | v in order
  }

  lemma {:induction false} DistinctCount(order: seq<nat>)
    requires forall i, j | 0 <= i < j < |order| :: order[i] != order[j]
    ensures |Values(order)| == |order|
  {
    if order != [] {
      var last := |order| - 1;
      DistinctCount(order[..last]);
      assert order == order[..last] + [order[last]];
      assert Values(order) == Values(order[..last]) + {order[last]};
    }
  }

  /** A permutation misses no axis. */
  lemma PermutationHits(order: seq<nat>, a: nat)
    requires IsPermutation(order) && a < |order|
    ensures a in order
  {
    DistinctCount(order);
    var values, below := Values(order), Below(|order|);
    assert values <= below;
    assert |below - values| == 0;
    assert a in below && a !in below - values;
  }

  /** The coordinates, in input order, of an output element: those found at the axes `order` names. */
  function Pick(x: seq<nat>, order: seq<nat>): (y: seq<nat>)
    requires |x| == |order| && forall i | 0 <= i < |order| :: order[i] < |order|
    ensures |y| == |order|
  {
    seq(|order|, i requires 0 <= i < |order| => x[order[i]])
  }

  /** `out` has the input's extents at the axes `order` names; for a permutation there is exactly one such list. */
  lemma PickDetermines(a: seq<nat>, b: seq<nat>, order: seq<nat>)
    requires IsPermutation(order) && |a| == |b| == |order|
    requires Pick(a, order) == Pick(b, order)
    ensures a == b
  {
    forall k | 0 <= k < |order| ensures a[k] == b[k] {
      PermutationHits(order, k);
      var i :| 0 <= i < |order| && order[i] == k;
      assert Pick(a, order)[i] == Pick(b, order)[i];
    }
  }

  /** Places each input extent at its output axis. */
  method PlaceExtents(extended: seq<nat>, order: seq<nat>) returns (out: seq<nat>)
    requires IsPermutation(order) && |extended| == |order|
    ensures |out| == |order| && Pick(out, order) == extended
  {
    out := Ones(|order|);
    for i := 0 to |order|
      invariant |out| == |order| && forall j | 0 <= j < i :: out[order[j]] == extended[j]
    {
      out := out[order[i] := extended[i]];
    }
  }

  /** Source and output extents of a permuted array hold the same coordinates in different order. */
  lemma PickInside(x: seq<nat>, out: seq<nat>, order: seq<nat>)
    requires IsPermutation(order) && |out| == |order| && Inside(x, out)
    ensures Inside(Pick(x, order), Pick(out, order))
  {
  }

  /** `r` holds, over extents `out`, the elements of `data` with the coordinates picked by `order`. */
  ghost predicate Picks<T>(data: seq<T>, ext: seq<nat>, order: seq<nat>, out: seq<nat>, r: seq<T>) {
    && IsPermutation(order) && |out| == |order| && Pick(out, order) == ext
    && |data| == Product(ext) && |r| == Product(out)
    && forall x: seq<nat> {:trigger Encode(x, out)} | Inside(x, out) ::
         && Encode(x, out) < |r| && Encode(Pick(x, order), ext) < |data|
         && r[Encode(x, out)] == data[Encode(Pick(x, order), ext)]
  }

  /** Input axis `i` of `src`, trailing singletons included, is axis `order[i]` of `r`. */
  ghost predicate IsPermuted<T>(src: Tensor<T>, order: seq<nat>, r: Tensor<T>) {
    && src.Valid() && r.Valid() && |src.dims| <= |order|
    && exists out: seq<nat> :: Picks(src.data, Extended(src.dims, |order|), order, out, r.data) && r.dims == Canonical(out)
  }

  // ----- the loops

  method CheckedStrides(d: seq<nat>) returns (strides: seq<nat>)
    ensures |strides| == |d| && forall k | 0 <= k < |d| :: strides[k] == Product(d[..k])
  {
    strides := [];
    var stride := 1;
    for k := 0 to |d|
      invariant |strides| == k && stride == Product(d[..k]) && forall j | 0 <= j < k :: strides[j] == Product(d[..j])
    {
      strides := strides + [stride];
      EncodeSnoc(d, d, k);
      stride := stride * d[k];
    }
  }

  /** The source offset, summed over the input axes. */
  method SourceOffset(o: nat, ext: seq<nat>, order: seq<nat>, out: seq<nat>, inStrides: seq<nat>, outStrides: seq<nat>)
    returns (source: nat)
    requires IsPermutation(order) && |out| == |ext| == |order| && Positive(out)
    requires |inStrides| == |ext| && forall k | 0 <= k < |ext| :: inStrides[k] == Product(ext[..k])
    requires |outStrides| == |out| && forall k | 0 <= k < |out| :: outStrides[k] == Product(out[..k])
    ensures source == Encode(Pick(Decode(o, out), order), ext)
  {
    ghost var y := Pick(Decode(o, out), order);
    source := 0;
    for i := 0 to |order|
      invariant source == Encode(y[..i], ext[..i])
    {
      var axis := order[i];
      DecodeAt(o, out, axis);
      var coordinate := (o / outStrides[axis]) % out[axis];
      EncodeSnoc(y, ext, i);
      source := AddComponent(source, coordinate, inStrides[i]);
    }
    assert y[..|order|] == y && ext[..|order|] == ext;
  }

  method PickElements<T>(data: seq<T>, ext: seq<nat>, order: seq<nat>, out: seq<nat>) returns (r: Option<seq<T>>)
    requires IsPermutation(order) && |out| == |order| && Pick(out, order) == ext && |data| == Product(ext)
    ensures r.Some? && Picks(data, ext, order, out, r.value)
  {
    var inStrides := CheckedStrides(ext);
    var outStrides := CheckedStrides(out);
    var output: seq<T> := [];
    for o := 0 to Product(out)
      invariant |output| == o
      invariant forall k: nat {:trigger Decode(k, out)} | k < o ::
                  && Encode(Pick(Decode(k, out), order), ext) < |data|
                  && output[k] == data[Encode(Pick(Decode(k, out), order), ext)]
    {
      ProductPositive(out);
      var source := SourceOffset(o, ext, order, out, inStrides, outStrides);
      EncodeDecode(o, out);
      PickInside(Decode(o, out), out, order);
      EncodeBound(Pick(Decode(o, out), order), ext);
      if source >= |data| {
        return None;
      }
      output := output + [data[source]];
    }
    forall x: seq<nat> | Inside(x, out)
      ensures Encode(x, out) < |output| && Encode(Pick(x, order), ext) < |data|
      ensures output[Encode(x, out)] == data[Encode(Pick(x, order), ext)]
    {
      EncodeBound(x, out);
      DecodeEncode(x, out);
    }
    r := Some(output);
  }

  /** Coordinates of an input element, and of an output element at the axes that `order` names. */
  ghost predicate Corresponds(order: seq<nat>, x: seq<nat>, y: seq<nat>) {
    forall i | 0 <= i < |order| :: Coordinate(y, order[i]) == Coordinate(x, i)
  }

  /** The extent of input axis `i` is that of output axis `order[i]`, and so for the coordinates of every element. */
  ghost predicate HoldsPermuted<T>(src: Tensor<T>, order: seq<nat>, r: Tensor<T>)
    requires src.Valid()
  {
    && r.Valid() && |r.dims| <= (if |order| < 2 then 2 else |order|)
    && (forall i | 0 <= i < |order| :: Extent(r.dims, order[i]) == Extent(src.dims, i))
    && forall x: seq<nat>, y: seq<nat> | Within(x, src.dims) && Within(y, r.dims) && Corresponds(order, x, y) ::
         Element(r, y) == Element(src, x)
  }

  lemma PermutedElement<T>(src: Tensor<T>, order: seq<nat>, out: seq<nat>, r: Tensor<T>, x: seq<nat>, y: seq<nat>)
    requires src.Valid() && r.Valid() && 2 <= |src.dims| <= |order| && r.dims == Canonical(out)
    requires Picks(src.data, Extended(src.dims, |order|), order, out, r.data)
    requires Within(x, src.dims) && Within(y, r.dims) && Corresponds(order, x, y)
    ensures Element(r, y) == Element(src, x)
  {
    var n := |order|;
    FitOffset(x, src.dims, n);
    CanonicalSize(out);
    ExtendedCanonical(out);
    FitOffset(y, r.dims, n);
    forall i | 0 <= i < n ensures Pick(Fit(y, n), order)[i] == Fit(x, n)[i] {
      assert Coordinate(Fit(y, n), order[i]) == Coordinate(y, order[i]);
      assert Coordinate(Fit(x, n), i) == Coordinate(x, i);
    }
    assert Pick(Fit(y, n), order) == Fit(x, n);
    assert Encode(Fit(y, n), out) < |r.data|;
  }

  lemma CanonicalSize(out: seq<nat>)
    requires |out| >= 2
    ensures |Canonical(out)| <= |out|
  {
    StrippedIsCanonical(out);
  }

  lemma PermutedHolds<T>(src: Tensor<T>, order: seq<nat>, out: seq<nat>, r: Tensor<T>)
    requires src.Valid() && r.Valid() && |src.dims| <= |order| && r.dims == Canonical(out)
    requires Picks(src.data, Extended(src.dims, |order|), order, out, r.data)
    ensures HoldsPermuted(src, order, r)
  {
    CanonicalSize(out);
    CanonicalIsCanonical(out);
    forall i | 0 <= i < |order| ensures Extent(r.dims, order[i]) == Extent(src.dims, i) {
      assert Pick(out, order)[i] == Extended(src.dims, |order|)[i];
    }
    forall x: seq<nat>, y: seq<nat> | Within(x, src.dims) && Within(y, r.dims) && Corresponds(order, x, y)
      ensures Element(r, y) == Element(src, x)
    {
      PermutedElement(src, order, out, r, x, y);
    }
  }

  /** Fails exactly when the order is too short or not a permutation; no source offset is ever outside. */
  method InversePermute<T>(src: Tensor<T>, order: seq<nat>) returns (r: Result<Tensor<T>, PermuteError>)
    requires src.Valid()
    ensures r.Ok? <==> |src.dims| <= |order| && IsPermutation(order)
    ensures r.Ok? ==> IsPermuted(src, order, r.value) && HoldsPermuted(src, order, r.value)
    ensures r.Err? ==> r.error == if |order| < |src.dims| then TooShort else NotAPermutation
  {
    if |order| < |src.dims| {
      return Err(TooShort);
    }
    var ok := CheckPermutation(order);
    if !ok {
      return Err(NotAPermutation);
    }
    var extended := Extended(src.dims, |order|);
    ExtendedSize(src.dims, |order|);
    var out := PlaceExtents(extended, order);
    var data := PickElements(src.data, extended, order, out);
    CanonicalIsCanonical(out);
    r := Ok(Tensor(Canonical(out), data.value));
    PermutedHolds(src, order, out, r.value);
  }

  // ----- laws

  lemma PickPick(x: seq<nat>, q: seq<nat>, p: seq<nat>)
    requires IsPermutation(p) && IsPermutation(q) && |x| == |p| == |q|
    ensures IsPermutation(Pick(q, p)) && Pick(Pick(x, q), p) == Pick(x, Pick(q, p))
  {
    forall i, j | 0 <= i < j < |p| ensures Pick(q, p)[i] != Pick(q, p)[j] {
      assert p[i] != p[j];
    }
  }

  lemma PicksCompose<T>(a: seq<T>, ext: seq<nat>, p: seq<nat>, mid: seq<nat>, b: seq<T>, q: seq<nat>, out: seq<nat>, c: seq<T>)
    requires Picks(a, ext, p, mid, b) && Picks(b, mid, q, out, c) && |p| == |q|
    ensures Picks(a, ext, Pick(q, p), out, c)
  {
    PickPick(out, q, p);
    forall x: seq<nat> | Inside(x, out)
      ensures Encode(x, out) < |c| && Encode(Pick(x, Pick(q, p)), ext) < |a|
      ensures c[Encode(x, out)] == a[Encode(Pick(x, Pick(q, p)), ext)]
    {
      PickInside(x, out, q);
      PickPick(x, q, p);
      assert Encode(Pick(x, q), mid) < |b|;
    }
  }

  /** Permuting by `p` and then by `q` is permuting by both at once. */
  lemma PermutesCompose<T>(a: Tensor<T>, p: seq<nat>, b: Tensor<T>, q: seq<nat>, c: Tensor<T>)
    requires IsPermuted(a, p, b) && IsPermuted(b, q, c) && |p| == |q|
    ensures IsPermuted(a, Pick(q, p), c)
  {
    var mid :| Picks(a.data, Extended(a.dims, |p|), p, mid, b.data) && b.dims == Canonical(mid);
    var out :| Picks(b.data, Extended(b.dims, |q|), q, out, c.data) && c.dims == Canonical(out);
    ExtendedCanonical(mid);
    PicksCompose(a.data, Extended(a.dims, |p|), p, mid, b.data, q, out, c.data);
  }

  ghost predicate IsIdentity(order: seq<nat>) {
    forall i | 0 <= i < |order| :: order[i] == i
  }

  lemma PicksIdentity<T>(data: seq<T>, ext: seq<nat>, order: seq<nat>, out: seq<nat>, r: seq<T>)
    requires Picks(data, ext, order, out, r) && IsIdentity(order)
    ensures out == ext && r == data
  {
    assert out == ext;
    forall o | 0 <= o < |r| ensures r[o] == data[o] {
      var x := Decode(o, out);
      EncodeDecode(o, out);
      assert Pick(x, order) == x;
    }
  }

  lemma PermuteByIdentity<T>(src: Tensor<T>, order: seq<nat>, r: Tensor<T>)
    requires IsPermuted(src, order, r) && IsIdentity(order)
    ensures r == src
  {
    var out :| Picks(src.data, Extended(src.dims, |order|), order, out, r.data) && r.dims == Canonical(out);
    PicksIdentity(src.data, Extended(src.dims, |order|), order, out, r.data);
    CanonicalExtended(src.dims, |order|);
  }

  /** Permuting by an order and then by its inverse restores the array, shape and elements. */
  lemma PermuteRoundTrip<T>(a: Tensor<T>, p: seq<nat>, b: Tensor<T>, q: seq<nat>, c: Tensor<T>)
    requires IsPermuted(a, p, b) && IsPermuted(b, q, c)
    requires |p| == |q| && forall i | 0 <= i < |p| :: p[i] < |q| && q[p[i]] == i
    ensures c == a
  {
    PermutesCompose(a, p, b, q, c);
    PermuteByIdentity(a, Pick(q, p), c);
  }

  /** One order applied to one array has one result. */
  lemma PermuteUnique<T>(src: Tensor<T>, order: seq<nat>, r: Tensor<T>, r': Tensor<T>)
    requires IsPermuted(src, order, r) && IsPermuted(src, order, r')
    ensures r == r'
  {
    var ext := Extended(src.dims, |order|);
    var out :| Picks(src.data, ext, order, out, r.data) && r.dims == Canonical(out);
    var out' :| Picks(src.data, ext, order, out', r'.data) && r'.dims == Canonical(out');
    PickDetermines(out, out', order);
    forall o | 0 <= o < |r.data| ensures r.data[o] == r'.data[o] {
      EncodeDecode(o, out);
      assert Encode(Decode(o, out), out) == o;
    }
  }
}
