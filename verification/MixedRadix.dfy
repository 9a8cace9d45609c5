/**
 Column-major index arithmetic.

 An N-D array of extents `d` stores the element at coordinates `c` at offset `Encode(c, d)`; `Decode`
 is the remainder/quotient loop with which every kernel turns an offset back into coordinates.
 Both are written first extent first, as the loops run, and every other module rests on the lemmas
 proved here: the two are inverse, offsets fill `0..Product(d)`, and both split at any axis.
 */
module MixedRadix {

  /** The number of elements of an array with extents `d`. */
  function Product(d: seq<nat>): nat {
    if d == [] then 1 else d[0] * Product(d[1..])
  }

  /** Coordinates that address an element of an array with extents `d`. */
  predicate Inside(c: seq<nat>, d: seq<nat>) {
    |c| == |d| && forall i | 0 <= i < |d| :: c[i] < d[i]
  }

  /** No extent is zero. */
  predicate Positive(d: seq<nat>) {
    forall i | 0 <= i < |d| :: d[i] > 0
  }

  /** The column-major offset of coordinates `c`. */
  function Encode(c: seq<nat>, d: seq<nat>): nat
    requires |c| == |d|
  {
    if d == [] then 0 else c[0] + d[0] * Encode(c[1..], d[1..])
  }

  /** One step of the decoding loop: the coordinate along an extent, guarded for a zero extent. */
  function Digit(n: nat, extent: nat): nat {
    if extent == 0 then 0 else n % extent
  }

  /** One step of the decoding loop: what is left of the offset. */
  function Rest(n: nat, extent: nat): nat {
    if extent == 0 then n else n / extent
  }

  /** The coordinates of offset `n`. */
  function Decode(n: nat, d: seq<nat>): (c: seq<nat>)
    ensures |c| == |d|
    decreases |d|
  {
    if d == [] then [] else [Digit(n, d[0])] + Decode(Rest(n, d[0]), d[1..])
  }

  /** Adds the share of one axis to an offset. */
  function AddComponent(offset: nat, coordinate: nat, stride: nat): nat {
    offset + coordinate * stride
  }

  /** No number is listed twice. */
  ghost predicate Distinct(list: seq<nat>) {
    forall i, j | 0 <= i < j < |list| :: list[i] != list[j]
  }

  // ----- division facts

  lemma DivModUnique(r: nat, e: nat, q: nat)
    requires r < e
    ensures (r + e * q) % e == r && (r + e * q) / e == q
  {
    var n := r + e * q;
    var k := n / e - q;
    assert e * k == r - n % e;
    assert k > 0 ==> e * k >= e * 1;
    assert k < 0 ==> e * k <= e * -1;
  }

  lemma BoundByRest(r: nat, e: nat, q: nat, m: nat)
    requires r < e && q < m
    ensures r + e * q < e * m
  {
    assert e * (q + 1) <= e * m;
  }

  lemma DivLess(n: nat, e: nat, m: nat)
    requires n < e * m
    ensures e > 0 && n / e < m
  {
    var k := n / e - m;
    assert e * k == e * (n / e) - e * m < 0;
    assert k >= 0 ==> e * k >= 0;
  }

  // ----- the bijection between coordinates and offsets

  lemma {:induction false} EncodeBound(c: seq<nat>, d: seq<nat>)
    requires Inside(c, d)
    ensures Encode(c, d) < Product(d)
  {
    if d != [] {
      EncodeBound(c[1..], d[1..]);
      BoundByRest(c[0], d[0], Encode(c[1..], d[1..]), Product(d[1..]));
    }
  }

  lemma {:induction false} DecodeEncode(c: seq<nat>, d: seq<nat>)
    requires Inside(c, d)
    ensures Decode(Encode(c, d), d) == c
  {
    if d != [] {
      DecodeEncode(c[1..], d[1..]);
      DivModUnique(c[0], d[0], Encode(c[1..], d[1..]));
    }
  }

  lemma {:induction false} EncodeDecode(n: nat, d: seq<nat>)
    requires n < Product(d)
    ensures Inside(Decode(n, d), d)
    ensures Encode(Decode(n, d), d) == n
    decreases |d|
  {
    if d != [] {
      DivLess(n, d[0], Product(d[1..]));
      EncodeDecode(n / d[0], d[1..]);
      var c := Decode(n, d);
      assert c[1..] == Decode(n / d[0], d[1..]);
      InsideCons(c, d);
      QuotientAndRemainder(n, d[0]);
    }
  }

  lemma InsideCons(c: seq<nat>, d: seq<nat>)
    requires |c| == |d| > 0 && c[0] < d[0] && Inside(c[1..], d[1..])
    ensures Inside(c, d)
  {
    assert c == [c[0]] + c[1..] && d == [d[0]] + d[1..];
  }

  lemma QuotientAndRemainder(n: nat, e: nat)
    requires e > 0
    ensures n == n % e + e * (n / e)
  {
  }

  lemma {:induction false} ProductPositive(d: seq<nat>)
    ensures Product(d) > 0 <==> Positive(d)
  {
    if d != [] {
      ProductPositive(d[1..]);
      assert d == [d[0]] + d[1..];
    }
  }

  // ----- splitting at an axis

  lemma {:induction false} ProductConcat(a: seq<nat>, b: seq<nat>)
    ensures Product(a + b) == Product(a) * Product(b)
  {
    if a == [] {
      assert a + b == b;
    } else {
      ProductConcat(a[1..], b);
      assert (a + b)[1..] == a[1..] + b;
      assert a[0] * (Product(a[1..]) * Product(b)) == a[0] * Product(a[1..]) * Product(b);
    }
  }

  lemma Distribute(a: nat, e: nat, p: nat, q: nat)
    ensures a * (e + p * q) == a * e + (a * p) * q
  {
    assert a * (p * q) == (a * p) * q;
  }

  lemma {:induction false} EncodeConcat(c: seq<nat>, c': seq<nat>, d: seq<nat>, d': seq<nat>)
    requires |c| == |d| && |c'| == |d'|
    ensures Encode(c + c', d + d') == Encode(c, d) + Product(d) * Encode(c', d')
  {
    if d == [] {
      assert c + c' == c' && d + d' == d';
    } else {
      EncodeConcat(c[1..], c', d[1..], d');
      assert (c + c')[1..] == c[1..] + c' && (d + d')[1..] == d[1..] + d';
      Distribute(d[0], Encode(c[1..], d[1..]), Product(d[1..]), Encode(c', d'));
    }
  }

  lemma Singleton(x: nat, e: nat)
    ensures Product([e]) == e && Encode([x], [e]) == x
  {
  }

  /** Appending one axis: the invariant step of every running-stride loop. */
  lemma EncodeSnoc(c: seq<nat>, d: seq<nat>, k: nat)
    requires |c| == |d| && k < |d|
    ensures Product(d[..k + 1]) == Product(d[..k]) * d[k]
    ensures Encode(c[..k + 1], d[..k + 1]) == Encode(c[..k], d[..k]) + c[k] * Product(d[..k])
  {
    assert d[..k + 1] == d[..k] + [d[k]] && c[..k + 1] == c[..k] + [c[k]];
    ProductConcat(d[..k], [d[k]]);
    EncodeConcat(c[..k], [c[k]], d[..k], [d[k]]);
    Singleton(c[k], d[k]);
  }

  // ----- loops that decode an offset, change the coordinates and encode them again in one pass

  /** The state before axis `k` of a loop that decodes `c` over `d` and encodes `y` over `e`. */
  ghost predicate Running(c: seq<nat>, d: seq<nat>, y: seq<nat>, e: seq<nat>, k: nat, rest: nat, stride: nat, offset: nat) {
    && k <= |d| == |c| == |y| == |e|
    && c[k..] == Decode(rest, d[k..])
    && stride == Product(e[..k]) && offset == Encode(y[..k], e[..k])
  }

  lemma RunningStart(n: nat, d: seq<nat>, y: seq<nat>, e: seq<nat>)
    requires |d| == |y| == |e|
    ensures Running(Decode(n, d), d, y, e, 0, n, 1, 0)
  {
    assert Decode(n, d)[0..] == Decode(n, d) && d[0..] == d;
  }

  lemma RunningStep(c: seq<nat>, d: seq<nat>, y: seq<nat>, e: seq<nat>, k: nat, rest: nat, stride: nat, offset: nat)
    requires Running(c, d, y, e, k, rest, stride, offset) && k < |d|
    ensures c[k] == Digit(rest, d[k])
    ensures Running(c, d, y, e, k + 1, Rest(rest, d[k]), stride * e[k], offset + y[k] * stride)
  {
    assert d[k..][1..] == d[k + 1..] && c[k..][1..] == c[k + 1..] && c[k] == c[k..][0];
    EncodeSnoc(y, e, k);
  }

  lemma RunningEnd(c: seq<nat>, d: seq<nat>, y: seq<nat>, e: seq<nat>, rest: nat, stride: nat, offset: nat)
    requires Running(c, d, y, e, |d|, rest, stride, offset)
    ensures offset == Encode(y, e) && stride == Product(e)
  {
    assert y[..|d|] == y && e[..|d|] == e;
  }

  /** The coordinate along axis `k` is the one that dividing by the stride of `k` gives. */
  lemma {:induction false} DecodeAt(n: nat, d: seq<nat>, k: nat)
    requires Positive(d) && k < |d|
    ensures Product(d[..k]) > 0
    ensures Decode(n, d)[k] == (n / Product(d[..k])) % d[k]
    decreases |d|
  {
    ProductPositive(d[..k]);
    if k > 0 {
      DecodeAt(n / d[0], d[1..], k - 1);
      assert d[1..][..k - 1] == d[..k][1..];
      DivDiv(n, d[0], Product(d[1..][..k - 1]));
    } else {
      assert n / 1 == n;
    }
  }

  lemma DivDiv(n: nat, a: nat, b: nat)
    requires a > 0 && b > 0
    ensures a * b > 0 && n / a / b == n / (a * b)
  {
    var q, r := n / a / b, (n / a) % b;
    assert n == n % a + a * (r + b * q);
    assert a * (r + b * q) == a * r + a * b * q;
    BoundByRest(n % a, a, r, b);
    DivModUnique(n % a + a * r, a * b, q);
  }

  // ----- the two loops on their own

  /** The remainder loop. */
  method DecodeOffset(o: nat, d: seq<nat>) returns (x: seq<nat>)
    ensures x == Decode(o, d)
  {
    ghost var c := Decode(o, d);
    var remainder := o;
    x := [];
    RunningStart(o, d, c, d);
    for axis := 0 to |d|
      invariant x == c[..axis] && Running(c, d, c, d, axis, remainder, Product(d[..axis]), Encode(c[..axis], d[..axis]))
    {
      RunningStep(c, d, c, d, axis, remainder, Product(d[..axis]), Encode(c[..axis], d[..axis]));
      x := x + [Digit(remainder, d[axis])];
      remainder := Rest(remainder, d[axis]);
    }
  }

  /** The running-stride loop. */
  method EncodeCoordinates(y: seq<nat>, d: seq<nat>) returns (o: nat)
    requires |y| == |d|
    ensures o == Encode(y, d)
  {
    var stride := 1;
    o := 0;
    for axis := 0 to |d|
      invariant stride == Product(d[..axis]) && o == Encode(y[..axis], d[..axis])
    {
      o, stride := EncodeAxis(y, d, axis, o, stride);
    }
    assert y[..|d|] == y && d[..|d|] == d;
  }

  method EncodeAxis(y: seq<nat>, d: seq<nat>, axis: nat, o: nat, stride: nat) returns (next: nat, nextStride: nat)
    requires axis < |d| == |y| && stride == Product(d[..axis]) && o == Encode(y[..axis], d[..axis])
    ensures nextStride == Product(d[..axis + 1]) && next == Encode(y[..axis + 1], d[..axis + 1])
  {
    EncodeSnoc(y, d, axis);
    next, nextStride := o + y[axis] * stride, stride * d[axis];
  }

  // ----- low ranks written out

  lemma Encode2(a: nat, b: nat, p: nat, q: nat)
    ensures Encode([a, b], [p, q]) == a + p * b && Product([p, q]) == p * q
  {
    assert [a, b][1..] == [b] && [p, q][1..] == [q];
    assert Encode([b], [q]) == b && Product([q]) == q;
  }

  lemma Encode3(a: nat, b: nat, c: nat, p: nat, q: nat, r: nat)
    ensures Encode([a, b, c], [p, q, r]) == a + p * (b + q * c) && Product([p, q, r]) == p * (q * r)
  {
    assert [a, b, c][1..] == [b, c] && [p, q, r][1..] == [q, r];
    Encode2(b, c, q, r);
  }

  lemma Encode4(a: nat, b: nat, c: nat, d: nat, p: nat, q: nat, r: nat, s: nat)
    ensures Encode([a, b, c, d], [p, q, r, s]) == a + p * (b + q * (c + r * d))
    ensures Product([p, q, r, s]) == p * (q * (r * s))
  {
    assert [a, b, c, d][1..] == [b, c, d] && [p, q, r, s][1..] == [q, r, s];
    Encode3(b, c, d, q, r, s);
  }
}
