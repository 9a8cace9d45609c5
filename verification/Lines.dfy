/**
 Arrays seen as lines along one axis.

 With `s` elements before the axis (its stride) and `n` along it, offset `inner + s * (j + n * outer)`
 is coordinate `j` of line (`inner`, `outer`).  `OffsetAlongAxis` ties this to N-D coordinates.
 */
module Lines {
  import opened MixedRadix
  import opened Shapes
  import opened Sealing

  function LineOffset(s: nat, n: nat, inner: nat, j: nat, outer: nat): nat {
    inner + s * (j + n * outer)
  }

  /** The line along the axis through (`inner`, `outer`). */
  function Line<T>(data: seq<T>, s: nat, n: nat, m: nat, inner: nat, outer: nat): (line: seq<T>)
    requires |data| == s * (n * m) && inner < s && outer < m
    ensures |line| == n
  {
    seq(n, j requires 0 <= j < n => LineOffsetBound(s, n, m, inner, j, outer); data[LineOffset(s, n, inner, j, outer)])
  }

  lemma LineOffsetBound(s: nat, n: nat, m: nat, inner: nat, j: nat, outer: nat)
    requires inner < s && j < n && outer < m
    ensures LineOffset(s, n, inner, j, outer) < s * (n * m)
  {
    BoundByRest(j, n, outer, m);
    BoundByRest(inner, s, j + n * outer, n * m);
  }

  lemma LineAt<T>(data: seq<T>, s: nat, n: nat, m: nat, inner: nat, outer: nat, j: nat)
    requires |data| == s * (n * m) && inner < s && outer < m && j < n
    ensures LineOffset(s, n, inner, j, outer) < |data|
    ensures Line(data, s, n, m, inner, outer)[j] == data[LineOffset(s, n, inner, j, outer)]
  {
    LineOffsetBound(s, n, m, inner, j, outer);
  }

  /** Every offset is on exactly one line, at one coordinate. */
  lemma OffsetOnLine(s: nat, n: nat, m: nat, o: nat) returns (inner: nat, j: nat, outer: nat)
    requires o < s * (n * m)
    ensures inner < s && j < n && outer < m && LineOffset(s, n, inner, j, outer) == o
  {
    DivLess(o, s, n * m);
    DivLess(o / s, n, m);
    inner, j, outer := o % s, (o / s) % n, o / s / n;
  }

  lemma LineOffsetUnique(s: nat, n: nat, inner: nat, j: nat, outer: nat, inner': nat, j': nat, outer': nat)
    requires inner < s && j < n && inner' < s && j' < n
    requires LineOffset(s, n, inner, j, outer) == LineOffset(s, n, inner', j', outer')
    ensures inner == inner' && j == j' && outer == outer'
  {
    DivModUnique(inner, s, j + n * outer);
    DivModUnique(inner', s, j' + n * outer');
    DivModUnique(j, n, outer);
    DivModUnique(j', n, outer');
  }

  /** An array is determined by its lines. */
  lemma LinesDetermine<T>(a: seq<T>, b: seq<T>, s: nat, n: nat, m: nat)
    requires |a| == s * (n * m) == |b|
    requires forall inner: nat, outer: nat | inner < s && outer < m ::
               Line(a, s, n, m, inner, outer) == Line(b, s, n, m, inner, outer)
    ensures a == b
  {
    forall o | 0 <= o < |a| ensures a[o] == b[o] {
      var inner, j, outer := OffsetOnLine(s, n, m, o);
      LineAt(a, s, n, m, inner, outer, j);
      LineAt(b, s, n, m, inner, outer, j);
    }
  }

  /** The array whose element at coordinate `j` of line (`inner`, `outer`) is `at(inner, j, outer)`. */
  ghost function Table<T>(s: nat, n: nat, m: nat, at: (nat, nat, nat) --> T): (t: seq<T>)
    requires forall inner: nat, j: nat, outer: nat | inner < s && j < n && outer < m :: at.requires(inner, j, outer)
    ensures |t| == s * (n * m)
  {
    seq(s * (n * m), o requires 0 <= o < s * (n * m) =>
      DivLess(o, s, n * m); DivLess(o / s, n, m); at(o % s, (o / s) % n, o / s / n))
  }

  lemma TableAt<T>(s: nat, n: nat, m: nat, at: (nat, nat, nat) --> T, inner: nat, j: nat, outer: nat)
    requires forall i: nat, k: nat, o: nat | i < s && k < n && o < m :: at.requires(i, k, o)
    requires inner < s && j < n && outer < m
    ensures LineOffset(s, n, inner, j, outer) < s * (n * m)
    ensures Table(s, n, m, at)[LineOffset(s, n, inner, j, outer)] == at(inner, j, outer)
  {
    LineOffsetBound(s, n, m, inner, j, outer);
    DivModUnique(inner, s, j + n * outer);
    DivModUnique(j, n, outer);
  }

  // ----- naming the line of every offset

  /** The line an offset is on, counted over all lines, and its coordinate there. */
  datatype Mark = Mark(line: nat, at: nat)

  /** `marks` names line and coordinate of every offset; loops over lines use it to tell what they overwrite. */
  ghost predicate IsMarked(marks: seq<Mark>, s: nat, n: nat, m: nat) {
    && |marks| == s * (n * m)
    && (forall o | 0 <= o < |marks| :: marks[o].line < s * m && marks[o].at < n)
    && forall inner: nat, j: nat, outer: nat {:trigger LineOffset(s, n, inner, j, outer)} | inner < s && j < n && outer < m ::
         && LineOffset(s, n, inner, j, outer) < |marks|
         && marks[LineOffset(s, n, inner, j, outer)] == Mark(inner + s * outer, j)
         && forall o | 0 <= o < |marks| && marks[o] == Mark(inner + s * outer, j) :: o == LineOffset(s, n, inner, j, outer)
  }

  function MarkAt(s: nat, inner: nat, j: nat, outer: nat): Mark {
    Mark(inner + s * outer, j)
  }

  lemma MarksExist(s: nat, n: nat, m: nat) returns (marks: seq<Mark>)
    ensures IsMarked(marks, s, n, m)
  {
    var at := (inner: nat, j: nat, outer: nat) => MarkAt(s, inner, j, outer);
    marks := Table(s, n, m, at);
    forall o | 0 <= o < |marks| ensures marks[o].line < s * m && marks[o].at < n {
      var inner, j, outer := OffsetOnLine(s, n, m, o);
      TableAt(s, n, m, at, inner, j, outer);
      BoundByRest(inner, s, outer, m);
    }
    forall inner: nat, j: nat, outer: nat | inner < s && j < n && outer < m
      ensures LineOffset(s, n, inner, j, outer) < |marks|
      ensures marks[LineOffset(s, n, inner, j, outer)] == Mark(inner + s * outer, j)
      ensures forall o | 0 <= o < |marks| && marks[o] == Mark(inner + s * outer, j) :: o == LineOffset(s, n, inner, j, outer)
    {
      TableAt(s, n, m, at, inner, j, outer);
      forall o | 0 <= o < |marks| && marks[o] == Mark(inner + s * outer, j)
        ensures o == LineOffset(s, n, inner, j, outer)
      {
        var inner', j', outer' := OffsetOnLine(s, n, m, o);
        TableAt(s, n, m, at, inner', j', outer');
        DivModUnique(inner, s, outer);
        DivModUnique(inner', s, outer');
      }
    }
  }

  /** `IsMarked`, to be looked into only where `Unseal` is mentioned. */
  ghost predicate SealedMarks(marks: seq<Mark>, s: nat, n: nat, m: nat) {
    forall k {:trigger Unseal(k)} :: Unseal(k) ==> IsMarked(marks, s, n, m)
  }

  /** The offset of a coordinate on a line. */
  method Spot(s: nat, n: nat, m: nat, inner: nat, j: nat, outer: nat, ghost marks: seq<Mark>) returns (o: nat)
    requires SealedMarks(marks, s, n, m) && inner < s && j < n && outer < m
    ensures o == LineOffset(s, n, inner, j, outer) < |marks| && marks[o] == Mark(inner + s * outer, j)
    ensures forall p | 0 <= p < |marks| && marks[p] == Mark(inner + s * outer, j) :: p == o
  {
    assert Unseal(0);
    o := LineOffset(s, n, inner, j, outer);
  }

  // ----- one function applied to every line

  /** Every line of `after` is `g` of that line of `before`. */
  ghost predicate MapsLines<T>(g: seq<T> -> seq<T>, before: seq<T>, after: seq<T>, s: nat, n: nat, m: nat) {
    && |before| == s * (n * m) == |after|
    && forall inner: nat, outer: nat | inner < s && outer < m ::
         Line(after, s, n, m, inner, outer) == g(Line(before, s, n, m, inner, outer))
  }

  /** Functions on lines that keep the length. */
  ghost predicate KeepsLength<T(!new)>(g: seq<T> -> seq<T>, n: nat) {
    forall line: seq<T> | |line| == n :: |g(line)| == n
  }

  lemma MappedExists<T(!new)>(g: seq<T> -> seq<T>, before: seq<T>, s: nat, n: nat, m: nat) returns (after: seq<T>)
    requires KeepsLength(g, n) && |before| == s * (n * m)
    ensures MapsLines(g, before, after, s, n, m)
    ensures forall inner: nat, j: nat, outer: nat {:trigger LineOffset(s, n, inner, j, outer)} | inner < s && j < n && outer < m ::
              && LineOffset(s, n, inner, j, outer) < |after|
              && after[LineOffset(s, n, inner, j, outer)] == g(Line(before, s, n, m, inner, outer))[j]
  {
    var at := (inner: nat, j: nat, outer: nat) requires inner < s && j < n && outer < m =>
      g(Line(before, s, n, m, inner, outer))[j];
    after := Table(s, n, m, at);
    forall inner: nat, j: nat, outer: nat | inner < s && j < n && outer < m
      ensures LineOffset(s, n, inner, j, outer) < |after|
      ensures after[LineOffset(s, n, inner, j, outer)] == g(Line(before, s, n, m, inner, outer))[j]
      ensures Line(after, s, n, m, inner, outer)[j] == g(Line(before, s, n, m, inner, outer))[j]
    {
      TableAt(s, n, m, at, inner, j, outer);
      LineAt(after, s, n, m, inner, outer, j);
    }
  }

  // ----- lines of an N-D array

  /** The number of elements between neighbours along an axis; past the rank, the whole array. */
  function Stride(d: seq<nat>, axis: nat): nat {
    if axis < |d| then Product(d[..axis]) else Product(d)
  }

  /** The number of lines behind each inner position. */
  function OuterCount(d: seq<nat>, axis: nat): nat {
    if axis < |d| then Product(d[axis + 1..]) else 1
  }

  lemma LinesFill(d: seq<nat>, axis: nat)
    ensures Product(d) == Stride(d, axis) * (Extent(d, axis) * OuterCount(d, axis))
  {
    if axis < |d| {
      var a, b, c := d[..axis], [d[axis]], d[axis + 1..];
      assert d == a + (b + c);
      ProductConcat(a, b + c);
      ProductConcat(b, c);
      Singleton(0, d[axis]);
    }
  }

  /** Coordinate `x[axis]` is the position on the line named by the other coordinates. */
  lemma OffsetAlongAxis(x: seq<nat>, d: seq<nat>, axis: nat)
    requires Inside(x, d) && axis < |d|
    ensures var inner, outer := Encode(x[..axis], d[..axis]), Encode(x[axis + 1..], d[axis + 1..]);
            && inner < Stride(d, axis) && outer < OuterCount(d, axis)
            && Encode(x, d) == LineOffset(Stride(d, axis), d[axis], inner, x[axis], outer)
  {
    PartsBound(x, d, axis);
    OffsetOfParts(x[..axis], x[axis], x[axis + 1..], d[..axis], d[axis], d[axis + 1..]);
    SplitAt(x, axis);
    SplitAt(d, axis);
  }

  lemma SplitAt(s: seq<nat>, axis: nat)
    requires axis < |s|
    ensures s[..axis] + ([s[axis]] + s[axis + 1..]) == s
  {
  }

  lemma PartsBound(x: seq<nat>, d: seq<nat>, axis: nat)
    requires Inside(x, d) && axis < |d|
    ensures Encode(x[..axis], d[..axis]) < Product(d[..axis])
    ensures Encode(x[axis + 1..], d[axis + 1..]) < Product(d[axis + 1..])
  {
    EncodeBound(x[..axis], d[..axis]);
    EncodeBound(x[axis + 1..], d[axis + 1..]);
  }

  lemma OffsetOfParts(u: seq<nat>, j: nat, w: seq<nat>, a: seq<nat>, n: nat, c: seq<nat>)
    requires |u| == |a| && |w| == |c|
    ensures Encode(u + ([j] + w), a + ([n] + c)) == LineOffset(Product(a), n, Encode(u, a), j, Encode(w, c))
  {
    ConsOffset(j, w, n, c);
    EncodeConcat(u, [j] + w, a, [n] + c);
    OffsetByRest(Product(a), n, Encode(u, a), j, Encode(w, c), Encode([j] + w, [n] + c));
  }

  lemma OffsetByRest(s: nat, n: nat, inner: nat, j: nat, outer: nat, rest: nat)
    requires rest == j + n * outer
    ensures LineOffset(s, n, inner, j, outer) == inner + s * rest
  {
  }

  lemma ConsOffset(j: nat, w: seq<nat>, n: nat, c: seq<nat>)
    requires |w| == |c|
    ensures Encode([j] + w, [n] + c) == j + n * Encode(w, c)
  {
    assert ([j] + w)[1..] == w && ([n] + c)[1..] == c;
  }

  // ----- loops that emit lines in column-major order

  /** The output holds what is expected before position `count`. */
  ghost predicate Emitted<T>(output: seq<T>, expected: seq<T>, count: nat) {
    |output| == count <= |expected| && output == expected[..count]
  }

  /** What the counters of an outer/coordinate/inner loop nest do at the end of each inner loop. */
  lemma NextOffset(s: nat, n: nat, j: nat, outer: nat)
    ensures LineOffset(s, n, s, j, outer) == LineOffset(s, n, 0, j + 1, outer)
    ensures LineOffset(s, n, 0, n, outer) == LineOffset(s, n, 0, 0, outer + 1)
    ensures LineOffset(s, n, 0, 0, outer) == s * (n * outer)
  {
    assert s * (j + 1 + n * outer) == s + s * (j + n * outer);
    assert n * (outer + 1) == n + n * outer;
  }
}
