/**
 Line functions whose elements are weighted sums, and why applying two of them along different axes of an array
 can be done in either order.
 */
module WeightedSums {
  import opened MixedRadix
  import opened Shapes
  import opened Coordinates
  import opened Lines
  import opened ComplexNumbers
  import opened Fibres

  function Zero(): Complex {
    Complex(0.0, 0.0)
  }

  function WeightedSum(weights: seq<Complex>, line: seq<Complex>): Complex
    requires |weights| == |line|
  {
    if line == [] then Zero()
    else
      var n := |line| - 1;
      WeightedSum(weights[..n], line[..n]).Plus(weights[n].By(line[n]))
  }

  /** Element `k` of what becomes of a line of length `n` is the sum of its elements weighted by `rows(n, k)`. */
  ghost predicate IsWeighted(f: seq<Complex> -> seq<Complex>, rows: (nat, nat) -> seq<Complex>) {
    forall line: seq<Complex> :: |f(line)| == |line| && WeightedLine(line, rows, f(line))
  }

  ghost predicate WeightedLine(line: seq<Complex>, rows: (nat, nat) -> seq<Complex>, after: seq<Complex>) {
    forall k: nat | k < |after| :: |rows(|line|, k)| == |line| && after[k] == WeightedSum(rows(|line|, k), line)
  }

  // ----- sums of sums

  lemma Spread(b: Complex, t: Complex, c: Complex, r: Complex, w: Complex, wr: Complex)
    ensures w.Plus(b.By(t)).Plus(c.By(wr.Plus(b.By(r)))) == w.Plus(c.By(wr)).Plus(b.By(t.Plus(c.By(r))))
  {
    ByPlus(c, wr, b.By(r));
    ByPlus(b, t, c.By(r));
    ByExchange(b, c, r);
  }

  lemma TimesSum(a: real, x: real, y: real, sum: real)
    requires sum == x + y
    ensures a * sum == a * x + a * y
  {
  }

  lemma ByPlus(a: Complex, b: Complex, c: Complex)
    ensures a.By(b.Plus(c)) == a.By(b).Plus(a.By(c))
  {
    var sum := b.Plus(c);
    TimesSum(a.re, b.re, c.re, sum.re);
    TimesSum(a.im, b.im, c.im, sum.im);
    TimesSum(a.re, b.im, c.im, sum.im);
    TimesSum(a.im, b.re, c.re, sum.re);
  }

  lemma Move(a: real, b: real, c: real)
    ensures a * (b * c) == b * (a * c)
  {
  }

  lemma ByExchange(a: Complex, b: Complex, c: Complex)
    ensures a.By(b.By(c)) == b.By(a.By(c))
  {
    var p, q := b.By(c), a.By(c);
    Exchange(a.re, a.im, b.re, b.im, c.re, c.im, p.re, p.im, q.re, q.im);
  }

  /** The parts of two complex products in either order. */
  lemma Exchange(a: real, a': real, b: real, b': real, c: real, c': real, p: real, p': real, q: real, q': real)
    requires p == b * c - b' * c' && p' == b * c' + b' * c && q == a * c - a' * c' && q' == a * c' + a' * c
    ensures a * p - a' * p' == b * q - b' * q' && a * p' + a' * p == b * q' + b' * q
  {
    TimesDifference(a, b * c, b' * c', p);
    TimesSum(a', b * c', b' * c, p');
    TimesDifference(b, a * c, a' * c', q);
    TimesSum(b', a * c', a' * c, q');
    TimesSum(a, b * c', b' * c, p');
    TimesDifference(a', b * c, b' * c', p);
    TimesSum(b, a * c', a' * c, q');
    TimesDifference(b', a * c, a' * c', q);
    Move(a, b, c);
    Move(a, b', c');
    Move(a', b, c');
    Move(a', b', c);
    Move(a, b, c');
    Move(a, b', c);
    Move(a', b, c);
    Move(a', b', c');
  }

  lemma TimesDifference(a: real, x: real, y: real, difference: real)
    requires difference == x - y
    ensures a * difference == a * x - a * y
  {
  }

  /** A sum of sums `t[j] + c * r[j]` is a sum and `c` times a sum. */
  lemma {:induction false} SumSpreads(b: seq<Complex>, t: seq<Complex>, c: Complex, r: seq<Complex>, both: seq<Complex>)
    requires |b| == |t| == |r| == |both| && forall j | 0 <= j < |both| :: both[j] == t[j].Plus(c.By(r[j]))
    ensures WeightedSum(b, both) == WeightedSum(b, t).Plus(c.By(WeightedSum(b, r)))
  {
    if both != [] {
      var n := |both| - 1;
      SumSpreads(b[..n], t[..n], c, r[..n], both[..n]);
      Spread(b[n], t[n], c, r[n], WeightedSum(b[..n], t[..n]), WeightedSum(b[..n], r[..n]));
    }
  }

  lemma {:induction false} SumOfZeros(b: seq<Complex>, zeros: seq<Complex>)
    requires |b| == |zeros| && forall j | 0 <= j < |zeros| :: zeros[j] == Zero()
    ensures WeightedSum(b, zeros) == Zero()
  {
    if zeros != [] {
      SumOfZeros(b[..|zeros| - 1], zeros[..|zeros| - 1]);
    }
  }

  /** The rows and the columns of one grid. */
  ghost predicate IsGrid(rows: seq<seq<Complex>>, columns: seq<seq<Complex>>) {
    && (forall i | 0 <= i < |rows| :: |rows[i]| == |columns|)
    && (forall j | 0 <= j < |columns| :: |columns[j]| == |rows|)
    && forall i, j | 0 <= i < |rows| && 0 <= j < |columns| :: rows[i][j] == columns[j][i]
  }

  ghost predicate SumsOf(weights: seq<Complex>, lines: seq<seq<Complex>>, sums: seq<Complex>) {
    |sums| == |lines| && forall i | 0 <= i < |lines| :: |lines[i]| == |weights| && sums[i] == WeightedSum(weights, lines[i])
  }

  function Heads(columns: seq<seq<Complex>>, n: nat): (heads: seq<seq<Complex>>)
    requires forall j | 0 <= j < |columns| :: n <= |columns[j]|
    ensures |heads| == |columns| && forall j | 0 <= j < |columns| :: heads[j] == columns[j][..n]
  {
    seq(|columns|, j requires 0 <= j < |columns| => columns[j][..n])
  }

  lemma SumsExist(weights: seq<Complex>, lines: seq<seq<Complex>>) returns (sums: seq<Complex>)
    requires forall i | 0 <= i < |lines| :: |lines[i]| == |weights|
    ensures SumsOf(weights, lines, sums)
  {
    sums := seq(|lines|, i requires 0 <= i < |lines| => WeightedSum(weights, lines[i]));
  }

  /** The sums of columns, split into those of all rows but the last and the share of the last row. */
  lemma LastRow(a: seq<Complex>, columns: seq<seq<Complex>>, heads: seq<seq<Complex>>, w: seq<Complex>, w': seq<Complex>,
                n: nat, row: seq<Complex>)
    requires |a| == n + 1 && |heads| == |columns| == |row| && SumsOf(a, columns, w) && SumsOf(a[..n], heads, w')
    requires forall j | 0 <= j < |columns| :: heads[j] == columns[j][..n] && columns[j][n] == row[j]
    ensures forall j | 0 <= j < |w| :: w[j] == w'[j].Plus(a[n].By(row[j]))
  {
  }

  lemma HeadsGrid(rows: seq<seq<Complex>>, columns: seq<seq<Complex>>, n: nat)
    requires IsGrid(rows, columns) && |rows| == n + 1
    ensures IsGrid(rows[..n], Heads(columns, n)) && forall j | 0 <= j < |columns| :: columns[j][n] == rows[n][j]
  {
  }

  lemma FirstRows(a: seq<Complex>, b: seq<Complex>, rows: seq<seq<Complex>>, u: seq<Complex>, n: nat)
    requires |a| == |rows| == n + 1 && SumsOf(b, rows, u)
    ensures SumsOf(b, rows[..n], u[..n]) && |rows[n]| == |b| && u[n] == WeightedSum(b, rows[n])
    ensures WeightedSum(a, u) == WeightedSum(a[..n], u[..n]).Plus(a[n].By(u[n]))
  {
  }

  /** Summing the sums of the rows of a grid is summing the sums of its columns. */
  lemma {:induction false} SumsExchange(a: seq<Complex>, b: seq<Complex>, rows: seq<seq<Complex>>, columns: seq<seq<Complex>>,
                                        u: seq<Complex>, w: seq<Complex>)
    requires |a| == |rows| && |b| == |columns| && IsGrid(rows, columns) && SumsOf(b, rows, u) && SumsOf(a, columns, w)
    ensures WeightedSum(a, u) == WeightedSum(b, w)
  {
    if a == [] {
      SumOfZeros(b, w);
    } else {
      var n := |a| - 1;
      var heads := Heads(columns, n);
      var w' := SumsExist(a[..n], heads);
      HeadsGrid(rows, columns, n);
      FirstRows(a, b, rows, u, n);
      SumsExchange(a[..n], b, rows[..n], heads, u[..n], w');
      LastRow(a, columns, heads, w, w', n, rows[n]);
      SumSpreads(b, w', a[n], rows[n], w);
    }
  }

  // ----- along two axes

  /** The function applied to the lines along one axis through the points of a line along another. */
  lemma WeightedAt(f: seq<Complex> -> seq<Complex>, rows: (nat, nat) -> seq<Complex>, v: seq<Complex>, d: seq<nat>, axis: nat, x: seq<nat>)
    requires |v| == Product(d) && IsWeighted(f, rows) && Inside(x, d)
    ensures KeepsLength(f, Extent(d, axis)) && Coordinate(x, axis) < Extent(d, axis)
    ensures |rows(Extent(d, axis), Coordinate(x, axis))| == Extent(d, axis)
    ensures Elem(Mapped(f, v, d, axis), d, x)
            == WeightedSum(rows(Extent(d, axis), Coordinate(x, axis)), Fibre(v, d, axis, x))
  {
    assert KeepsLength(f, Extent(d, axis)) by {
      forall line: seq<Complex> | |line| == Extent(d, axis) ensures |f(line)| == |line| {
      }
    }
    MappedAt(f, v, d, axis, x);
    assert WeightedLine(Fibre(v, d, axis, x), rows, f(Fibre(v, d, axis, x)));
  }

  /** The lines along `b` through the points of the line along `a` through `x`. */
  ghost function Fibres2(v: seq<Complex>, d: seq<nat>, a: nat, b: nat, x: seq<nat>): (lines: seq<seq<Complex>>)
    requires |v| == Product(d) && Inside(x, d)
    ensures |lines| == Extent(d, a)
  {
    seq(Extent(d, a), i requires 0 <= i < Extent(d, a) => PutInside(x, d, a, i); Fibre(v, d, b, Put(x, a, i)))
  }

  lemma FibresGrid(v: seq<Complex>, d: seq<nat>, a: nat, b: nat, x: seq<nat>)
    requires |v| == Product(d) && Inside(x, d) && a != b
    ensures IsGrid(Fibres2(v, d, a, b, x), Fibres2(v, d, b, a, x))
  {
    var rows, columns := Fibres2(v, d, a, b, x), Fibres2(v, d, b, a, x);
    forall i, j | 0 <= i < |rows| && 0 <= j < |columns| ensures rows[i][j] == columns[j][i] {
      PutInside(x, d, a, i);
      PutInside(x, d, b, j);
      FibreAt(v, d, b, Put(x, a, i), j);
      FibreAt(v, d, a, Put(x, b, j), i);
      PutOther(x, a, i, b, j);
    }
  }

  /** The line along `a` of the array transformed along `b`. */
  lemma FibreOfMapped(f: seq<Complex> -> seq<Complex>, rows: (nat, nat) -> seq<Complex>, v: seq<Complex>, d: seq<nat>, a: nat, b: nat,
                      x: seq<nat>)
    requires |v| == Product(d) && IsWeighted(f, rows) && Inside(x, d) && a != b
    ensures KeepsLength(f, Extent(d, b)) && Coordinate(x, b) < Extent(d, b)
    ensures SumsOf(rows(Extent(d, b), Coordinate(x, b)), Fibres2(v, d, a, b, x), Fibre(Mapped(f, v, d, b), d, a, x))
  {
    WeightedAt(f, rows, v, d, b, x);
    var w := Mapped(f, v, d, b);
    forall i | 0 <= i < Extent(d, a)
      ensures Fibre(w, d, a, x)[i] == WeightedSum(rows(Extent(d, b), Coordinate(x, b)), Fibres2(v, d, a, b, x)[i])
    {
      PutInside(x, d, a, i);
      PutOther(x, a, i, b, 0);
      FibreAt(w, d, a, x, i);
      WeightedAt(f, rows, v, d, b, Put(x, a, i));
    }
  }

  /** Weighted sums along different axes can be taken in either order. */
  lemma MappedExchange(f: seq<Complex> -> seq<Complex>, g: seq<Complex> -> seq<Complex>, rf: (nat, nat) -> seq<Complex>,
                       rg: (nat, nat) -> seq<Complex>, v: seq<Complex>, d: seq<nat>, a: nat, b: nat)
    requires |v| == Product(d) && IsWeighted(f, rf) && IsWeighted(g, rg) && a != b
    ensures KeepsLength(f, Extent(d, a)) && KeepsLength(g, Extent(d, b))
    ensures Mapped(g, Mapped(f, v, d, a), d, b) == Mapped(f, Mapped(g, v, d, b), d, a)
  {
    assert KeepsLength(f, Extent(d, a)) && KeepsLength(g, Extent(d, b)) by {
      assert forall line: seq<Complex> :: |f(line)| == |line|;
      assert forall line: seq<Complex> :: |g(line)| == |line|;
    }
    var once, other := Mapped(g, Mapped(f, v, d, a), d, b), Mapped(f, Mapped(g, v, d, b), d, a);
    forall x: seq<nat> | Inside(x, d) ensures Elem(once, d, x) == Elem(other, d, x) {
      ExchangeAt(f, g, rf, rg, v, d, a, b, x);
    }
    SameElems(once, other, d);
  }

  lemma ExchangeAt(f: seq<Complex> -> seq<Complex>, g: seq<Complex> -> seq<Complex>, rf: (nat, nat) -> seq<Complex>,
                   rg: (nat, nat) -> seq<Complex>, v: seq<Complex>, d: seq<nat>, a: nat, b: nat, x: seq<nat>)
    requires |v| == Product(d) && IsWeighted(f, rf) && IsWeighted(g, rg) && a != b && Inside(x, d)
    requires KeepsLength(f, Extent(d, a)) && KeepsLength(g, Extent(d, b))
    ensures Elem(Mapped(g, Mapped(f, v, d, a), d, b), d, x) == Elem(Mapped(f, Mapped(g, v, d, b), d, a), d, x)
  {
    WeightedAt(g, rg, Mapped(f, v, d, a), d, b, x);
    WeightedAt(f, rf, Mapped(g, v, d, b), d, a, x);
    FibreOfMapped(f, rf, v, d, b, a, x);
    FibreOfMapped(g, rg, v, d, a, b, x);
    FibresGrid(v, d, a, b, x);
    SumsExchange(rf(Extent(d, a), Coordinate(x, a)), rg(Extent(d, b), Coordinate(x, b)),
                 Fibres2(v, d, a, b, x), Fibres2(v, d, b, a, x),
                 Fibre(Mapped(g, v, d, b), d, a, x), Fibre(Mapped(f, v, d, a), d, b, x));
  }
}
