/**
 Quarter turns of every page of an array.
 */
module Rotation {
  import opened MixedRadix
  import opened Results
  import opened Shapes
  import opened Tensors
  import opened Lines

  datatype Spot = Spot(row: nat, column: nat)

  function TurnedRows(turns: nat, rows: nat, columns: nat): nat {
    if turns % 2 == 1 then columns else rows
  }

  /** Where the element at a row and column of the turned page comes from. */
  function SpotBefore(turns: nat, rows: nat, columns: nat, row: nat, column: nat): (s: Spot)
    requires turns < 4 && row < TurnedRows(turns, rows, columns) && column < TurnedRows(turns, columns, rows)
    ensures s.row < rows && s.column < columns
  {
    match turns
    case 0 => Spot(row, column)
    case 1 => Spot(column, columns - (row + 1))
    case 2 => Spot(rows - (row + 1), columns - (column + 1))
    case _ => Spot(rows - (column + 1), row)
  }

  ghost function ElementBefore<T>(turns: nat, data: seq<T>, rows: nat, columns: nat, m: nat, row: nat, column: nat, page: nat): T
    requires turns < 4 && |data| == rows * (columns * m) && page < m
    requires row < TurnedRows(turns, rows, columns) && column < TurnedRows(turns, columns, rows)
  {
    var s := SpotBefore(turns, rows, columns, row, column);
    LineOffsetBound(rows, columns, m, s.row, s.column, page);
    data[LineOffset(rows, columns, s.row, s.column, page)]
  }

  /** The pages after a number of quarter turns. */
  ghost function TurnedData<T>(turns: nat, data: seq<T>, rows: nat, columns: nat, m: nat): (r: seq<T>)
    requires turns < 4 && |data| == rows * (columns * m)
    ensures |r| == TurnedRows(turns, rows, columns) * (TurnedRows(turns, columns, rows) * m)
  {
    Table(TurnedRows(turns, rows, columns), TurnedRows(turns, columns, rows), m,
          (row: nat, column: nat, page: nat)
            requires row < TurnedRows(turns, rows, columns) && column < TurnedRows(turns, columns, rows) && page < m =>
            ElementBefore(turns, data, rows, columns, m, row, column, page))
  }

  lemma TurnedAt<T>(turns: nat, data: seq<T>, rows: nat, columns: nat, m: nat, row: nat, column: nat, page: nat)
    requires turns < 4 && |data| == rows * (columns * m) && page < m
    requires row < TurnedRows(turns, rows, columns) && column < TurnedRows(turns, columns, rows)
    ensures var o := LineOffset(TurnedRows(turns, rows, columns), TurnedRows(turns, columns, rows), row, column, page);
            && o < |TurnedData(turns, data, rows, columns, m)|
            && TurnedData(turns, data, rows, columns, m)[o] == ElementBefore(turns, data, rows, columns, m, row, column, page)
  {
    TableAt(TurnedRows(turns, rows, columns), TurnedRows(turns, columns, rows), m,
            (row: nat, column: nat, page: nat)
              requires row < TurnedRows(turns, rows, columns) && column < TurnedRows(turns, columns, rows) && page < m =>
              ElementBefore(turns, data, rows, columns, m, row, column, page), row, column, page);
  }

  /** Turning by `j` and then by `k` takes every spot where turning by `j + k` does. */
  lemma SpotsCompose(j: nat, k: nat, rows: nat, columns: nat, row: nat, column: nat)
    requires j < 4 && k < 4
    requires row < TurnedRows((j + k) % 4, rows, columns) && column < TurnedRows((j + k) % 4, columns, rows)
    ensures var rows', columns' := TurnedRows(j, rows, columns), TurnedRows(j, columns, rows);
            && TurnedRows(k, rows', columns') == TurnedRows((j + k) % 4, rows, columns)
            && TurnedRows(k, columns', rows') == TurnedRows((j + k) % 4, columns, rows)
            && var s := SpotBefore(k, rows', columns', row, column);
               SpotBefore(j, rows, columns, s.row, s.column) == SpotBefore((j + k) % 4, rows, columns, row, column)
  {
  }

  lemma TurnsCompose<T>(j: nat, k: nat, data: seq<T>, rows: nat, columns: nat, m: nat, rows': nat, columns': nat,
                        middle: seq<T>, twice: seq<T>, once: seq<T>)
    requires j < 4 && k < 4 && |data| == rows * (columns * m)
    requires rows' == TurnedRows(j, rows, columns) && columns' == TurnedRows(j, columns, rows)
    requires middle == TurnedData(j, data, rows, columns, m) && twice == TurnedData(k, middle, rows', columns', m)
    requires once == TurnedData((j + k) % 4, data, rows, columns, m)
    ensures twice == once
  {
    var a, b := TurnedRows((j + k) % 4, rows, columns), TurnedRows((j + k) % 4, columns, rows);
    forall row: nat, column: nat, page: nat | row < a && column < b && page < m
      ensures var o := LineOffset(a, b, row, column, page); o < |twice| && o < |once| && twice[o] == once[o]
    {
      SpotsCompose(j, k, rows, columns, row, column);
      var s := SpotBefore(k, rows', columns', row, column);
      TurnedAt(k, middle, rows', columns', m, row, column, page);
      TurnedAt(j, data, rows, columns, m, s.row, s.column, page);
      TurnedAt((j + k) % 4, data, rows, columns, m, row, column, page);
    }
    assert TurnedRows(k, rows', columns') == a && TurnedRows(k, columns', rows') == b;
    forall o | 0 <= o < |once| ensures twice[o] == once[o] {
      var row, column, page := OffsetOnLine(a, b, m, o);
    }
  }

  // ----- whole arrays

  function TurnedDims(turns: nat, d: seq<nat>): (r: seq<nat>)
    requires |d| >= 2
    ensures |r| == |d| && (IsCanonical(d) ==> IsCanonical(r))
  {
    if turns % 2 == 1 then d[0 := d[1]][1 := d[0]] else d
  }

  function Pages(d: seq<nat>): nat
    requires |d| >= 2
  {
    Product(d[2..])
  }

  lemma PagesFill(d: seq<nat>)
    requires |d| >= 2
    ensures Product(d) == d[0] * (d[1] * Pages(d))
  {
    assert d[1..][1..] == d[2..];
  }

  /** An array after a number of quarter turns, counterclockwise; negative numbers turn back. */
  ghost function Turned<T>(src: Tensor<T>, k: int): (r: Tensor<T>)
    requires src.Valid()
    ensures r.Valid() && r.dims == TurnedDims(k % 4, src.dims)
  {
    var turns := k % 4;
    PagesFill(src.dims);
    PagesFill(TurnedDims(turns, src.dims));
    assert TurnedDims(turns, src.dims)[2..] == src.dims[2..];
    Tensor(TurnedDims(turns, src.dims), TurnedData(turns, src.data, src.dims[0], src.dims[1], Pages(src.dims)))
  }

  lemma NoTurns<T>(src: Tensor<T>, k: int)
    requires src.Valid() && k % 4 == 0
    ensures Turned(src, k) == src
  {
    var rows, columns, m := src.dims[0], src.dims[1], Pages(src.dims);
    PagesFill(src.dims);
    forall o | 0 <= o < |src.data| ensures Turned(src, k).data[o] == src.data[o] {
      var row, column, page := OffsetOnLine(rows, columns, m, o);
      TurnedAt(0, src.data, rows, columns, m, row, column, page);
    }
  }

  /** Turning `j` times and then `k` times is turning `j + k` times, on every page. */
  lemma RotationsAdd<T>(src: Tensor<T>, j: int, k: int)
    requires src.Valid()
    ensures Turned(Turned(src, j), k) == Turned(src, j + k)
  {
    TurnsModulo(j, k);
    TurnedIs(src, j);
    TurnedIs(Turned(src, j), k);
    TurnedIs(src, j + k);
    ComposeTurned(src, Turned(src, j), Turned(Turned(src, j), k), Turned(src, j + k), j % 4, k % 4);
  }

  /** `r` is the array after a number of turns, by its parts. */
  ghost predicate IsTurned<T>(src: Tensor<T>, turns: nat, r: Tensor<T>) {
    && turns < 4 && |src.dims| >= 2 && |src.data| == src.dims[0] * (src.dims[1] * Pages(src.dims))
    && r.dims == TurnedDims(turns, src.dims)
    && r.data == TurnedData(turns, src.data, src.dims[0], src.dims[1], Pages(src.dims))
  }

  lemma TurnedIs<T>(src: Tensor<T>, k: int)
    requires src.Valid()
    ensures IsTurned(src, k % 4, Turned(src, k))
  {
    PagesFill(src.dims);
  }

  lemma ComposeTurned<T>(src: Tensor<T>, mid: Tensor<T>, twice: Tensor<T>, once: Tensor<T>, j: nat, k: nat)
    requires j < 4 && k < 4 && IsTurned(src, j, mid) && IsTurned(mid, k, twice) && IsTurned(src, (j + k) % 4, once)
    ensures twice == once
  {
    var d := src.dims;
    assert mid.dims[2..] == d[2..];
    TurnsCompose(j, k, src.data, d[0], d[1], Pages(d), mid.dims[0], mid.dims[1], mid.data, twice.data, once.data);
    assert TurnedDims(k, mid.dims) == TurnedDims((j + k) % 4, d);
  }

  lemma TurnsModulo(j: int, k: int)
    ensures (j % 4 + k % 4) % 4 == (j + k) % 4
  {
  }

  /** Turning back undoes turning. */
  lemma TurnBack<T>(src: Tensor<T>, j: int)
    requires src.Valid()
    ensures Turned(Turned(src, j), -j) == src
  {
    RotationsAdd(src, j, -j);
    NoTurns(src, 0);
  }

  /** One turn is counterclockwise: the last column becomes the first row, on every page. */
  lemma QuarterTurn<T>(src: Tensor<T>, row: nat, column: nat, page: nat)
    requires src.Valid() && row < src.dims[0] && column < src.dims[1] && page < Pages(src.dims)
    ensures var rows, columns := src.dims[0], src.dims[1];
            var from, to := LineOffset(rows, columns, row, column, page), LineOffset(columns, rows, columns - 1 - column, row, page);
            && from < |src.data| && to < |Turned(src, 1).data|
            && Turned(src, 1).data[to] == src.data[from]
  {
    PagesFill(src.dims);
    LineOffsetBound(src.dims[0], src.dims[1], Pages(src.dims), row, column, page);
    TurnedAt(1, src.data, src.dims[0], src.dims[1], Pages(src.dims), src.dims[1] - 1 - column, row, page);
  }

  // ----- by coordinates

  /** Where `k` counterclockwise quarter turns take row and column: each takes the last column to the first row. */
  ghost predicate TurnsTo(k: int, d: seq<nat>, x: seq<nat>, y: seq<nat>) {
    && |d| >= 2 && Inside(x, d) && |y| == |d| && y[2..] == x[2..]
    && match k % 4
       case 0 => y[0] == x[0] && y[1] == x[1]
       case 1 => y[0] == d[1] - 1 - x[1] && y[1] == x[0]
       case 2 => y[0] == d[0] - 1 - x[0] && y[1] == d[1] - 1 - x[1]
       case _ => y[0] == x[1] && y[1] == d[0] - 1 - x[0]
  }

  /** The extents are exchanged by an odd number of turns, and every element is where the turns take it. */
  ghost predicate HoldsTurned<T>(src: Tensor<T>, k: int, r: Tensor<T>)
    requires src.Valid()
  {
    && r.Valid() && |r.dims| == |src.dims| && r.dims[2..] == src.dims[2..]
    && r.dims[0] == (if k % 2 == 0 then src.dims[0] else src.dims[1])
    && r.dims[1] == (if k % 2 == 0 then src.dims[1] else src.dims[0])
    && forall x: seq<nat>, y: seq<nat> | TurnsTo(k, src.dims, x, y) :: Inside(y, r.dims) && At(r, y) == At(src, x)
  }

  lemma PlaneEncode(x: seq<nat>, d: seq<nat>)
    requires |d| >= 2 && Inside(x, d)
    ensures Encode(x[2..], d[2..]) < Pages(d)
    ensures Encode(x, d) == LineOffset(d[0], d[1], x[0], x[1], Encode(x[2..], d[2..]))
  {
    EncodeBound(x[2..], d[2..]);
    assert x[1..][1..] == x[2..] && d[1..][1..] == d[2..];
    assert Encode(x[1..], d[1..]) == x[1] + d[1] * Encode(x[2..], d[2..]);
  }

  lemma TurnedInside(k: int, d: seq<nat>, e: seq<nat>, x: seq<nat>, y: seq<nat>)
    requires TurnsTo(k, d, x, y) && e == TurnedDims(k % 4, d)
    ensures Inside(y, e) && e[2..] == d[2..]
    ensures e[0] == TurnedRows(k % 4, d[0], d[1]) && e[1] == TurnedRows(k % 4, d[1], d[0])
    ensures SpotBefore(k % 4, d[0], d[1], y[0], y[1]) == Spot(x[0], x[1])
  {
    forall a | 2 <= a < |d| ensures y[a] < e[a] {
      assert y[a] == y[2..][a - 2] && x[a] == x[2..][a - 2];
    }
  }

  lemma TurnedElement<T>(turns: nat, data: seq<T>, rows: nat, columns: nat, m: nat, out: seq<T>, before: Spot, row: nat, column: nat, page: nat)
    requires turns < 4 && |data| == rows * (columns * m) && page < m && out == TurnedData(turns, data, rows, columns, m)
    requires row < TurnedRows(turns, rows, columns) && column < TurnedRows(turns, columns, rows)
    requires before == SpotBefore(turns, rows, columns, row, column)
    ensures var from := LineOffset(rows, columns, before.row, before.column, page);
            var to := LineOffset(TurnedRows(turns, rows, columns), TurnedRows(turns, columns, rows), row, column, page);
            from < |data| && to < |out| && out[to] == data[from]
  {
    LineOffsetBound(rows, columns, m, before.row, before.column, page);
    TurnedAt(turns, data, rows, columns, m, row, column, page);
  }

  lemma TurnedHoldsAt<T>(src: Tensor<T>, k: int, turns: nat, r: Tensor<T>, x: seq<nat>, y: seq<nat>)
    requires src.Valid() && r.Valid() && turns == k % 4 && IsTurned(src, turns, r) && TurnsTo(k, src.dims, x, y)
    ensures Inside(y, r.dims) && At(r, y) == At(src, x)
  {
    var d := src.dims;
    TurnedInside(k, d, r.dims, x, y);
    PlaneEncode(x, d);
    PlaneEncode(y, r.dims);
    TurnedElement(turns, src.data, d[0], d[1], Pages(d), r.data, Spot(x[0], x[1]), y[0], y[1], Encode(y[2..], d[2..]));
  }

  lemma Parity(k: int, turns: nat)
    requires turns == k % 4
    ensures k % 2 == turns % 2
  {
    var q := k / 4;
    assert k == 2 * (2 * q) + turns;
    assert turns == 0 || turns == 1 || turns == 2 || turns == 3;
  }

  lemma TurnedExtents(turns: nat, d: seq<nat>, e: seq<nat>)
    requires |d| >= 2 && e == TurnedDims(turns, d)
    ensures |e| == |d| && e[2..] == d[2..]
    ensures turns % 2 == 1 ==> e[0] == d[1] && e[1] == d[0]
    ensures turns % 2 == 0 ==> e == d
  {
  }

  lemma TurnedHoldsBy<T>(src: Tensor<T>, k: int, turns: nat, r: Tensor<T>)
    requires src.Valid() && r.Valid() && turns == k % 4 && IsTurned(src, turns, r)
    ensures HoldsTurned(src, k, r)
  {
    Parity(k, turns);
    TurnedExtents(turns, src.dims, r.dims);
    forall x: seq<nat>, y: seq<nat> | TurnsTo(k, src.dims, x, y) ensures Inside(y, r.dims) && At(r, y) == At(src, x) {
      TurnedHoldsAt(src, k, turns, r, x, y);
    }
  }

  lemma TurnedHolds<T>(src: Tensor<T>, k: int)
    requires src.Valid()
    ensures HoldsTurned(src, k, Turned(src, k))
  {
    TurnedIs(src, k);
    TurnedHoldsBy(src, k, k % 4, Turned(src, k));
  }

  // ----- the loop

  /** The row, column and page of an offset by division. */
  lemma SplitByPlane(rows: nat, columns: nat, plane: nat, row: nat, column: nat, page: nat)
    requires row < rows && column < columns && plane == rows * columns
    ensures plane > 0
    ensures var o := LineOffset(rows, columns, row, column, page);
            && o / plane == page && o % plane == row + rows * column
            && (o % plane) % rows == row && (o % plane) / rows == column
  {
    BoundByRest(row, rows, column, columns);
    OffsetInPlane(rows, columns, plane, row, column, page);
    DivModUnique(row + rows * column, plane, page);
    DivModUnique(row, rows, column);
  }

  lemma OffsetInPlane(rows: nat, columns: nat, plane: nat, row: nat, column: nat, page: nat)
    requires plane == rows * columns
    ensures LineOffset(rows, columns, row, column, page) == row + rows * column + plane * page
  {
    Distribute(rows, column, columns, page);
  }

  lemma TurnedAtOffset<T>(turns: nat, data: seq<T>, rows: nat, columns: nat, m: nat, expected: seq<T>, o: nat)
    returns (row: nat, column: nat, page: nat)
    requires turns < 4 && |data| == rows * (columns * m)
    requires expected == TurnedData(turns, data, rows, columns, m) && o < |expected|
    ensures row < TurnedRows(turns, rows, columns) && column < TurnedRows(turns, columns, rows) && page < m
    ensures o == LineOffset(TurnedRows(turns, rows, columns), TurnedRows(turns, columns, rows), row, column, page)
    ensures expected[o] == ElementBefore(turns, data, rows, columns, m, row, column, page)
  {
    row, column, page := OffsetOnLine(TurnedRows(turns, rows, columns), TurnedRows(turns, columns, rows), m, o);
    TurnedAt(turns, data, rows, columns, m, row, column, page);
  }

  method SourceElement<T>(turns: nat, data: seq<T>, rows: nat, columns: nat, ghost m: nat, o: nat,
                          ghost row: nat, ghost column: nat, ghost page: nat)
    returns (v: Option<T>)
    requires 0 < turns < 4 && |data| == rows * (columns * m) && page < m
    requires row < TurnedRows(turns, rows, columns) && column < TurnedRows(turns, columns, rows)
    requires o == LineOffset(TurnedRows(turns, rows, columns), TurnedRows(turns, columns, rows), row, column, page)
    ensures v == Some(ElementBefore(turns, data, rows, columns, m, row, column, page))
  {
    var source := OffsetBefore(turns, rows, columns, o, TurnedRows(turns, rows, columns), TurnedRows(turns, columns, rows),
                               row, column, page);
    ghost var s := SpotBefore(turns, rows, columns, row, column);
    LineOffsetBound(rows, columns, m, s.row, s.column, page);
    v := if source < |data| then Some(data[source]) else None;
  }

  method OffsetBefore(turns: nat, rows: nat, columns: nat, o: nat,
                      ghost outRows: nat, ghost outColumns: nat, ghost row: nat, ghost column: nat, ghost page: nat)
    returns (source: nat)
    requires 0 < turns < 4 && row < outRows && column < outColumns && o == LineOffset(outRows, outColumns, row, column, page)
    requires outRows == TurnedRows(turns, rows, columns) && outColumns == TurnedRows(turns, columns, rows)
    ensures var s := SpotBefore(turns, rows, columns, row, column);
            source == LineOffset(rows, columns, s.row, s.column, page)
  {
    var plane, height := rows * columns, TurnedRows(turns, rows, columns);
    SplitByPlane(outRows, outColumns, plane, row, column, page);
    var inPlane := o % plane;
    var s := SpotBefore(turns, rows, columns, inPlane % height, inPlane / height);
    source := PlaneOffset(rows, columns, plane, s, o / plane);
  }

  method PlaneOffset(rows: nat, ghost columns: nat, plane: nat, s: Spot, page: nat) returns (source: nat)
    requires plane == rows * columns
    ensures source == LineOffset(rows, columns, s.row, s.column, page)
  {
    OffsetInPlane(rows, columns, plane, s.row, s.column, page);
    source := page * plane + (s.column * rows + s.row);
  }

  /** Turns every page; no source offset is ever outside. */
  method Rotate<T>(src: Tensor<T>, k: int) returns (r: Option<Tensor<T>>)
    requires src.Valid()
    ensures r == Some(Turned(src, k)) && HoldsTurned(src, k, r.value)
  {
    TurnedHolds(src, k);
    var turns := k % 4;
    if turns == 0 {
      NoTurns(src, k);
      return Some(src);
    }
    var dims := TurnedDims(turns, src.dims);
    PagesFill(src.dims);
    ghost var m := Pages(src.dims);
    ghost var expected := TurnedData(turns, src.data, src.dims[0], src.dims[1], m);
    assert expected == Turned(src, k).data;
    var output: seq<T> := [];
    for o := 0 to Product(dims)
      invariant |output| == o && output == expected[..o]
    {
      ghost var row, column, page := TurnedAtOffset(turns, src.data, src.dims[0], src.dims[1], m, expected, o);
      var v := SourceElement(turns, src.data, src.dims[0], src.dims[1], m, o, row, column, page);
      if v.None? {
        return None;
      }
      output := output + [v.value];
    }
    assert expected[..|expected|] == expected;
    r := Some(Tensor(dims, output));
  }
}
