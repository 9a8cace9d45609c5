/**
 Char matrices of printed numbers, one number a row, stored column by column.
 */
module RadixMatrix {
  import opened MixedRadix
  import opened Results
  import opened Tensors
  import opened Lines
  import opened RadixDigits
  import opened RadixText
  import opened RadixUnits
  import opened RadixReading

  // ----- rows of a char matrix

  /** Element `row` of column `column` in a matrix with `rows` rows. */
  function Cell(rows: nat, row: nat, column: nat): nat {
    row + column * rows
  }

  lemma CellIsLine(rows: nat, columns: nat, row: nat, column: nat)
    requires row < rows && column < columns
    ensures Cell(rows, row, column) == LineOffset(rows, columns, row, column, 0) < rows * columns
  {
    BoundByRest(row, rows, column, columns);
    assert columns * 0 == 0 && rows * column == column * rows;
  }

  predicate IsMatrix(t: Tensor<nat>, rows: nat, columns: nat) {
    t.dims == [rows, columns] && |t.data| == rows * columns
  }

  function RowText(t: Tensor<nat>, rows: nat, columns: nat, row: nat): (text: seq<nat>)
    requires IsMatrix(t, rows, columns) && row < rows
    ensures |text| == columns
  {
    seq(columns, column requires 0 <= column < columns =>
      CellIsLine(rows, columns, row, column); t.data[Cell(rows, row, column)])
  }

  ghost predicate SameWidth(texts: seq<seq<nat>>, width: nat) {
    forall i | 0 <= i < |texts| :: |texts[i]| == width
  }

  /** The matrix read column by column. */
  ghost function ByColumns(texts: seq<seq<nat>>, width: nat): (data: seq<nat>)
    requires SameWidth(texts, width)
    ensures |data| == |texts| * (width * 1)
  {
    Table(|texts|, width, 1, (row: nat, column: nat, page: nat) requires row < |texts| && column < width && page < 1 => texts[row][column])
  }

  lemma ByColumnsAt(texts: seq<seq<nat>>, width: nat, row: nat, column: nat)
    requires SameWidth(texts, width) && row < |texts| && column < width
    ensures LineOffset(|texts|, width, row, column, 0) < |texts| * (width * 1)
    ensures ByColumns(texts, width)[LineOffset(|texts|, width, row, column, 0)] == texts[row][column]
  {
    TableAt(|texts|, width, 1, (row: nat, column: nat, page: nat) requires row < |texts| && column < width && page < 1 => texts[row][column],
            row, column, 0);
  }

  method PushColumn(texts: seq<seq<nat>>, width: nat, column: nat, output: seq<nat>, ghost expected: seq<nat>)
    returns (next: seq<nat>)
    requires SameWidth(texts, width) && expected == ByColumns(texts, width) && column < width
    requires Emitted(output, expected, LineOffset(|texts|, width, 0, column, 0))
    ensures Emitted(next, expected, LineOffset(|texts|, width, 0, column + 1, 0))
  {
    next := output;
    for row := 0 to |texts|
      invariant Emitted(next, expected, LineOffset(|texts|, width, row, column, 0))
    {
      ByColumnsAt(texts, width, row, column);
      next := next + [texts[row][column]];
    }
    NextOffset(|texts|, width, column, 0);
  }

  /** Lays texts of one width out as the rows of a matrix. */
  method CharRows(texts: seq<seq<nat>>, width: nat) returns (t: Tensor<nat>)
    requires SameWidth(texts, width)
    ensures IsMatrix(t, |texts|, width) && t.Valid()
    ensures forall row: nat | row < |texts| :: RowText(t, |texts|, width, row) == texts[row]
  {
    var values: seq<nat> := [];
    ghost var expected := ByColumns(texts, width);
    NextOffset(|texts|, width, 0, 0);
    for column := 0 to width
      invariant Emitted(values, expected, LineOffset(|texts|, width, 0, column, 0))
    {
      values := PushColumn(texts, width, column, values, expected);
    }
    NextOffset(|texts|, width, 0, 0);
    NextOffset(|texts|, width, 0, 1);
    assert expected[..|expected|] == expected;
    Encode2(0, 0, |texts|, width);
    t := Tensor([|texts|, width], values);
    forall row: nat | row < |texts| ensures RowText(t, |texts|, width, row) == texts[row] {
      forall column: nat | column < width ensures RowText(t, |texts|, width, row)[column] == texts[row][column] {
        CellIsLine(|texts|, width, row, column);
        ByColumnsAt(texts, width, row, column);
      }
    }
  }

  method ReadRow(t: Tensor<nat>, rows: nat, columns: nat, row: nat) returns (text: seq<nat>)
    requires IsMatrix(t, rows, columns) && row < rows
    ensures text == RowText(t, rows, columns, row)
  {
    text := [];
    ghost var expected := RowText(t, rows, columns, row);
    for column := 0 to columns
      invariant Emitted(text, expected, column)
    {
      CellIsLine(rows, columns, row, column);
      text := text + [t.data[Cell(rows, row, column)]];
    }
    assert expected[..columns] == expected;
  }

  // ----- printing

  /** The width that is printed: the natural one, or the minimum if that is larger. */
  ghost predicate IsPrintedWidth(radix: nat, values: seq<int>, minimumWidth: nat, width: nat)
    requires IsRadix(radix)
  {
    exists w :: IsNaturalWidth(radix, values, w) && width == if w.digits < minimumWidth then minimumWidth else w.digits
  }

  /** One row per number, each of the printed width and each with the value of its number at that width. */
  ghost predicate IsPrinted(radix: nat, values: seq<int>, minimumWidth: nat, t: Tensor<nat>)
    requires IsRadix(radix)
  {
    if values == [] then t == Tensor([0, 0], [])
    else
      && |t.dims| == 2 && IsMatrix(t, |values|, t.dims[1]) && IsPrintedWidth(radix, values, minimumWidth, t.dims[1])
      && forall i: nat | i < |values| :: ReadsAs(RowText(t, |values|, t.dims[1], i), radix, values[i], t.dims[1])
  }

  /** The characters of the matrix are the digits of the numbers: a row for each, the last digit in the last column. */
  ghost predicate ShowsNumbers(radix: nat, values: seq<int>, t: Tensor<nat>)
    requires IsRadix(radix)
  {
    if values == [] then t.dims == [0, 0]
    else
      && |t.dims| == 2 && t.dims[0] == |values|
      && forall i: nat, column: nat | i < |values| && column < t.dims[1] :: ShowsDigitOf(radix, values, t, i, column)
  }

  ghost predicate ShowsDigitOf(radix: nat, values: seq<int>, t: Tensor<nat>, i: nat, column: nat)
    requires IsRadix(radix) && i < |values| && |t.dims| == 2 && column < t.dims[1]
  {
    && i + column * |values| < |t.data|
    && PrintsDigit(t.data[i + column * |values|], radix, values[i], t.dims[1] - 1 - column)
  }

  lemma RowsShowNumbers(radix: nat, values: seq<int>, t: Tensor<nat>, width: nat)
    requires IsRadix(radix) && values != [] && IsMatrix(t, |values|, width)
    requires forall i: nat | i < |values| :: IsRow(RowText(t, |values|, width, i), radix, values[i], width)
    ensures ShowsNumbers(radix, values, t)
  {
    forall i: nat, column: nat | i < |values| && column < width ensures ShowsDigitOf(radix, values, t, i, column) {
      CellIsLine(|values|, width, i, column);
      var text := RowText(t, |values|, width, i);
      assert IsRow(text, radix, values[i], width);
      assert PrintsDigit(text[column], radix, values[i], |text| - 1 - column);
    }
  }

  /** Every number fits the natural width, so no text is ever too long for the matrix. */
  method DecimalText(radix: nat, values: seq<int>, minimumWidth: nat) returns (r: Option<Tensor<nat>>)
    requires IsRadix(radix)
    ensures r.None? <==> HasNegative(values) && !SignedFits(64, values)
    ensures r.Some? ==> r.value.Valid() && IsPrinted(radix, values, minimumWidth, r.value)
    ensures r.Some? ==> ShowsNumbers(radix, values, r.value)
  {
    if values == [] {
      Encode2(0, 0, 0, 0);
      return Some(Tensor([0, 0], []));
    }
    var natural := DecimalOutputWidth(radix, values);
    if natural.None? {
      return None;
    }
    var w := natural.value;
    var width := if w.digits < minimumWidth then minimumWidth else w.digits;
    var rows := FormatAll(radix, values, w, width);
    if rows.None? {
      return None;
    }
    var t := CharRows(rows.value, width);
    RowsShowNumbers(radix, values, t, width);
    r := Some(t);
  }

  /** Prints one number; the text is never too long. */
  method FormatOne(radix: nat, values: seq<int>, w: Width, width: nat, i: nat) returns (text: Option<seq<nat>>)
    requires IsRadix(radix) && IsNaturalWidth(radix, values, w) && w.digits <= width && i < |values|
    ensures text.Some? && IsRow(text.value, radix, values[i], width)
  {
    FormattedValue(radix, values, w, width, i);
    FormattedUpper(radix, values[i], w.bits, width);
    text := FormatDecimalValue(radix, values[i], w.bits, width);
    UpperIsPrinted(text.value, radix, values[i]);
  }

  ghost predicate IsRow(text: seq<nat>, radix: nat, v: int, width: nat)
    requires IsRadix(radix)
  {
    |text| == width && ReadsAs(text, radix, v, width) && IsPrintedAs(text, radix, v)
  }

  method FormatAll(radix: nat, values: seq<int>, w: Width, width: nat) returns (r: Option<seq<seq<nat>>>)
    requires IsRadix(radix) && IsNaturalWidth(radix, values, w) && w.digits <= width
    ensures r.Some? && |r.value| == |values| && SameWidth(r.value, width)
    ensures forall i | 0 <= i < |values| :: IsRow(r.value[i], radix, values[i], width)
  {
    var rows: seq<seq<nat>> := [];
    for i := 0 to |values|
      invariant |rows| == i
      invariant forall j | 0 <= j < i :: IsRow(rows[j], radix, values[j], width)
    {
      var text := FormatOne(radix, values, w, width, i);
      if text.None? {
        return None;
      }
      rows := rows + [text.value];
    }
    r := Some(rows);
  }

  // ----- reading

  method ReadNumber(radix: nat, t: Tensor<nat>, rows: nat, columns: nat, row: nat) returns (r: Result<nat, TextError>)
    requires IsRadix(radix) && IsMatrix(t, rows, columns) && row < rows
    ensures r == Parsed(radix, RowText(t, rows, columns, row))
  {
    var text := ReadRow(t, rows, columns, row);
    r := ParseRadixText(radix, text);
  }

  /** Reads the rows in order, up to the first that is not a number. */
  method ReadRows(radix: nat, t: Tensor<nat>, rows: nat, columns: nat) returns (r: Result<seq<nat>, TextError>)
    requires IsRadix(radix) && IsMatrix(t, rows, columns)
    ensures r.Ok? ==> |r.value| == rows && forall i: nat | i < rows :: Parsed(radix, RowText(t, rows, columns, i)) == Ok(r.value[i])
    ensures r.Err? ==>
              exists i: nat | i < rows ::
                && Parsed(radix, RowText(t, rows, columns, i)) == Err(r.error)
                && forall j: nat | j < i :: Parsed(radix, RowText(t, rows, columns, j)).Ok?
  {
    var values: seq<nat> := [];
    for i := 0 to rows
      invariant |values| == i
      invariant forall j: nat | j < i :: Parsed(radix, RowText(t, rows, columns, j)) == Ok(values[j])
    {
      var value := ReadNumber(radix, t, rows, columns, i);
      if value.Err? {
        return Err(value.error);
      }
      values := values + [value.value];
    }
    r := Ok(values);
  }

  /** Reads every row; the error is that of the first row that is not a number. */
  method RadixDecimal(radix: nat, t: Tensor<nat>) returns (r: Result<Tensor<nat>, TextError>)
    requires IsRadix(radix) && t.Valid()
    ensures |t.dims| != 2 ==> r == Err(NotTwoDimensional)
    ensures |t.dims| == 2 ==> IsMatrix(t, t.dims[0], t.dims[1])
    ensures |t.dims| == 2 && r.Ok? ==>
              && r.value.Valid() && r.value.dims == (if t.dims[0] == 0 then [0, 0] else [t.dims[0], 1])
              && |r.value.data| == t.dims[0]
              && forall i: nat | i < t.dims[0] :: Parsed(radix, RowText(t, t.dims[0], t.dims[1], i)) == Ok(r.value.data[i])
    ensures |t.dims| == 2 && r.Err? ==>
              exists i: nat | i < t.dims[0] ::
                && Parsed(radix, RowText(t, t.dims[0], t.dims[1], i)) == Err(r.error)
                && forall j: nat | j < i :: Parsed(radix, RowText(t, t.dims[0], t.dims[1], j)).Ok?
  {
    if |t.dims| != 2 {
      return Err(NotTwoDimensional);
    }
    var rows, columns := t.dims[0], t.dims[1];
    Encode2(0, 0, rows, columns);
    assert t.dims == [rows, columns];
    var values := ReadRows(radix, t, rows, columns);
    if values.Err? {
      return Err(values.error);
    }
    Encode2(0, 0, rows, 1);
    Encode2(0, 0, 0, 0);
    r := Ok(Tensor(if rows == 0 then [0, 0] else [rows, 1], values.value));
  }

  // ----- both

  lemma ParsedBack(text: seq<nat>, radix: nat, v: int, width: nat)
    requires IsRadix(radix) && ReadsAs(text, radix, v, width)
    ensures Parsed(radix, text) ==
            if width <= MaximumDigits(radix) then Ok(v % Power(radix, width)) else Err(TooManyDigits)
  {
    NumeralIsSignificant(text, radix);
  }

  /** Nonnegative numbers come back as they are. */
  lemma NonnegativeRestored(radix: nat, values: seq<int>, w: Width, width: nat, i: nat)
    requires IsRadix(radix) && IsNaturalWidth(radix, values, w) && w.digits <= width && i < |values| && values[i] >= 0
    ensures Power(radix, width) > 0 && values[i] % Power(radix, width) == values[i]
  {
    FormattedValue(radix, values, w, width, i);
    if HasNegative(values) {
      assert SignedRangeContains(w.bits.value, values[i], values[i]);
      FixedPowers(radix, w.bits.value);
      DigitsUpTo(values[i], radix, w.digits);
    }
    NonnegativeText(radix, values[i], w.bits, width);
    WrapOnce(values[i], Power(radix, width));
  }

  /** Every number has a text that the reader takes. */
  predicate Readable(radix: nat, values: seq<int>, minimumWidth: nat) {
    values == [] ||
    (minimumWidth <= MaximumDigits(radix) &&
     forall i | 0 <= i < |values| :: values[i] < Power(radix, MaximumDigits(radix)))
  }

  lemma FixedWidthReadable(radix: nat, values: seq<int>, bits: nat)
    requires IsRadix(radix) && IsFixedWidth(bits) && SignedFits(bits, values)
    ensures FixedDigits(radix, bits) <= MaximumDigits(radix)
    ensures forall i | 0 <= i < |values| :: values[i] < Power(radix, MaximumDigits(radix))
  {
    var digits, limit := FixedDigits(radix, bits), MaximumDigits(radix);
    FixedPowers(radix, bits);
    PowerMonotone(radix, digits, limit);
    forall i | 0 <= i < |values| ensures values[i] < Power(radix, limit) {
      assert SignedRangeContains(bits, values[i], values[i]);
    }
  }

  lemma NaturalWidthReadable(radix: nat, values: seq<int>, digits: nat)
    requires IsRadix(radix) && !HasNegative(values) && IsNaturalWidth(radix, values, Width(digits, None))
    ensures digits <= MaximumDigits(radix) <==>
            forall i | 0 <= i < |values| :: values[i] < Power(radix, MaximumDigits(radix))
  {
    var limit := MaximumDigits(radix);
    if digits <= limit {
      forall i | 0 <= i < |values| ensures values[i] < Power(radix, limit) {
        DigitsBound(values[i], radix);
        PowerMonotone(radix, |Digits(values[i], radix)|, limit);
      }
    } else {
      var i :| 0 <= i < |values| && values[i] >= 0 && |Digits(values[i], radix)| == digits;
      if values[i] < Power(radix, limit) {
        DigitsUpTo(values[i], radix, limit);
        assert false;
      }
    }
  }

  /** The printed width is one that the reader takes exactly when numbers and minimum width allow it. */
  lemma PrintedWidthReadable(radix: nat, values: seq<int>, minimumWidth: nat, width: nat)
    requires IsRadix(radix) && values != [] && IsPrintedWidth(radix, values, minimumWidth, width)
    ensures width <= MaximumDigits(radix) <==> Readable(radix, values, minimumWidth)
  {
    var w :| IsNaturalWidth(radix, values, w) && width == if w.digits < minimumWidth then minimumWidth else w.digits;
    if HasNegative(values) {
      FixedWidthReadable(radix, values, w.bits.value);
    } else {
      NaturalWidthReadable(radix, values, w.digits);
    }
  }

  /** What reading the rows of a printed matrix gives. */
  lemma PrintedRows(radix: nat, values: seq<int>, minimumWidth: nat, t: Tensor<nat>, i: nat)
    requires IsRadix(radix) && values != [] && IsPrinted(radix, values, minimumWidth, t) && i < |values|
    ensures Power(radix, t.dims[1]) > 0
    ensures Parsed(radix, RowText(t, |values|, t.dims[1], i)) ==
            if Readable(radix, values, minimumWidth) then Ok(values[i] % Power(radix, t.dims[1])) else Err(TooManyDigits)
    ensures values[i] >= 0 ==> values[i] % Power(radix, t.dims[1]) == values[i]
  {
    var width := t.dims[1];
    ParsedBack(RowText(t, |values|, width, i), radix, values[i], width);
    PrintedWidthReadable(radix, values, minimumWidth, width);
    if values[i] >= 0 {
      var w :| IsNaturalWidth(radix, values, w) && width == if w.digits < minimumWidth then minimumWidth else w.digits;
      NonnegativeRestored(radix, values, w, width, i);
    }
  }

  /**
   Printed and read back, every number is itself modulo the power of the printed width, provided the
   minimum width and all numbers are within what the reader takes; otherwise reading fails.
   */
  method TextRoundTrip(radix: nat, values: seq<int>, minimumWidth: nat)
    returns (text: Option<Tensor<nat>>, r: Result<Tensor<nat>, TextError>)
    requires IsRadix(radix)
    ensures text.None? <==> HasNegative(values) && !SignedFits(64, values)
    ensures text.Some? ==> IsPrinted(radix, values, minimumWidth, text.value)
    ensures text.Some? ==> (r.Ok? <==> Readable(radix, values, minimumWidth))
    ensures text.Some? && r.Err? ==> r.error == TooManyDigits
    ensures text.Some? && r.Ok? ==>
              && r.value.dims == (if values == [] then [0, 0] else [|values|, 1]) && |r.value.data| == |values|
              && forall i | 0 <= i < |values| ::
                   && Power(radix, text.value.dims[1]) > 0
                   && r.value.data[i] == values[i] % Power(radix, text.value.dims[1])
                   && (values[i] >= 0 ==> r.value.data[i] == values[i])
  {
    text := DecimalText(radix, values, minimumWidth);
    r := Err(NotTwoDimensional);
    if text.Some? {
      r := RadixDecimal(radix, text.value);
      forall i: nat | i < |values|
        ensures Power(radix, text.value.dims[1]) > 0
        ensures Parsed(radix, RowText(text.value, |values|, text.value.dims[1], i)) ==
                if Readable(radix, values, minimumWidth) then Ok(values[i] % Power(radix, text.value.dims[1]))
                else Err(TooManyDigits)
        ensures values[i] >= 0 ==> values[i] % Power(radix, text.value.dims[1]) == values[i]
      {
        PrintedRows(radix, values, minimumWidth, text.value, i);
      }
      assert values != [] && r.Ok? ==> Parsed(radix, RowText(text.value, |values|, text.value.dims[1], 0)).Ok?;
    }
  }

  /** One printed with seventeen hexadecimal digits is not read back. */
  method TooWide() returns (text: Option<Tensor<nat>>, r: Result<Tensor<nat>, TextError>)
    ensures text.Some? && text.value.dims == [1, 17] && r == Err(TooManyDigits)
  {
    text, r := TextRoundTrip(16, [1], 17);
    assert !HasNegative([1]);
    assert |Digits(1, 16)| == 1;
  }
}
