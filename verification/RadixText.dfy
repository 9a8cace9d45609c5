/**
 Printing integers as texts of one width in radix 2 or 16, and reading such a text back.

 Negative numbers are printed in two's complement, in the smallest of the four fixed widths that holds
 the whole list.
 */
module RadixText {
  import opened Results
  import opened RadixDigits

  // ----- how wide the text is

  datatype Width = Width(digits: nat, bits: Option<nat>)

  predicate SignedRangeContains(bits: nat, minimum: int, maximum: int)
    requires bits > 0
  {
    minimum + Power(2, bits - 1) >= 0 && maximum <= Power(2, bits - 1) - 1
  }

  predicate SignedFits(bits: nat, values: seq<int>)
    requires bits > 0
  {
    forall i | 0 <= i < |values| :: SignedRangeContains(bits, values[i], values[i])
  }

  predicate HasNegative(values: seq<int>) {
    exists i | 0 <= i < |values| :: values[i] < 0
  }

  /** The width of a fixed number of bits in the radix. */
  function FixedDigits(radix: nat, bits: nat): nat {
    if radix == 16 then bits / 4 else bits
  }

  predicate IsFixedWidth(bits: nat) {
    bits == 8 || bits == 16 || bits == 32 || bits == 64
  }

  /** The natural width: as wide as the longest number, or the smallest fixed width when some are negative. */
  ghost predicate IsNaturalWidth(radix: nat, values: seq<int>, w: Width)
    requires IsRadix(radix)
  {
    if HasNegative(values) then
      && w.bits.Some? && IsFixedWidth(w.bits.value) && w.digits == FixedDigits(radix, w.bits.value)
      && SignedFits(w.bits.value, values)
      && forall b: nat | b < w.bits.value && IsFixedWidth(b) :: !SignedFits(b, values)
    else
      && w.bits.None?
      && (forall i | 0 <= i < |values| :: values[i] >= 0 && |Digits(values[i], radix)| <= w.digits)
      && (w.digits == 1 || exists i | 0 <= i < |values| :: values[i] >= 0 && |Digits(values[i], radix)| == w.digits)
  }

  method DigitWidth(value: nat, radix: nat) returns (width: nat)
    requires IsRadix(radix)
    ensures width == |Digits(value, radix)|
  {
    width := 1;
    var rest: nat := value;
    while rest >= radix
      invariant width - 1 + |Digits(rest, radix)| == |Digits(value, radix)|
    {
      rest := rest / radix;
      width := width + 1;
    }
  }

  /** The least negative and the greatest nonnegative value, each zero if there is none. */
  method Extremes(values: seq<int>) returns (negative: bool, minimum: int, maximum: nat)
    ensures negative <==> HasNegative(values)
    ensures minimum <= 0 && (minimum == 0 <==> !negative) && (minimum == 0 || minimum in values)
    ensures maximum == 0 || maximum in values
    ensures forall i | 0 <= i < |values| :: minimum <= values[i] <= maximum
  {
    negative, minimum, maximum := false, 0, 0;
    for k := 0 to |values|
      invariant negative <==> HasNegative(values[..k])
      invariant minimum <= 0 && (minimum == 0 <==> !negative) && (minimum == 0 || minimum in values)
      invariant maximum == 0 || maximum in values
      invariant forall i | 0 <= i < k :: minimum <= values[i] <= maximum
    {
      assert values[..k + 1] == values[..k] + [values[k]];
      if values[k] < 0 {
        negative := true;
        assert values[..k + 1][k] < 0;
        minimum := if values[k] < minimum then values[k] else minimum;
      } else {
        maximum := if values[k] > maximum then values[k] else maximum;
      }
      assert HasNegative(values[..k]) ==> HasNegative(values[..k + 1]) by {
        if HasNegative(values[..k]) {
          var i :| 0 <= i < k && values[..k][i] < 0;
          assert values[..k + 1][i] < 0;
        }
      }
    }
    assert values[..|values|] == values;
  }

  lemma FitsByExtremes(bits: nat, values: seq<int>, minimum: int, maximum: nat)
    requires bits > 0 && minimum < 0 && minimum in values && (maximum == 0 || maximum in values)
    requires forall i | 0 <= i < |values| :: minimum <= values[i] <= maximum
    ensures SignedRangeContains(bits, minimum, maximum) <==> SignedFits(bits, values)
  {
    PowerPositive(2, bits - 1);
    if SignedFits(bits, values) {
      var i :| 0 <= i < |values| && values[i] == minimum;
      assert SignedRangeContains(bits, values[i], values[i]);
      if maximum != 0 {
        var j :| 0 <= j < |values| && values[j] == maximum;
        assert SignedRangeContains(bits, values[j], values[j]);
      }
    }
  }

  lemma WiderFits(values: seq<int>, bits: nat, wider: nat)
    requires 0 < bits <= wider && SignedFits(bits, values)
    ensures SignedFits(wider, values)
  {
    PowerMonotone(2, bits - 1, wider - 1);
    forall i | 0 <= i < |values| ensures SignedRangeContains(wider, values[i], values[i]) {
      assert SignedRangeContains(bits, values[i], values[i]);
    }
  }

  /** The first of the four fixed widths that holds all the numbers. */
  method FixedWidth(radix: nat, values: seq<int>, minimum: int, maximum: nat) returns (w: Option<Width>)
    requires IsRadix(radix) && HasNegative(values)
    requires minimum < 0 && minimum in values && (maximum == 0 || maximum in values)
    requires forall i | 0 <= i < |values| :: minimum <= values[i] <= maximum
    ensures w.None? <==> !SignedFits(64, values)
    ensures w.Some? ==> IsNaturalWidth(radix, values, w.value)
  {
    var choices: seq<nat> := [8, 16, 32, 64];
    for k := 0 to |choices|
      invariant forall j | 0 <= j < k :: !SignedFits(choices[j], values)
    {
      var bits := choices[k];
      FitsByExtremes(bits, values, minimum, maximum);
      if SignedRangeContains(bits, minimum, maximum) {
        WiderFits(values, bits, 64);
        forall b: nat | b < bits && IsFixedWidth(b) ensures !SignedFits(b, values) {
          var j := if b == 8 then 0 else if b == 16 then 1 else 2;
          assert choices[j] == b;
        }
        return Some(Width(FixedDigits(radix, bits), Some(bits)));
      }
    }
    assert !SignedFits(choices[3], values);
    w := None;
  }

  /** Fails exactly when there are negative numbers and 64 bits do not hold them all. */
  method DecimalOutputWidth(radix: nat, values: seq<int>) returns (w: Option<Width>)
    requires IsRadix(radix)
    ensures w.None? <==> HasNegative(values) && !SignedFits(64, values)
    ensures w.Some? ==> IsNaturalWidth(radix, values, w.value)
  {
    var negative, minimum, maximum := Extremes(values);
    if negative {
      w := FixedWidth(radix, values, minimum, maximum);
      return;
    }
    forall i | 0 <= i < |values| ensures values[i] >= 0 {
    }
    var digits := DigitWidth(maximum, radix);
    forall i | 0 <= i < |values| ensures |Digits(values[i], radix)| <= digits {
      DigitsMonotone(values[i], maximum, radix);
    }
    assert digits == 1 || exists i | 0 <= i < |values| :: values[i] >= 0 && |Digits(values[i], radix)| == digits by {
      if maximum != 0 {
        var i :| 0 <= i < |values| && values[i] == maximum;
      }
    }
    w := Some(Width(digits, None));
  }

  // ----- one number

  /** Digits padded to the width, negative numbers with the largest digit. */
  function FormatDecimalValue(radix: nat, value: int, bits: Option<nat>, width: nat): Option<seq<nat>>
    requires IsRadix(radix) && (value < 0 ==> bits.Some? && value + Power(2, bits.value) >= 0)
  {
    var digits := if value >= 0 then Digits(value, radix) else Digits(Power(2, bits.value) + value, radix);
    var padding := if value >= 0 then DigitUnit(0) else DigitUnit(radix - 1);
    if |digits| > width then None else Some(Repeat(padding, width - |digits|) + digits)
  }

  /** Printed with all digits of the width, a number has the value it has modulo the power of the width. */
  ghost predicate ReadsAs(text: seq<nat>, radix: nat, v: int, width: nat) {
    && |text| == width && IsNumeral(text, radix)
    && Power(radix, width) > 0 && TextValue(text, radix) == v % Power(radix, width)
  }

  lemma FormattedValue(radix: nat, values: seq<int>, w: Width, width: nat, i: nat)
    requires IsRadix(radix) && IsNaturalWidth(radix, values, w) && w.digits <= width && i < |values|
    ensures values[i] < 0 ==> w.bits.Some? && values[i] + Power(2, w.bits.value) >= 0
    ensures FormatDecimalValue(radix, values[i], w.bits, width).Some?
    ensures ReadsAs(FormatDecimalValue(radix, values[i], w.bits, width).value, radix, values[i], width)
  {
    var v := values[i];
    if HasNegative(values) {
      assert SignedRangeContains(w.bits.value, v, v);
      FixedPowers(radix, w.bits.value);
      if v >= 0 {
        DigitsUpTo(v, radix, w.digits);
      }
    }
    if v < 0 {
      FormattedNegative(radix, v, w.bits.value, w.digits, width);
    } else {
      FormattedNonnegative(radix, v, w.bits, width);
    }
  }

  lemma FormattedNonnegative(radix: nat, v: nat, bits: Option<nat>, width: nat)
    requires IsRadix(radix) && |Digits(v, radix)| <= width
    ensures FormatDecimalValue(radix, v, bits, width).Some?
    ensures ReadsAs(FormatDecimalValue(radix, v, bits, width).value, radix, v, width)
  {
    NonnegativeText(radix, v, bits, width);
    WrapOnce(v, Power(radix, width));
  }

  lemma FormattedNegative(radix: nat, v: int, bits: nat, k: nat, width: nat)
    requires IsRadix(radix) && IsFixedWidth(bits) && k == FixedDigits(radix, bits) <= width
    requires v < 0 <= v + Power(2, bits - 1) <= v + Power(2, bits)
    ensures FormatDecimalValue(radix, v, Some(bits), width).Some?
    ensures ReadsAs(FormatDecimalValue(radix, v, Some(bits), width).value, radix, v, width)
  {
    var encoded := Power(2, bits) + v;
    ComplementDigits(radix, v, bits, encoded, k);
    NegativeText(radix, v, encoded, Digits(encoded, radix), k, width);
    ComplementReads(Repeat(DigitUnit(radix - 1), width - k) + Digits(encoded, radix), radix, v, width);
  }

  lemma ComplementReads(text: seq<nat>, radix: nat, v: int, width: nat)
    requires |text| == width && IsNumeral(text, radix) && v < 0 <= v + Power(radix, width)
    requires TextValue(text, radix) == Power(radix, width) + v
    ensures ReadsAs(text, radix, v, width)
  {
    WrapOnce(v, Power(radix, width));
  }

  /** A fixed number of bits is a whole number of digits, and its upper half needs all of them. */
  lemma FixedPowers(radix: nat, bits: nat)
    requires IsRadix(radix) && IsFixedWidth(bits)
    ensures var k := FixedDigits(radix, bits);
            k > 1 && Power(2, bits) == Power(radix, k) && Power(radix, k - 1) <= Power(2, bits - 1)
    ensures Power(2, bits) == 2 * Power(2, bits - 1)
  {
    if radix == 16 {
      PowerOfSixteen(bits / 4);
      PowerOfSixteen(bits / 4 - 1);
      PowerMonotone(2, 4 * (bits / 4 - 1), bits - 1);
    }
  }

  lemma {:induction false} DigitsUpTo(value: nat, radix: nat, k: nat)
    requires IsRadix(radix) && k > 0 && value < Power(radix, k)
    ensures |Digits(value, radix)| <= k
  {
    if value >= radix {
      assert Power(radix, 1) == Power(radix, 0) * radix == radix;
      assert k > 1;
      QuotientBelow(value, radix, Power(radix, k - 1));
      DigitsUpTo(value / radix, radix, k - 1);
    }
  }

  /** The value of padded digits. */
  lemma PaddedValue(radix: nat, pad: nat, digits: seq<nat>, width: nat)
    requires IsRadix(radix) && (pad == 0 || pad == radix - 1) && IsNumeral(digits, radix) && |digits| <= width
    ensures var text := Repeat(DigitUnit(pad), width - |digits|) + digits;
            && IsNumeral(text, radix)
            && TextValue(text, radix) == TextValue(digits, radix) +
                 (if pad == 0 then 0 else Power(radix, width - |digits|) - 1) * Power(radix, |digits|)
  {
    PaddingValue(pad, width - |digits|, radix);
    ConcatValue(Repeat(DigitUnit(pad), width - |digits|), digits, radix);
  }

  lemma NonnegativeText(radix: nat, v: nat, bits: Option<nat>, width: nat)
    requires IsRadix(radix) && |Digits(v, radix)| <= width
    ensures FormatDecimalValue(radix, v, bits, width) == Some(Repeat(DigitUnit(0), width - |Digits(v, radix)|) + Digits(v, radix))
    ensures v < Power(radix, width)
    ensures var text := Repeat(DigitUnit(0), width - |Digits(v, radix)|) + Digits(v, radix);
            IsNumeral(text, radix) && TextValue(text, radix) == v
  {
    DigitsValue(v, radix);
    PaddedValue(radix, 0, Digits(v, radix), width);
    DigitsBound(v, radix);
    PowerMonotone(radix, |Digits(v, radix)|, width);
  }

  /** The two's complement of a negative number uses all its digits. */
  lemma ComplementDigits(radix: nat, v: int, bits: nat, encoded: nat, k: nat)
    requires IsRadix(radix) && IsFixedWidth(bits) && k == FixedDigits(radix, bits)
    requires v < 0 <= v + Power(2, bits - 1) && encoded == Power(2, bits) + v
    ensures encoded == Power(radix, k) + v && |Digits(encoded, radix)| == k
  {
    FixedPowers(radix, bits);
    DigitsLength(encoded, radix, k);
  }

  lemma NegativeText(radix: nat, v: int, encoded: nat, digits: seq<nat>, k: nat, width: nat)
    requires IsRadix(radix) && v < 0 && digits == Digits(encoded, radix) && |digits| == k <= width
    requires encoded == Power(radix, k) + v
    ensures var text := Repeat(DigitUnit(radix - 1), width - k) + digits;
            IsNumeral(text, radix) && TextValue(text, radix) == Power(radix, width) + v
    ensures 0 <= v + Power(radix, width)
  {
    DigitsValue(encoded, radix);
    PowerMonotone(radix, k, width);
    LargestPadding(radix, digits, width, Power(radix, width - k), Power(radix, k), Power(radix, width), v);
  }

  lemma LargestPadding(radix: nat, digits: seq<nat>, width: nat, high: nat, low: nat, whole: nat, v: int)
    requires IsRadix(radix) && |digits| <= width && IsNumeral(digits, radix)
    requires high == Power(radix, width - |digits|) && low == Power(radix, |digits|) && whole == Power(radix, width)
    requires TextValue(digits, radix) == low + v
    ensures var text := Repeat(DigitUnit(radix - 1), width - |digits|) + digits;
            IsNumeral(text, radix) && TextValue(text, radix) == whole + v
  {
    PaddedValue(radix, radix - 1, digits, width);
    PowerAdd(radix, width - |digits|, |digits|);
    PaddedComplement(high, low, whole, v);
  }

  lemma PaddedComplement(high: nat, low: nat, whole: nat, v: int)
    requires whole == high * low
    ensures (high - 1) * low + (low + v) == whole + v
  {
  }

  lemma WrapOnce(v: int, whole: nat)
    requires 0 < whole && 0 <= v + whole && v < whole
    ensures v % whole == if v < 0 then whole + v else v
  {
  }
}
