/**
 Texts in radix 2 and 16 unit by unit: which characters are printed and read, and what each contributes.
 */
module RadixUnits {
  import opened MixedRadix
  import opened Results
  import opened RadixDigits
  import opened RadixText

  const UPPER := "0123456789ABCDEF"
  const LOWER := "0123456789abcdef"

  /** The digit of a number at a place counted from the right; negative numbers continue to the left in two's complement. */
  ghost predicate IsDigitAt(digit: nat, radix: nat, v: int, place: nat)
    requires radix > 0
  {
    && digit < radix
    && exists q: int :: IsQuotient(v, Power(radix, place), q) && q % radix == digit
  }

  /** The quotient rounded down. */
  ghost predicate IsQuotient(v: int, d: nat, q: int) {
    d * q <= v < d * q + d
  }

  // ----- characters

  /** Upper-case digits are printed, and the same ones in either case are read. */
  lemma DigitCharacters(digit: nat, unit: nat, radix: nat)
    requires IsRadix(radix)
    ensures digit < 16 ==> DigitUnit(digit) == UPPER[digit] as nat
    ensures AsciiDigit(unit, radix) == Some(digit) <==>
            digit < radix && (unit == UPPER[digit] as nat || unit == LOWER[digit] as nat)
  {
  }

  lemma CasesAlike(unit: nat, radix: nat)
    requires 'A' as nat <= unit <= 'F' as nat
    ensures AsciiDigit(unit, radix) == AsciiDigit(unit + ('a' as nat - 'A' as nat), radix)
  {
  }

  /** What fits the four fixed widths. */
  lemma FixedRanges(values: seq<int>)
    ensures SignedFits(8, values) <==> forall i | 0 <= i < |values| :: -128 <= values[i] <= 127
    ensures SignedFits(16, values) <==> forall i | 0 <= i < |values| :: -32768 <= values[i] <= 32767
    ensures SignedFits(32, values) <==> forall i | 0 <= i < |values| :: -0x8000_0000 <= values[i] <= 0x7FFF_FFFF
    ensures SignedFits(64, values) <==>
            forall i | 0 <= i < |values| :: -0x8000_0000_0000_0000 <= values[i] <= 0x7FFF_FFFF_FFFF_FFFF
  {
    HalfPowers();
    assert forall bits: nat | bits > 0 && SignedFits(bits, values) ::
      forall i | 0 <= i < |values| :: SignedRangeContains(bits, values[i], values[i]);
  }

  lemma HalfPowers()
    ensures Power(2, 7) == 128 && Power(2, 15) == 32768 && Power(2, 31) == 0x8000_0000 && Power(2, 63) == 0x8000_0000_0000_0000
  {
    assert Power(2, 7) == 128;
    PowerAdd(2, 8, 7);
    PowerAdd(2, 16, 15);
    PowerAdd(2, 32, 31);
    PowerAdd(2, 8, 8);
    PowerAdd(2, 16, 16);
  }

  // ----- digits of a value

  lemma NextQuotient(v: int, d: nat, radix: nat, q: int, low: nat)
    requires radix > 0 && low < radix && IsQuotient(v, d, q)
    ensures IsQuotient(v * radix + low, d * radix, q)
  {
    Times(d * q, v, radix);
    Times(v + 1, d * q + d, radix);
    assert d * q * radix == d * radix * q;
  }

  lemma Times(a: int, b: int, k: nat)
    requires a <= b
    ensures a * k <= b * k
  {
  }

  /** A digit moves one place to the left when another is appended. */
  lemma DigitMoves(digit: nat, radix: nat, v: nat, low: nat, place: nat)
    requires radix > 0 && low < radix && IsDigitAt(digit, radix, v, place)
    ensures IsDigitAt(digit, radix, v * radix + low, place + 1)
  {
    var q :| IsQuotient(v, Power(radix, place), q) && q % radix == digit;
    NextQuotient(v, Power(radix, place), radix, q, low);
    assert Power(radix, place + 1) == Power(radix, place) * radix;
  }

  lemma LowDigit(v: nat, low: nat, radix: nat)
    requires low < radix
    ensures (v * radix + low) % radix == low
  {
    DivModUnique(low, radix, v);
    assert v * radix + low == low + radix * v;
  }

  lemma QuotientByOne(v: int)
    ensures IsQuotient(v, 1, v)
  {
  }

  lemma LastDigit(digit: nat, radix: nat, v: nat, low: nat)
    requires IsRadix(radix) && low < radix && digit == low
    ensures IsDigitAt(digit, radix, v * radix + low, 0)
  {
    var q := v * radix + low;
    QuotientByOne(q);
    LowDigit(v, low, radix);
    assert IsQuotient(q, Power(radix, 0), q);
  }

  /** Each unit of a numeral is the digit of its value at its place. */
  lemma {:induction false} UnitIsDigitAt(text: seq<nat>, radix: nat, i: nat)
    requires IsRadix(radix) && IsNumeral(text, radix) && i < |text|
    ensures IsDigitAt(AsciiDigit(text[i], radix).value, radix, TextValue(text, radix), |text| - 1 - i)
  {
    var n := |text| - 1;
    var rest, low := TextValue(text[..n], radix), AsciiDigit(text[n], radix).value;
    if i == n {
      LastDigit(low, radix, rest, low);
    } else {
      UnitIsDigitAt(text[..n], radix, i);
      DigitMoves(AsciiDigit(text[i], radix).value, radix, rest, low, n - 1 - i);
    }
  }

  /** Numbers that differ by a multiple of a power have the same digits below it. */
  lemma DigitOfRemainder(digit: nat, radix: nat, v: int, width: nat, place: nat)
    requires IsRadix(radix) && place < width && Power(radix, width) > 0
    requires IsDigitAt(digit, radix, v % Power(radix, width), place)
    ensures IsDigitAt(digit, radix, v, place)
  {
    var whole, d, above := Power(radix, width), Power(radix, place), Power(radix, width - place - 1);
    var q :| IsQuotient(v % whole, d, q) && q % radix == digit;
    PowerAdd(radix, place, width - place);
    var turns := v / whole;
    QuotientShift(v, whole, d, radix, above, turns, q);
    SameDigit(q, radix, above * turns);
    assert IsQuotient(v, d, q + radix * (above * turns));
  }

  lemma QuotientShift(v: int, whole: nat, d: nat, radix: nat, above: nat, turns: int, q: int)
    requires whole > 0 && whole == d * (above * radix) && turns == v / whole && IsQuotient(v % whole, d, q)
    ensures IsQuotient(v, d, q + radix * (above * turns))
  {
    assert v == whole * turns + v % whole;
    assert d * (above * radix) * turns == d * (radix * (above * turns));
    assert d * (q + radix * (above * turns)) == d * q + d * (radix * (above * turns));
  }

  lemma SameDigit(q: int, radix: nat, k: int)
    requires IsRadix(radix)
    ensures (q + radix * k) % radix == q % radix
  {
  }

  // ----- printed texts

  /** Every unit of the text is the upper-case digit of the number at its place. */
  ghost predicate IsPrintedAs(text: seq<nat>, radix: nat, v: int)
    requires IsRadix(radix)
  {
    forall i: nat | i < |text| :: PrintsDigit(text[i], radix, v, |text| - 1 - i)
  }

  ghost predicate PrintsDigit(unit: nat, radix: nat, v: int, place: nat)
    requires IsRadix(radix)
  {
    exists digit: nat :: IsDigitAt(digit, radix, v, place) && unit == UPPER[digit] as nat
  }

  ghost predicate IsUpper(text: seq<nat>, radix: nat) {
    forall i | 0 <= i < |text| :: exists digit: nat | digit < radix :: text[i] == DigitUnit(digit)
  }

  lemma {:induction false} DigitsUpper(value: nat, radix: nat)
    requires IsRadix(radix)
    ensures IsUpper(Digits(value, radix), radix)
  {
    if value >= radix {
      DigitsUpper(value / radix, radix);
    }
  }

  lemma FormattedUpper(radix: nat, value: int, bits: Option<nat>, width: nat)
    requires IsRadix(radix) && (value < 0 ==> bits.Some? && value + Power(2, bits.value) >= 0)
    requires FormatDecimalValue(radix, value, bits, width).Some?
    ensures IsUpper(FormatDecimalValue(radix, value, bits, width).value, radix)
  {
    var digits := if value >= 0 then Digits(value, radix) else Digits(Power(2, bits.value) + value, radix);
    DigitsUpper(if value >= 0 then value else Power(2, bits.value) + value, radix);
    var text := FormatDecimalValue(radix, value, bits, width).value;
    forall i | 0 <= i < |text| ensures exists digit: nat | digit < radix :: text[i] == DigitUnit(digit) {
      if i < width - |digits| {
        assert text[i] == DigitUnit(if value >= 0 then 0 else radix - 1);
      } else {
        assert text[i] == digits[i - (width - |digits|)];
      }
    }
  }

  lemma PrintedDigit(text: seq<nat>, radix: nat, v: int, i: nat)
    requires IsRadix(radix) && ReadsAs(text, radix, v, |text|) && IsUpper(text, radix) && i < |text|
    ensures PrintsDigit(text[i], radix, v, |text| - 1 - i)
  {
    var digit: nat :| digit < radix && text[i] == DigitUnit(digit);
    UnitIsDigit(digit, radix);
    UnitIsDigitAt(text, radix, i);
    DigitOfRemainder(digit, radix, v, |text|, |text| - 1 - i);
    DigitCharacters(digit, text[i], radix);
  }

  lemma UpperIsPrinted(text: seq<nat>, radix: nat, v: int)
    requires IsRadix(radix) && ReadsAs(text, radix, v, |text|) && IsUpper(text, radix)
    ensures IsPrintedAs(text, radix, v)
  {
    forall i: nat | i < |text| ensures PrintsDigit(text[i], radix, v, |text| - 1 - i) {
      PrintedDigit(text, radix, v, i);
    }
  }

  // ----- the natural width

  lemma {:induction false} DigitsAtLeast(value: nat, radix: nat)
    requires IsRadix(radix) && |Digits(value, radix)| > 1
    ensures value >= Power(radix, |Digits(value, radix)| - 1)
  {
    var rest, k := value / radix, |Digits(value / radix, radix)|;
    var power := Power(radix, k - 1);
    if k > 1 {
      DigitsAtLeast(rest, radix);
    } else {
      assert power == 1;
    }
    Times(power, rest, radix);
    assert rest * radix <= value;
  }

  /** So many digits are enough for all the numbers, none of which is negative. */
  ghost predicate HoldsAll(radix: nat, values: seq<int>, digits: nat) {
    forall i | 0 <= i < |values| :: 0 <= values[i] < Power(radix, digits)
  }

  /**
   The natural width is the least that holds all numbers or, when some are negative, the digits of the least of
   8, 16, 32 and 64 bits that does.
   */
  lemma NaturalWidthIsLeast(radix: nat, values: seq<int>, w: Width)
    requires IsRadix(radix) && IsNaturalWidth(radix, values, w)
    ensures !HasNegative(values) ==>
              w.digits >= 1 && HoldsAll(radix, values, w.digits) && forall n: nat | 0 < n < w.digits :: !HoldsAll(radix, values, n)
    ensures HasNegative(values) ==>
              && w.bits.Some? && w.bits.value in {8, 16, 32, 64} && w.bits.value == (if radix == 2 then 1 else 4) * w.digits
              && SignedFits(w.bits.value, values)
              && forall b: nat | b in {8, 16, 32, 64} && b < w.bits.value :: !SignedFits(b, values)
  {
    if !HasNegative(values) {
      forall i | 0 <= i < |values| ensures 0 <= values[i] < Power(radix, w.digits) {
        DigitsBound(values[i], radix);
        PowerMonotone(radix, |Digits(values[i], radix)|, w.digits);
      }
      forall n: nat | 0 < n < w.digits ensures !HoldsAll(radix, values, n) {
        var i :| 0 <= i < |values| && values[i] >= 0 && |Digits(values[i], radix)| == w.digits;
        DigitsAtLeast(values[i], radix);
        PowerMonotone(radix, n, w.digits - 1);
      }
    }
  }
}
