/**
 Numbers as digit texts in radix 2 and 16, most significant digit first, as 16-bit code units.
 */
module RadixDigits {
  import opened Results

  predicate IsRadix(radix: nat) {
    radix == 2 || radix == 16
  }

  function Power(base: nat, k: nat): nat {
    if k == 0 then 1 else Power(base, k - 1) * base
  }

  // ----- digits

  function DigitUnit(digit: nat): nat {
    if digit < 10 then 48 + digit else 55 + digit
  }

  /** The value of a code unit as a digit, upper or lower case. */
  function AsciiDigit(unit: nat, radix: nat): Option<nat> {
    var digit :=
      if 48 <= unit <= 57 then Some(unit - 48)
      else if 65 <= unit <= 70 then Some(unit - 65 + 10)
      else if 97 <= unit <= 102 then Some(unit - 97 + 10)
      else None;
    if digit.Some? && digit.value < radix then digit else None
  }

  predicate IsNumeral(text: seq<nat>, radix: nat) {
    forall i | 0 <= i < |text| :: AsciiDigit(text[i], radix).Some?
  }

  function TextValue(text: seq<nat>, radix: nat): nat
    requires IsNumeral(text, radix)
  {
    if text == [] then 0
    else TextValue(text[..|text| - 1], radix) * radix + AsciiDigit(text[|text| - 1], radix).value
  }

  /** The shortest text of a number. */
  function Digits(value: nat, radix: nat): (text: seq<nat>)
    requires IsRadix(radix)
    ensures |text| > 0
  {
    if value < radix then [DigitUnit(value)] else Digits(value / radix, radix) + [DigitUnit(value % radix)]
  }

  function Repeat(unit: nat, count: nat): (text: seq<nat>)
    ensures |text| == count
  {
    seq(count, _ => unit)
  }

  // ----- values of texts

  lemma UnitIsDigit(digit: nat, radix: nat)
    requires IsRadix(radix) && digit < radix
    ensures AsciiDigit(DigitUnit(digit), radix) == Some(digit)
  {
  }

  lemma TextSnoc(text: seq<nat>, unit: nat, radix: nat)
    requires IsNumeral(text, radix) && AsciiDigit(unit, radix).Some?
    ensures IsNumeral(text + [unit], radix)
    ensures TextValue(text + [unit], radix) == TextValue(text, radix) * radix + AsciiDigit(unit, radix).value
  {
    assert (text + [unit])[..|text|] == text;
  }

  lemma {:induction false} DigitsValue(value: nat, radix: nat)
    requires IsRadix(radix)
    ensures IsNumeral(Digits(value, radix), radix) && TextValue(Digits(value, radix), radix) == value
  {
    UnitIsDigit(value % radix, radix);
    if value < radix {
      TextSnoc([], DigitUnit(value), radix);
      assert [] + [DigitUnit(value)] == Digits(value, radix);
    } else {
      DigitsValue(value / radix, radix);
      TextSnoc(Digits(value / radix, radix), DigitUnit(value % radix), radix);
    }
  }

  lemma {:induction false} PowerPositive(base: nat, k: nat)
    requires base > 0
    ensures Power(base, k) > 0
  {
    if k > 0 {
      PowerPositive(base, k - 1);
    }
  }

  lemma Regroup(a: nat, b: nat, c: nat)
    ensures a * b * c == a * (b * c)
  {
  }

  lemma {:induction false} PowerAdd(base: nat, j: nat, k: nat)
    ensures Power(base, j + k) == Power(base, j) * Power(base, k)
  {
    if k > 0 {
      PowerAdd(base, j, k - 1);
      Regroup(Power(base, j), Power(base, k - 1), base);
    }
  }

  lemma TimesAtLeast(a: nat, b: nat)
    requires b > 0
    ensures a * b >= a
  {
  }

  lemma {:induction false} PowerMonotone(base: nat, j: nat, k: nat)
    requires base > 0 && j <= k
    ensures Power(base, j) <= Power(base, k)
  {
    if j < k {
      PowerMonotone(base, j, k - 1);
      TimesAtLeast(Power(base, k - 1), base);
    }
  }

  lemma {:induction false} PowerOfSixteen(k: nat)
    ensures Power(16, k) == Power(2, 4 * k)
  {
    if k > 0 {
      PowerOfSixteen(k - 1);
      PowerAdd(2, 4 * (k - 1), 4);
      assert Power(2, 4) == 16;
    }
  }

  /** A number has `k` digits when it is at least the smallest and less than the largest power. */
  lemma {:induction false} DigitsLength(value: nat, radix: nat, k: nat)
    requires IsRadix(radix) && k > 0 && value < Power(radix, k) && (k > 1 ==> value >= Power(radix, k - 1))
    ensures |Digits(value, radix)| == k
  {
    if k == 1 {
      assert Power(radix, 1) == Power(radix, 0) * radix == radix;
    } else {
      PowerMonotone(radix, 1, k - 1);
      assert Power(radix, 1) == Power(radix, 0) * radix == radix;
      QuotientBelow(value, radix, Power(radix, k - 1));
      if k > 2 {
        QuotientAtLeast(value, radix, Power(radix, k - 2));
      }
      DigitsLength(value / radix, radix, k - 1);
    }
  }

  lemma QuotientBelow(value: nat, radix: nat, bound: nat)
    requires radix > 0 && value < bound * radix
    ensures value / radix < bound
  {
    var q := value / radix;
    assert value == radix * q + value % radix;
    assert q >= bound ==> radix * q >= radix * bound;
  }

  lemma QuotientAtLeast(value: nat, radix: nat, bound: nat)
    requires radix > 0 && value >= bound * radix
    ensures value / radix >= bound
  {
    var q := value / radix;
    assert value < radix * (q + 1);
    assert q + 1 <= bound ==> radix * (q + 1) <= radix * bound;
  }

  lemma {:induction false} DigitsBound(value: nat, radix: nat)
    requires IsRadix(radix)
    ensures value < Power(radix, |Digits(value, radix)|)
  {
    if value < radix {
      assert Power(radix, 1) == Power(radix, 0) * radix == radix;
    } else {
      DigitsBound(value / radix, radix);
      var k := |Digits(value / radix, radix)|;
      OneMoreDigit(value / radix, Power(radix, k), value % radix, radix);
    }
  }

  /** Larger numbers do not have fewer digits. */
  lemma DigitsMonotone(a: nat, b: nat, radix: nat)
    requires IsRadix(radix) && a <= b
    ensures |Digits(a, radix)| <= |Digits(b, radix)|
  {
    if a >= radix {
      assert a / radix <= b / radix;
      DigitsMonotone(a / radix, b / radix, radix);
    }
  }

  lemma {:induction false} ConcatValue(high: seq<nat>, low: seq<nat>, radix: nat)
    requires IsNumeral(high, radix) && IsNumeral(low, radix)
    ensures IsNumeral(high + low, radix)
    ensures TextValue(high + low, radix) == TextValue(high, radix) * Power(radix, |low|) + TextValue(low, radix)
  {
    if low == [] {
      assert high + low == high;
    } else {
      var k := |low| - 1;
      ConcatValue(high, low[..k], radix);
      assert low == low[..k] + [low[k]] && high + low == high + low[..k] + [low[k]];
      TextSnoc(high + low[..k], low[k], radix);
      TextSnoc(low[..k], low[k], radix);
      ShiftDigits(TextValue(high, radix), Power(radix, k), TextValue(low[..k], radix), radix,
                  TextValue(high + low[..k], radix), Power(radix, |low|));
    }
  }

  lemma ShiftDigits(high: nat, weight: nat, low: nat, radix: nat, whole: nat, next: nat)
    requires whole == high * weight + low && next == weight * radix
    ensures whole * radix == high * next + low * radix
  {
    assert high * weight * radix == high * (weight * radix);
  }

  /** Leading zeros add nothing; leading largest digits are one less than a power. */
  lemma {:induction false} PaddingValue(digit: nat, count: nat, radix: nat)
    requires IsRadix(radix) && (digit == 0 || digit == radix - 1)
    ensures IsNumeral(Repeat(DigitUnit(digit), count), radix)
    ensures TextValue(Repeat(DigitUnit(digit), count), radix) == if digit == 0 then 0 else Power(radix, count) - 1
  {
    UnitIsDigit(digit, radix);
    if count > 0 {
      PaddingValue(digit, count - 1, radix);
      assert Repeat(DigitUnit(digit), count) == Repeat(DigitUnit(digit), count - 1) + [DigitUnit(digit)];
      TextSnoc(Repeat(DigitUnit(digit), count - 1), DigitUnit(digit), radix);
    }
  }

  lemma OneMoreDigit(value: nat, bound: nat, digit: nat, radix: nat)
    requires value < bound && digit < radix
    ensures value * radix + digit < bound * radix
  {
    assert (value + 1) * radix <= bound * radix;
  }

  lemma {:induction false} ValueBound(text: seq<nat>, radix: nat)
    requires IsNumeral(text, radix) && radix > 0
    ensures TextValue(text, radix) < Power(radix, |text|)
  {
    if text != [] {
      var k := |text| - 1;
      ValueBound(text[..k], radix);
      OneMoreDigit(TextValue(text[..k], radix), Power(radix, k), AsciiDigit(text[k], radix).value, radix);
    }
  }
}
