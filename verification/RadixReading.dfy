/**
 Reading a text in radix 2 or 16 as a number.
 */
module RadixReading {
  import opened Results
  import opened Shapes
  import opened RadixDigits
  import opened RadixUnits

  datatype TextError = NotTwoDimensional | TooManyDigits | InvalidDigit | TooLarge

  predicate IsBlank(unit: nat) {
    9 <= unit <= 13 || unit == 32
  }

  function NonBlank(text: seq<nat>): seq<nat> {
    if text == [] then []
    else if IsBlank(text[0]) then NonBlank(text[1..]) else [text[0]] + NonBlank(text[1..])
  }

  function Trimmed(text: seq<nat>): seq<nat> {
    if text == [] then []
    else if IsBlank(text[0]) then Trimmed(text[1..])
    else if IsBlank(text[|text| - 1]) then Trimmed(text[..|text| - 1])
    else text
  }

  function Unprefixed(radix: nat, units: seq<nat>): seq<nat> {
    if |units| >= 2 && units[0] == 48
       && ((radix == 16 && (units[1] == 88 || units[1] == 120)) || (radix == 2 && (units[1] == 66 || units[1] == 98)))
    then units[2..] else units
  }

  /** What is read: blanks are ignored, around hexadecimal text and anywhere in binary text, and one prefix is. */
  function Significant(radix: nat, text: seq<nat>): seq<nat> {
    Unprefixed(radix, if radix == 2 then NonBlank(text) else Trimmed(text))
  }

  function MaximumDigits(radix: nat): nat {
    if radix == 16 then 16 else 64
  }

  function Parsed(radix: nat, text: seq<nat>): Result<nat, TextError> {
    var units := Significant(radix, text);
    if |units| > MaximumDigits(radix) then Err(TooManyDigits)
    else if !IsNumeral(units, radix) then Err(InvalidDigit)
    else Ok(TextValue(units, radix))
  }

  lemma SixtyFourBits()
    ensures Power(2, 64) == U64_MAX + 1
  {
    assert Power(2, 8) == 256;
    PowerAdd(2, 8, 8);
    PowerAdd(2, 16, 16);
    PowerAdd(2, 32, 32);
  }

  lemma ValueFits(units: seq<nat>, radix: nat)
    requires IsRadix(radix) && IsNumeral(units, radix) && |units| <= MaximumDigits(radix)
    ensures TextValue(units, radix) <= U64_MAX
  {
    ValueBound(units, radix);
    PowerMonotone(radix, |units|, MaximumDigits(radix));
    PowerOfSixteen(16);
    SixtyFourBits();
  }

  // ----- what is read, by characters

  /** Tabulators, line and page breaks, and the space. */
  const BLANKS: set<nat> := {9, 10, 11, 12, 13, 32}

  /** The text without its blanks: the other units, in their order. */
  ghost predicate IsWithoutBlanks(text: seq<nat>, kept: seq<nat>) {
    exists at: seq<nat> :: PicksNonBlank(text, at, kept)
  }

  ghost predicate PicksNonBlank(text: seq<nat>, at: seq<nat>, kept: seq<nat>) {
    && |at| == |kept| && (forall i, j | 0 <= i < j < |at| :: at[i] < at[j])
    && (forall k | 0 <= k < |at| :: at[k] < |text| && kept[k] == text[at[k]])
    && forall p: nat | p < |text| :: p in at <==> text[p] !in BLANKS
  }

  /** The text without the blanks at either end. */
  ghost predicate IsTrimmed(text: seq<nat>, kept: seq<nat>) {
    exists lo: nat, hi: nat :: lo <= hi <= |text| && kept == text[lo..hi] && BlankOutside(text, lo, hi)
  }

  ghost predicate BlankOutside(text: seq<nat>, lo: nat, hi: nat) {
    && (forall p: nat | p < |text| && (p < lo || hi <= p) :: text[p] in BLANKS)
    && (lo < hi <= |text| ==> text[lo] !in BLANKS && text[hi - 1] !in BLANKS)
  }

  /** What follows `0b` or `0x`, in either case, if the text starts with it. */
  ghost predicate FollowsPrefix(radix: nat, kept: seq<nat>, units: seq<nat>) {
    var letters := if radix == 2 then {'b' as nat, 'B' as nat} else {'x' as nat, 'X' as nat};
    if |kept| >= 2 && kept[0] == '0' as nat && kept[1] in letters then kept == kept[..2] + units else units == kept
  }

  ghost predicate IsSignificant(radix: nat, text: seq<nat>, units: seq<nat>) {
    exists kept: seq<nat> ::
      (if radix == 2 then IsWithoutBlanks(text, kept) else IsTrimmed(text, kept)) && FollowsPrefix(radix, kept, units)
  }

  ghost predicate ShowsDigit(unit: nat, radix: nat, v: nat, place: nat)
    requires IsRadix(radix)
  {
    exists digit: nat :: IsDigitAt(digit, radix, v, place) && (unit == UPPER[digit] as nat || unit == LOWER[digit] as nat)
  }

  ghost predicate IsNoDigit(unit: nat, radix: nat)
    requires IsRadix(radix)
  {
    forall digit: nat | digit < radix :: unit != UPPER[digit] as nat && unit != LOWER[digit] as nat
  }

  /** The number whose digits the units are, unless there are too many of them or one is not a digit. */
  ghost predicate ReadsUnits(radix: nat, units: seq<nat>, r: Result<nat, TextError>)
    requires IsRadix(radix)
  {
    var limit := if radix == 2 then 64 else 16;
    if r.Ok? then
      && |units| <= limit && r.value < Power(radix, |units|)
      && forall i: nat | i < |units| :: ShowsDigit(units[i], radix, r.value, |units| - 1 - i)
    else if |units| > limit then r.error == TooManyDigits
    else r.error == InvalidDigit && exists i: nat :: i < |units| && IsNoDigit(units[i], radix)
  }

  ghost predicate IsReading(radix: nat, text: seq<nat>, r: Result<nat, TextError>)
    requires IsRadix(radix)
  {
    exists units: seq<nat> :: IsSignificant(radix, text, units) && ReadsUnits(radix, units, r)
  }

  /** Positions one further to the right. */
  function Later(at: seq<nat>): (moved: seq<nat>)
    ensures |moved| == |at| && forall k | 0 <= k < |at| :: moved[k] == at[k] + 1
  {
    seq(|at|, k requires 0 <= k < |at| => at[k] + 1)
  }

  lemma LaterMember(at: seq<nat>, p: nat)
    ensures p in Later(at) <==> p > 0 && p - 1 in at
  {
    if p > 0 && p - 1 in at {
      var k :| 0 <= k < |at| && at[k] == p - 1;
      assert Later(at)[k] == p;
    }
  }

  lemma BlankDropped(text: seq<nat>, at: seq<nat>, kept: seq<nat>)
    requires text != [] && text[0] in BLANKS && PicksNonBlank(text[1..], at, kept)
    ensures PicksNonBlank(text, Later(at), kept)
  {
    forall p: nat | p < |text| ensures p in Later(at) <==> text[p] !in BLANKS {
      LaterMember(at, p);
      assert p > 0 ==> text[p] == text[1..][p - 1];
    }
  }

  /** The first position, and others further to the right. */
  lemma FirstAndLater(at: seq<nat>, n: nat)
    requires (forall i, j | 0 <= i < j < |at| :: at[i] < at[j]) && forall k | 0 <= k < |at| :: at[k] < n
    ensures var all := [0] + Later(at);
            && (forall i, j | 0 <= i < j < |all| :: all[i] < all[j])
            && (forall k | 0 <= k < |all| :: all[k] < n + 1)
            && forall p: nat :: p in all <==> p == 0 || p - 1 in at
  {
    forall p: nat ensures p in [0] + Later(at) <==> p == 0 || p - 1 in at {
      LaterMember(at, p);
    }
  }

  lemma KeptPositions(text: seq<nat>, at: seq<nat>, all: seq<nat>)
    requires text != [] && text[0] !in BLANKS && forall p: nat :: p in all <==> p == 0 || p - 1 in at
    requires forall p: nat | p < |text| - 1 :: p in at <==> text[1..][p] !in BLANKS
    ensures forall p: nat | p < |text| :: p in all <==> text[p] !in BLANKS
  {
    forall p: nat | p < |text| ensures p in all <==> text[p] !in BLANKS {
      assert p > 0 ==> text[p] == text[1..][p - 1];
    }
  }

  lemma KeptUnits(text: seq<nat>, at: seq<nat>, kept: seq<nat>, all: seq<nat>, units: seq<nat>)
    requires text != [] && all == [0] + Later(at) && units == [text[0]] + kept && |at| == |kept|
    requires forall k | 0 <= k < |at| :: at[k] < |text| - 1 && kept[k] == text[1..][at[k]]
    ensures forall k | 0 <= k < |all| :: all[k] < |text| && units[k] == text[all[k]]
  {
  }

  lemma NonBlankKept(text: seq<nat>, at: seq<nat>, kept: seq<nat>)
    requires text != [] && text[0] !in BLANKS && PicksNonBlank(text[1..], at, kept)
    ensures PicksNonBlank(text, [0] + Later(at), [text[0]] + kept)
  {
    var all, units := [0] + Later(at), [text[0]] + kept;
    FirstAndLater(at, |text| - 1);
    KeptPositions(text, at, all);
    KeptUnits(text, at, kept, all, units);
  }

  lemma {:induction false} NonBlankPicks(text: seq<nat>) returns (at: seq<nat>)
    ensures PicksNonBlank(text, at, NonBlank(text))
  {
    at := [];
    if text != [] {
      var rest := NonBlankPicks(text[1..]);
      if IsBlank(text[0]) {
        BlankDropped(text, rest, NonBlank(text[1..]));
        at := Later(rest);
      } else {
        NonBlankKept(text, rest, NonBlank(text[1..]));
        at := [0] + Later(rest);
      }
    }
  }

  lemma BlankBefore(text: seq<nat>, lo: nat, hi: nat)
    requires text != [] && text[0] in BLANKS && lo <= hi < |text| && BlankOutside(text[1..], lo, hi)
    ensures text[1..][lo..hi] == text[lo + 1..hi + 1] && BlankOutside(text, lo + 1, hi + 1)
  {
    forall p: nat | p < |text| && (p < lo + 1 || hi + 1 <= p) ensures text[p] in BLANKS {
      assert p > 0 ==> text[p] == text[1..][p - 1];
    }
  }

  lemma BlankBehind(text: seq<nat>, rest: seq<nat>, lo: nat, hi: nat)
    requires text != [] && rest == text[..|text| - 1] && text[|text| - 1] in BLANKS && lo <= hi <= |rest| && BlankOutside(rest, lo, hi)
    ensures rest[lo..hi] == text[lo..hi] && BlankOutside(text, lo, hi)
  {
    forall p: nat | p < |text| && (p < lo || hi <= p) ensures text[p] in BLANKS {
      assert p < |rest| ==> text[p] == rest[p];
    }
  }

  lemma {:induction false} TrimmedSlice(text: seq<nat>) returns (lo: nat, hi: nat)
    ensures lo <= hi <= |text| && Trimmed(text) == text[lo..hi] && BlankOutside(text, lo, hi)
    decreases |text|
  {
    lo, hi := 0, |text|;
    if text != [] {
      if IsBlank(text[0]) {
        lo, hi := TrimmedSlice(text[1..]);
        BlankBefore(text, lo, hi);
        lo, hi := lo + 1, hi + 1;
      } else if IsBlank(text[|text| - 1]) {
        lo, hi := TrimmedSlice(text[..|text| - 1]);
        BlankBehind(text, text[..|text| - 1], lo, hi);
      }
    }
  }

  lemma SignificantIs(radix: nat, text: seq<nat>)
    requires IsRadix(radix)
    ensures IsSignificant(radix, text, Significant(radix, text))
  {
    var kept := if radix == 2 then NonBlank(text) else Trimmed(text);
    if radix == 2 {
      var at := NonBlankPicks(text);
    } else {
      var lo, hi := TrimmedSlice(text);
    }
    assert FollowsPrefix(radix, kept, Significant(radix, text));
  }

  lemma ParsedUnits(radix: nat, units: seq<nat>, r: Result<nat, TextError>)
    requires IsRadix(radix)
    requires r == if |units| > MaximumDigits(radix) then Err(TooManyDigits)
                  else if !IsNumeral(units, radix) then Err(InvalidDigit)
                  else Ok(TextValue(units, radix))
    ensures ReadsUnits(radix, units, r)
  {
    if r.Ok? {
      ValueBound(units, radix);
      forall i: nat | i < |units| ensures ShowsDigit(units[i], radix, r.value, |units| - 1 - i) {
        var digit := AsciiDigit(units[i], radix).value;
        UnitIsDigitAt(units, radix, i);
        DigitCharacters(digit, units[i], radix);
      }
    } else if |units| <= MaximumDigits(radix) {
      var i: nat :| i < |units| && AsciiDigit(units[i], radix).None?;
      forall digit: nat | digit < radix ensures units[i] != UPPER[digit] as nat && units[i] != LOWER[digit] as nat {
        DigitCharacters(digit, units[i], radix);
      }
      assert IsNoDigit(units[i], radix);
    }
  }

  /** What the reader makes of any text. */
  lemma ParsedIsReading(radix: nat, text: seq<nat>)
    requires IsRadix(radix)
    ensures IsReading(radix, text, Parsed(radix, text))
  {
    SignificantIs(radix, text);
    ParsedUnits(radix, Significant(radix, text), Parsed(radix, text));
  }

  /** Accumulates the digits; with at most 16 or 64 of them the 64-bit checks never fail. */
  method ParseUnits(radix: nat, units: seq<nat>) returns (r: Result<nat, TextError>)
    requires IsRadix(radix) && |units| <= MaximumDigits(radix)
    ensures r == if !IsNumeral(units, radix) then Err(InvalidDigit) else Ok(TextValue(units, radix))
    ensures r.Ok? ==> r.value <= U64_MAX
  {
    var value := 0;
    for k := 0 to |units|
      invariant IsNumeral(units[..k], radix) && value == TextValue(units[..k], radix) <= U64_MAX
    {
      var digit := AsciiDigit(units[k], radix);
      if digit.None? {
        return Err(InvalidDigit);
      }
      assert units[..k + 1] == units[..k] + [units[k]];
      TextSnoc(units[..k], units[k], radix);
      ValueFits(units[..k + 1], radix);
      var scaled := CheckedMul(value, radix);
      if scaled.None? {
        return Err(TooLarge);
      }
      var sum := CheckedAdd(scaled.value, digit.value);
      if sum.None? {
        return Err(TooLarge);
      }
      value := sum.value;
    }
    assert units[..|units|] == units;
    r := Ok(value);
  }

  /** Reads the significant units of a text, unless there are too many. */
  method ParseRadixText(radix: nat, text: seq<nat>) returns (r: Result<nat, TextError>)
    requires IsRadix(radix)
    ensures r == Parsed(radix, text) && IsReading(radix, text, r)
    ensures r.Ok? ==> r.value <= U64_MAX
  {
    var units := Significant(radix, text);
    if |units| > MaximumDigits(radix) {
      r := Err(TooManyDigits);
    } else {
      r := ParseUnits(radix, units);
    }
    ParsedIsReading(radix, text);
  }

  lemma {:induction false} NoBlanks(text: seq<nat>, radix: nat)
    requires IsNumeral(text, radix)
    ensures NonBlank(text) == text && Trimmed(text) == text
  {
    if text != [] {
      assert AsciiDigit(text[0], radix).Some? && AsciiDigit(text[|text| - 1], radix).Some?;
      NoBlanks(text[1..], radix);
      assert text == [text[0]] + text[1..];
    }
  }

  /** A text of digits alone is read as it is. */
  lemma NumeralIsSignificant(text: seq<nat>, radix: nat)
    requires IsRadix(radix) && IsNumeral(text, radix)
    ensures Significant(radix, text) == text
  {
    NoBlanks(text, radix);
    assert |text| >= 2 ==> AsciiDigit(text[1], radix).Some?;
  }
}
