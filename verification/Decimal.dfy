// Decimal constants to binary64.
module Decimal {
  import Words
  import Rounding
  import Assemble
  import Wide

  type Word = Assemble.Word
  type Positive = Rounding.Positive

  const MAX_DIGITS: nat := 19
  const MAX_SCALE_EXPONENT: nat := 19
  const MAX_DIVISOR_EXPONENT: nat := 27

  const POWER_OF_TEN: seq<Word> := [
    1, 10, 100, 1000, 10000, 100000, 1000000, 10000000, 100000000, 1000000000, 10000000000, 100000000000,
    1000000000000, 10000000000000, 100000000000000, 1000000000000000, 10000000000000000, 100000000000000000,
    1000000000000000000, 10000000000000000000]

  const POWER_OF_FIVE: seq<Word> := [
    1, 5, 25, 125, 625, 3125, 15625, 78125, 390625, 1953125, 9765625, 48828125, 244140625, 1220703125, 6103515625,
    30517578125, 152587890625, 762939453125, 3814697265625, 19073486328125, 95367431640625, 476837158203125,
    2384185791015625, 11920928955078125, 59604644775390625, 298023223876953125, 1490116119384765625,
    7450580596923828125]

  function Pow(base: Positive, k: nat): Positive {
    if k == 0 then 1 else PositiveProduct(base, Pow(base, k - 1))
  }

  function PositiveProduct(a: Positive, b: Positive): Positive {
    Rounding.Multiples(b, 1, a);
    a * b
  }

  lemma {:induction false} TensTable(k: nat)
    requires k <= MAX_SCALE_EXPONENT
    ensures POWER_OF_TEN[k] == Pow(10, k)
  {
    if k > 0 { TensTable(k - 1); }
  }

  lemma {:induction false} FivesTable(k: nat)
    requires k <= MAX_DIVISOR_EXPONENT
    ensures POWER_OF_FIVE[k] == Pow(5, k)
  {
    if k > 0 { FivesTable(k - 1); }
  }

  lemma {:induction false} NextPower(base: Positive, k: nat)
    ensures Pow(base, k + 1) == base * Pow(base, k)
  {
  }

  lemma {:induction false} TenIsTwoFives(k: nat)
    ensures Pow(10, k) == Pow(5, k) * Words.Pow2(k)
  {
    if k > 0 {
      TenIsTwoFives(k - 1);
      var f, t := Pow(5, k - 1), Words.Pow2(k - 1);
      assert 5 * f * (2 * t) == 10 * (f * t);
    }
  }

  // The text ends at its terminator.
  function At(text: string, i: nat): char { if i < |text| then text[i] else '\0' }

  predicate IsDigit(c: char) { '0' <= c <= '9' }

  function DigitOf(c: char): nat
    requires IsDigit(c)
  {
    c as int - '0' as int
  }

  // What the digits so far amount to: mantissa * 10^exponent, less what was cut off.
  datatype Scan = Scan(index: nat, mantissa: nat, digits: nat, exponent: int, truncated: bool)

  function WholeDigit(s: Scan, d: nat): Scan {
    if s.digits < MAX_DIGITS then Scan(s.index + 1, s.mantissa * 10 + d, s.digits + 1, s.exponent, s.truncated)
    else Scan(s.index + 1, s.mantissa, s.digits, s.exponent + 1, s.truncated || s.mantissa != 0)
  }

  function FractionDigit(s: Scan, d: nat): Scan {
    if s.digits < MAX_DIGITS then Scan(s.index + 1, s.mantissa * 10 + d, s.digits + 1, s.exponent - 1, s.truncated)
    else Scan(s.index + 1, s.mantissa, s.digits, s.exponent, true)
  }

  function Digits(text: string, s: Scan, fraction: bool): Scan
    decreases |text| - s.index
  {
    var c := At(text, s.index);
    if s.index >= |text| || !IsDigit(c) then s
    else Digits(text, if fraction then FractionDigit(s, DigitOf(c)) else WholeDigit(s, DigitOf(c)), fraction)
  }

  // The digits of an exponent, as far as they matter.
  function Capped(text: string, i: nat, value: nat): (nat, nat)
    decreases |text| - i
  {
    if i >= |text| || !IsDigit(text[i]) then (value, i)
    else Capped(text, i + 1, if value < 10000 then value * 10 + DigitOf(text[i]) else value)
  }

  datatype Number = Malformed | Number(negative: bool, mantissa: nat, exponent: int, truncated: bool)

  function Sign(text: string, i: nat): nat { if At(text, i) == '+' || At(text, i) == '-' then i + 1 else i }

  function Mantissa(text: string): Scan {
    var whole := Digits(text, Scan(Sign(text, 0), 0, 0, 0, false), false);
    if At(text, whole.index) == '.' then Digits(text, whole.(index := whole.index + 1), true) else whole
  }

  // The position after the mantissa does not tell whether a digit was seen; the
  // point and the sign are the only other characters it can have passed.
  predicate SeenDigit(text: string) {
    var whole := Digits(text, Scan(Sign(text, 0), 0, 0, 0, false), false);
    whole.index > Sign(text, 0) || (At(text, whole.index) == '.' && Mantissa(text).index > whole.index + 1)
  }

  function Parsed(text: string): Number {
    var s, negative := Mantissa(text), At(text, 0) == '-';
    if !SeenDigit(text) then Malformed
    else if At(text, s.index) == 'e' || At(text, s.index) == 'E' then
      var i := Sign(text, s.index + 1);
      if !IsDigit(At(text, i)) then Malformed
      else
        var (value, end) := Capped(text, i, 0);
        if value > 4000 || At(text, end) != '\0' then Malformed
        else Number(negative, s.mantissa, s.exponent + (if At(text, s.index + 1) == '-' then -(value as int) else value), s.truncated)
    else if At(text, s.index) != '\0' then Malformed
    else Number(negative, s.mantissa, s.exponent, s.truncated)
  }

  lemma {:induction false} DigitsBounds(text: string, s: Scan, fraction: bool)
    requires s.digits <= MAX_DIGITS && s.mantissa < Pow(10, s.digits) && s.exponent >= 0 - s.digits as int
    ensures var t := Digits(text, s, fraction);
            t.digits <= MAX_DIGITS && t.mantissa < Pow(10, t.digits) && t.exponent >= 0 - t.digits as int
    decreases |text| - s.index
  {
    var c := At(text, s.index);
    if s.index < |text| && IsDigit(c) {
      DigitsBounds(text, if fraction then FractionDigit(s, DigitOf(c)) else WholeDigit(s, DigitOf(c)), fraction);
    }
  }

  method ScanDigits(text: string, s: Scan, fraction: bool) returns (t: Scan)
    requires s.digits <= MAX_DIGITS && s.mantissa < Pow(10, s.digits)
    ensures t == Digits(text, s, fraction)
  {
    hide Pow;
    MantissaFits(s.mantissa, s.digits);
    var index: nat, mantissa: Word, digits: nat, exponent, truncated := s.index, s.mantissa, s.digits, s.exponent, s.truncated;
    while index < |text| && IsDigit(text[index])
      invariant digits <= MAX_DIGITS && mantissa < Pow(10, digits)
      invariant Digits(text, Scan(index, mantissa, digits, exponent, truncated), fraction) == Digits(text, s, fraction)
      decreases |text| - index
    {
      if digits < MAX_DIGITS {
        NextPower(10, digits);
        MantissaFits(mantissa * 10 + DigitOf(text[index]), digits + 1);
        mantissa := mantissa * 10 + DigitOf(text[index]);
        digits := digits + 1;
        if fraction { exponent := exponent - 1; }
      } else if fraction {
        truncated := true;
      } else {
        exponent := exponent + 1;
        if mantissa != 0 { truncated := true; }
      }
      index := index + 1;
    }
    t := Scan(index, mantissa, digits, exponent, truncated);
  }

  lemma {:induction false} MantissaFits(mantissa: nat, digits: nat)
    requires digits <= MAX_DIGITS && mantissa < Pow(10, digits)
    ensures mantissa < 10000000000000000000
  {
    TensTable(MAX_DIGITS);
    if digits < MAX_DIGITS { PowersOfTenGrow(digits, MAX_DIGITS); }
  }

  lemma {:induction false} PowersOfTenGrow(j: nat, k: nat)
    requires j <= k
    ensures Pow(10, j) <= Pow(10, k)
  {
    if j < k { PowersOfTenGrow(j, k - 1); }
  }

  method ScanExponent(text: string, start: nat) returns (value: nat, index: nat)
    ensures (value, index) == Capped(text, start, 0) && value < 100000
  {
    value, index := 0, start;
    while index < |text| && IsDigit(text[index])
      invariant value < 100000 && Capped(text, index, value) == Capped(text, start, 0)
      decreases |text| - index
    {
      if value < 10000 { value := value * 10 + DigitOf(text[index]); }
      index := index + 1;
    }
  }

  lemma {:induction false} NoDigits()
    ensures Pow(10, 0) == 1
  {
  }

  method Scanned(text: string) returns (n: Number)
    ensures n == Parsed(text)
    ensures n.Number? ==> n.mantissa < 10000000000000000000 && n.exponent >= -4019
  {
    hide Pow, Digits, Capped;
    var index := Sign(text, 0);
    NoDigits();
    var s := ScanDigits(text, Scan(index, 0, 0, 0, false), false);
    var seen := s.index > index;
    DigitsBounds(text, Scan(index, 0, 0, 0, false), false);
    if At(text, s.index) == '.' {
      var point := s.index + 1;
      DigitsBounds(text, s.(index := point), true);
      s := ScanDigits(text, s.(index := point), true);
      seen := seen || s.index > point;
    }
    MantissaFits(s.mantissa, s.digits);
    if !seen { return Malformed; }
    var exponent, end := s.exponent, s.index;
    if At(text, end) == 'e' || At(text, end) == 'E' {
      var i := Sign(text, end + 1);
      if !IsDigit(At(text, i)) { return Malformed; }
      var value, after := ScanExponent(text, i);
      if value > 4000 { return Malformed; }
      exponent := exponent + if At(text, end + 1) == '-' then -(value as int) else value;
      end := after;
    }
    if At(text, end) != '\0' { return Malformed; }
    n := Number(At(text, 0) == '-', s.mantissa, exponent, s.truncated);
  }
}
