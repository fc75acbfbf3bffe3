// Between binary64 and binary32.
module Narrowing {
  import Words
  import Rounding
  import Assemble

  type Word = Assemble.Word
  type Word32 = w: int | 0 <= w < 0x1_0000_0000 witness 0
  type Positive = Rounding.Positive

  const SIGN32: nat := 0x8000_0000
  const INFINITY32: nat := 0x7F80_0000
  const QUIET: nat := 0x40_0000
  const HIDDEN32: nat := 0x80_0000
  const STEP: nat := 0x2000_0000

  function Magnitude(bits: Word): nat { bits % Assemble.SIGN }
  function Magnitude32(bits: Word32): nat { bits % SIGN32 }

  // The 53-bit significand to 24 bits, ties to even.
  function Shortened(significand: nat, drop: nat): nat {
    Assemble.RoundBits(Assemble.Shr(significand, drop), Assemble.Low(significand, drop),
                       if drop == 0 then 0 else Words.Pow2(drop - 1), false)
  }

  // The encoding without its sign.
  function Narrowed(m: nat): nat {
    var field, fraction := m / Assemble.HIDDEN, m % Assemble.HIDDEN;
    if field == 2047 then INFINITY32 + if fraction != 0 then QUIET else 0
    else if m == 0 then 0
    else
      var sig := Shortened(fraction + Assemble.HIDDEN, if field == 0 then 30 else 29);
      var result, exponent := if sig >= 2 * HIDDEN32 then sig / 2 else sig, field - 1023 + if sig >= 2 * HIDDEN32 then 1 else 0;
      if exponent > 127 then INFINITY32
      else if exponent < -149 then 0
      else if exponent < -126 then Assemble.Shr(result, -126 - exponent)
      else (exponent + 127) * HIDDEN32 + result % HIDDEN32
  }

  lemma {:induction false} ShortenedRange(significand: nat, drop: nat)
    requires Assemble.HIDDEN <= significand < 2 * Assemble.HIDDEN && 29 <= drop <= 30
    ensures if drop == 29 then HIDDEN32 <= Shortened(significand, drop) <= 2 * HIDDEN32
            else HIDDEN32 / 2 <= Shortened(significand, drop) <= HIDDEN32
  {
    Steps();
  }

  lemma Steps()
    ensures Words.Pow2(28) == STEP / 2 && Words.Pow2(29) == STEP && Words.Pow2(30) == 2 * STEP
  {
    assert Words.Pow2(14) == 16384;
    Words.Pow2Add(14, 14);
    Rounding.PowersTwice(28);
    Rounding.PowersTwice(29);
  }

  method DoubleToFloat(bits: Word) returns (narrow: Word32)
    ensures narrow == (if bits >= Assemble.SIGN then SIGN32 else 0) + Narrowed(Magnitude(bits))
    ensures Narrowed(Magnitude(bits)) < SIGN32
  {
    hide Assemble.Shr, Assemble.Low, Assemble.RoundBits, Words.Pow2;
    var m := Magnitude(bits);
    var field, mantissa := m / Assemble.HIDDEN, m % Assemble.HIDDEN;
    var sign := if bits >= Assemble.SIGN then SIGN32 else 0;
    if field == 0x7FF {
      return sign + INFINITY32 + if mantissa != 0 then QUIET else 0;
    }
    if field == 0 && mantissa == 0 { return sign; }
    var exponent, significand := field - 1023, mantissa + Assemble.HIDDEN;
    var amount := 52 - 23;
    if field == 0 { amount := amount + 1; }
    var result := Assemble.RoundShift(significand, amount, false);
    ShortenedRange(significand, amount);
    if result >= 0x100_0000 {
      result := result / 2;
      exponent := exponent + 1;
    }
    if exponent > 127 { return sign + INFINITY32; }
    if exponent < -126 {
      if exponent < -149 { return sign; }
      SmallerWhenShifted(result, -126 - exponent);
      return sign + Assemble.Shr(result, -126 - exponent);
    }
    narrow := sign + (exponent + 127) * HIDDEN32 + result % HIDDEN32;
  }

  lemma {:induction false} SmallerWhenShifted(x: nat, n: nat)
    ensures Assemble.Shr(x, n) <= x
  {
    Words.QuotientAtMost(x, Words.Pow2(n));
  }

  // From the least normal binary32 magnitude up, narrowing rounds to nearest with
  // ties to even, and gives infinity from the overflow threshold on.
  lemma {:induction false} NarrowedNearest(m: nat)
    requires 897 <= m / Assemble.HIDDEN < 2047
    ensures var x, q := Rounding.Units(Rounding.BINARY64, m), Words.Pow2(925);
            if x < Rounding.Threshold(Rounding.BINARY32) * q then Rounding.Nearest(Rounding.BINARY32, x, q, Narrowed(m))
            else Narrowed(m) == INFINITY32
  {
    hide Words.Pow2, Assemble.Shr, Assemble.Low, Assemble.RoundBits, Rounding.Nearest, Rounding.Threshold, Rounding.InBinade, Rounding.RoundedTo;
    var field, significand := m / Assemble.HIDDEN, m % Assemble.HIDDEN + Assemble.HIDDEN;
    var k, sig, q := field - 897, Shortened(significand, 29), Words.Pow2(925);
    Steps();
    Words.Pow2Add(k, 925);
    Words.Pow2Add(29, field - 1);
    Quantised(significand, Words.Pow2(field - 1), k);
    Rounding.FiniteBelowThreshold(Rounding.BINARY32, significand * Words.Pow2(field - 1), q, k, sig);
    ShortenedRange(significand, 29);
    Packed32(k, sig);
    if Rounding.Finite(Rounding.BINARY32, Rounding.Encode(Rounding.BINARY32, k, sig)) {
      Rounding.RoundedIsNearest(Rounding.BINARY32, significand * Words.Pow2(field - 1), q, k, sig);
    }
  }

  lemma {:induction false} Quantised(significand: nat, unit: Positive, k: nat)
    requires Assemble.HIDDEN <= significand < 2 * Assemble.HIDDEN
    ensures Rounding.InBinade(Rounding.BINARY32, significand * unit, STEP * unit, k)
    ensures Rounding.RoundedTo(significand * unit, STEP * unit, Shortened(significand, 29))
  {
    hide Words.Pow2, Rounding.RoundedTo;
    Steps();
    Rounding.Multiples(unit, significand, 2 * Assemble.HIDDEN);
    Rounding.Multiples(unit, Assemble.HIDDEN, significand);
    Rounding.Associated(HIDDEN32, STEP, unit);
    Rounding.Associated(2 * HIDDEN32, STEP, unit);
    assert significand == (significand / STEP * STEP + significand % STEP) * 1 + 0;
    Assemble.RoundQuotient(significand, 1, significand / STEP, significand % STEP, 0, STEP / 2);
    Assemble.ScaleDistance(significand, STEP, Shortened(significand, 29), unit);
  }

  lemma {:induction false} Packed32(k: nat, sig: nat)
    requires HIDDEN32 <= sig <= 2 * HIDDEN32
    ensures var result, exponent := if sig >= 2 * HIDDEN32 then sig / 2 else sig, k - 126 + if sig >= 2 * HIDDEN32 then 1 else 0;
            && (Rounding.Finite(Rounding.BINARY32, Rounding.Encode(Rounding.BINARY32, k, sig)) <==> exponent <= 127)
            && (exponent + 127) * HIDDEN32 + result % HIDDEN32 == Rounding.Encode(Rounding.BINARY32, k, sig)
  {
  }

  // Below 2^-126 the code rounds to 24 bits first and then cuts off what the
  // subnormal has no room for.  The part cut off was more than a half, or a half above
  // an odd significand, and not so near to the next number that it was reached by the
  // first rounding.
  predicate HalfLost(m: nat) {
    && 0 < m / Assemble.HIDDEN < 897
    && var significand, cut := m % Assemble.HIDDEN + Assemble.HIDDEN, 926 - m / Assemble.HIDDEN;
       var low, half := Assemble.Low(significand, cut), Words.Pow2(cut - 1);
       && half <= low < 2 * half - STEP / 2
       && (low == half ==> Assemble.Shr(significand, cut) % 2 == 1)
  }

  // The two steps together divide by one power of two, rounding up only from the last
  // 2^28 on.
  lemma {:induction false} CutOff(significand: nat, k: nat)
    requires Assemble.HIDDEN <= significand < 2 * Assemble.HIDDEN && k > 0
    ensures Assemble.Shr(Shortened(significand, 29), k)
         == Assemble.Shr(significand, 29 + k) + if Assemble.Low(significand, 29 + k) >= Words.Pow2(29 + k) - STEP / 2 then 1 else 0
  {
    hide Words.Pow2, Shortened;
    Steps();
    Words.Pow2Add(29, k);
    Rounding.PowersTwice(k - 1);
    var p, a, t := Words.Pow2(k), significand / STEP, significand % STEP;
    Parts(a, t, p);
    ShortenedIs(significand);
    CutTwice(a, t, p, Words.Pow2(k - 1), Shortened(significand, 29));
  }

  lemma {:induction false} ShortenedIs(significand: nat)
    ensures var a, t := significand / STEP, significand % STEP;
            Shortened(significand, 29) == if t > STEP / 2 || (t == STEP / 2 && a % 2 == 1) then a + 1 else a
  {
    hide Words.Pow2;
    Steps();
  }

  lemma {:induction false} Parts(a: nat, t: nat, p: Positive)
    requires t < STEP
    ensures (STEP * a + t) / (STEP * p) == a / p && (STEP * a + t) % (STEP * p) == STEP * (a % p) + t
  {
    var n, b := a / p, a % p;
    assert a == p * n + b;
    assert STEP * (p * n + b) == STEP * p * n + STEP * b by { Rounding.Associated(STEP, p, n); }
    Rounding.Multiples(STEP, b + 1, p);
    Words.ModUnique(STEP * a + t, n, STEP * b + t, STEP * p);
  }

  lemma {:induction false} CutTwice(a: nat, t: nat, p: Positive, half: nat, s: nat)
    requires t < STEP && p == 2 * half && s == if t > STEP / 2 || (t == STEP / 2 && a % 2 == 1) then a + 1 else a
    ensures s / p == a / p + if STEP * (a % p) + t >= STEP * p - STEP / 2 then 1 else 0
  {
    var n, b := a / p, a % p;
    assert a == p * n + b;
    if b == p - 1 {
      OddBelow(n, p, half, a);
      assert STEP * (p - 1) == STEP * p - STEP;
      if s == a + 1 {
        assert p * (n + 1) == p * n + p;
        Words.ModUnique(s, n + 1, 0, p);
      }
    } else {
      Rounding.Multiples(STEP, b + 1, p - 1);
      assert STEP * (p - 1) == STEP * p - STEP && STEP * (b + 1) == STEP * b + STEP;
      Words.ModUnique(s, n, b + (s - a), p);
    }
  }

  lemma {:induction false} OddBelow(n: nat, p: nat, half: nat, a: nat)
    requires p == 2 * half && a == p * n + p - 1
    ensures a % 2 == 1
  {
    assert p * n == 2 * (half * n);
  }

  lemma {:induction false} CarriedOut(k: nat)
    requires k > 0
    ensures Assemble.Shr(2 * HIDDEN32, k) == if k > 24 then 0 else Assemble.Shr(HIDDEN32, k - 1)
  {
    hide Words.Pow2;
    Pow23();
    Rounding.PowersTwice(k - 1);
    Rounding.PowersTwice(23);
    var p := Words.Pow2(k - 1);
    if k > 24 {
      Words.PowersGrow(25, k);
      Rounding.PowersTwice(24);
      Words.ModUnique(2 * HIDDEN32, 0, 2 * HIDDEN32, Words.Pow2(k));
    } else {
      var q, r := HIDDEN32 / p, HIDDEN32 % p;
      assert HIDDEN32 == p * q + r;
      assert 2 * p * q == 2 * (p * q);
      Words.ModUnique(2 * HIDDEN32, q, 2 * r, 2 * p);
    }
  }

  lemma {:induction false} NarrowedShift(m: nat)
    requires 0 < m / Assemble.HIDDEN < 897
    ensures Narrowed(m) == Assemble.Shr(Shortened(m % Assemble.HIDDEN + Assemble.HIDDEN, 29), 897 - m / Assemble.HIDDEN)
  {
    hide Words.Pow2, Assemble.Shr, Shortened;
    var sig, k := Shortened(m % Assemble.HIDDEN + Assemble.HIDDEN, 29), 897 - m / Assemble.HIDDEN;
    ShortenedRange(m % Assemble.HIDDEN + Assemble.HIDDEN, 29);
    if sig == 2 * HIDDEN32 {
      CarriedOut(k);
      Whole(HIDDEN32);
    } else if k > 23 {
      Pow23();
      Words.PowersGrow(24, k);
      Rounding.PowersTwice(23);
      NoneLeft(sig, k);
    }
  }

  lemma {:induction false} NoneLeft(x: nat, k: nat)
    requires x < Words.Pow2(k)
    ensures Assemble.Shr(x, k) == 0
  {
    hide Words.Pow2;
    Words.ModUnique(x, 0, x, Words.Pow2(k));
  }

  lemma {:induction false} Whole(x: nat)
    ensures Assemble.Shr(x, 0) == x
  {
  }

  lemma {:induction false} NearestSubnormal(x: nat, q: Positive, sig: nat)
    requires Rounding.InBinade(Rounding.BINARY32, x, q, 0) && Rounding.RoundedTo(x, q, sig)
    ensures Rounding.Nearest(Rounding.BINARY32, x, q, sig)
  {
    hide Words.Pow2, Rounding.Nearest, Rounding.InBinade, Rounding.RoundedTo;
    Rounding.PowersTwice(0);
    assert Words.Pow2(0) * q == q;
    Rounding.SignificandRange(Rounding.BINARY32, x, q, 0, sig);
    assert Rounding.Encode(Rounding.BINARY32, 0, sig) == sig;
    Rounding.RoundedIsNearest(Rounding.BINARY32, x, q, 0, sig);
  }

  // What would be nearest.
  lemma {:induction false} SubnormalNearest(m: nat)
    requires 0 < m / Assemble.HIDDEN < 897
    ensures var significand, cut := m % Assemble.HIDDEN + Assemble.HIDDEN, 926 - m / Assemble.HIDDEN;
            var sig := Assemble.RoundBits(Assemble.Shr(significand, cut), Assemble.Low(significand, cut), Words.Pow2(cut - 1), false);
            Rounding.Nearest(Rounding.BINARY32, Rounding.Units(Rounding.BINARY64, m), Words.Pow2(925), sig)
  {
    hide Words.Pow2, Assemble.Shr, Assemble.Low, Assemble.RoundBits, Rounding.Nearest, Rounding.InBinade, Rounding.RoundedTo, Rounding.Units;
    var field, significand := m / Assemble.HIDDEN, m % Assemble.HIDDEN + Assemble.HIDDEN;
    var cut, unit := 926 - field, Words.Pow2(field - 1);
    var half := Words.Pow2(cut - 1);
    var sig := Assemble.RoundBits(Assemble.Shr(significand, cut), Assemble.Low(significand, cut), half, false);
    Rounding.PowersTwice(cut - 1);
    Assemble.SplitBits(significand, cut);
    Assemble.RoundQuotient(significand, 1, Assemble.Shr(significand, cut), Assemble.Low(significand, cut), 0, half);
    Assemble.ScaleDistance(significand, 2 * half, sig, unit);
    Words.Pow2Add(cut, field - 1);
    SmallQuantity(significand, cut, unit);
    NormalUnits(m);
    NearestSubnormal(significand * unit, Words.Pow2(925), sig);
  }

  lemma {:induction false} NormalUnits(m: nat)
    requires m / Assemble.HIDDEN > 0
    ensures Rounding.Units(Rounding.BINARY64, m) == (m % Assemble.HIDDEN + Assemble.HIDDEN) * Words.Pow2(m / Assemble.HIDDEN - 1)
  {
    hide Words.Pow2;
  }

  lemma {:induction false} SmallQuantity(significand: nat, cut: nat, unit: Positive)
    requires significand < 2 * Assemble.HIDDEN && cut >= 30
    ensures Rounding.InBinade(Rounding.BINARY32, significand * unit, Words.Pow2(cut) * unit, 0)
  {
    hide Words.Pow2;
    Steps();
    Words.PowersGrow(30, cut);
    Rounding.Multiples(unit, significand, 2 * HIDDEN32 * (2 * STEP));
    Rounding.Multiples(unit, 2 * STEP, Words.Pow2(cut));
    Rounding.Associated(2 * HIDDEN32, 2 * STEP, unit);
    Rounding.Multiples(2 * HIDDEN32, 2 * STEP * unit, Words.Pow2(cut) * unit);
    Rounding.Associated(2, HIDDEN32, Words.Pow2(cut) * unit);
  }

  // Narrowing a number below 2^-126 is nearest exactly when no half is lost; a lost one
  // gives the encoding just below the nearest.
  lemma {:induction false} NarrowedBelow(m: nat)
    requires m / Assemble.HIDDEN < 897
    ensures var x, q := Rounding.Units(Rounding.BINARY64, m), Words.Pow2(925);
            && (Rounding.Nearest(Rounding.BINARY32, x, q, Narrowed(m)) <==> !HalfLost(m))
            && (HalfLost(m) ==> Rounding.Nearest(Rounding.BINARY32, x, q, Narrowed(m) + 1))
  {
    hide Words.Pow2, Assemble.Shr, Assemble.Low, Rounding.Nearest, Narrowed, Shortened, Rounding.Units;
    var field := m / Assemble.HIDDEN;
    if field == 0 {
      TooSmall(m);
    } else {
      var significand, cut := m % Assemble.HIDDEN + Assemble.HIDDEN, 926 - field;
      SubnormalNearest(m);
      NarrowedShift(m);
      CutOff(significand, 897 - field);
      Rounding.PowersTwice(cut - 1);
      Steps();
      Words.PowersGrow(29, cut - 1);
      Assemble.SplitBits(significand, cut);
      if HalfLost(m) { Rounding.OneNearest(Rounding.BINARY32, Rounding.Units(Rounding.BINARY64, m), Words.Pow2(925), Narrowed(m)); }
    }
  }

  lemma {:induction false} TooSmall(m: nat)
    requires m < Assemble.HIDDEN
    ensures Narrowed(m) == 0 && Rounding.Nearest(Rounding.BINARY32, Rounding.Units(Rounding.BINARY64, m), Words.Pow2(925), 0)
  {
    hide Words.Pow2, Rounding.Nearest, Rounding.InBinade, Rounding.RoundedTo, Rounding.Units, Narrowed;
    BelowAll(m);
    Tiny(m);
    NearestSubnormal(m, Words.Pow2(925), 0);
  }

  lemma {:induction false} BelowAll(m: nat)
    requires m < Assemble.HIDDEN
    ensures Narrowed(m) == 0
  {
    hide Words.Pow2, Assemble.Shr, Shortened;
    ShortenedRange(m + Assemble.HIDDEN, 30);
  }

  lemma {:induction false} Tiny(m: nat)
    requires m < Assemble.HIDDEN
    ensures Rounding.Units(Rounding.BINARY64, m) == m
    ensures Rounding.InBinade(Rounding.BINARY32, m, Words.Pow2(925), 0) && Rounding.RoundedTo(m, Words.Pow2(925), 0)
  {
    hide Words.Pow2;
    Assemble.Pow53();
    Words.PowersGrow(53, 925);
    Rounding.PowersTwice(0);
    Rounding.Multiples(Words.Pow2(925), 1, HIDDEN32);
    Rounding.Split(Rounding.BINARY64, m, 0, m);
  }

  // 3 * 2^-150 lies in the middle of two subnormals and comes out as the odd one below.
  lemma {:induction false} LostHalf()
    ensures Narrowed(874 * Assemble.HIDDEN + Assemble.HIDDEN / 2) == 1
    ensures HalfLost(874 * Assemble.HIDDEN + Assemble.HIDDEN / 2)
  {
    hide Words.Pow2, Assemble.RoundBits;
    Assemble.Pow53();
    Steps();
    Pow23();
    Rounding.PowersTwice(51);
    var m := 874 * Assemble.HIDDEN + Assemble.HIDDEN / 2;
    Words.ModUnique(m, 874, Assemble.HIDDEN / 2, Assemble.HIDDEN);
    var significand := Assemble.HIDDEN + Assemble.HIDDEN / 2;
    Words.ModUnique(significand, 1, Assemble.HIDDEN / 2, Assemble.HIDDEN);
    NarrowedShift(m);
    CutOff(significand, 23);
  }

  // Widening, without the sign.
  function Widened(m: nat): nat {
    var field, mantissa := m / HIDDEN32, m % HIDDEN32;
    if field == 255 then 0x7FF * Assemble.HIDDEN + mantissa * STEP
    else if field == 0 then
      if mantissa == 0 then 0
      else
        var highest: nat := Highest(mantissa);
        Rounding.Multiples(Words.Pow2(52 - highest), 0, mantissa - Words.Pow2(highest));
        (highest + 874) * Assemble.HIDDEN + (mantissa - Words.Pow2(highest)) * Words.Pow2(52 - highest)
    else (field + 896) * Assemble.HIDDEN + mantissa * STEP
  }

  // The position of the leading one.
  function Highest(mantissa: nat): (h: nat)
    requires 0 < mantissa < HIDDEN32
    ensures h <= 22 && Words.Pow2(h) <= mantissa < 2 * Words.Pow2(h)
  {
    HighestBounds(mantissa);
    Assemble.Length(mantissa) - 1
  }

  lemma {:induction false} HighestBounds(mantissa: nat)
    requires 0 < mantissa < HIDDEN32
    ensures 0 < Assemble.Length(mantissa) <= 23
    ensures Words.Pow2(Assemble.Length(mantissa) - 1) <= mantissa < 2 * Words.Pow2(Assemble.Length(mantissa) - 1)
  {
    hide Words.Pow2, Assemble.Length;
    Pow23();
    Assemble.LengthBounds(mantissa);
    Assemble.LengthAtMost(mantissa, 23);
    Rounding.PowersTwice(Assemble.Length(mantissa) - 1);
  }

  lemma Pow23()
    ensures Words.Pow2(23) == HIDDEN32
  {
    assert Words.Pow2(11) == 2048;
    Words.Pow2Add(11, 11);
    Rounding.PowersTwice(22);
  }

  method FloatToDouble(bits: Word32) returns (wide: Word)
    ensures wide == (if bits >= SIGN32 then Assemble.SIGN else 0) + Widened(Magnitude32(bits))
    ensures Widened(Magnitude32(bits)) < Assemble.SIGN
  {
    hide Words.Pow2, Assemble.Shr;
    var m := Magnitude32(bits);
    var exponent, mantissa := m / HIDDEN32, m % HIDDEN32;
    var sign := if bits >= SIGN32 then Assemble.SIGN else 0;
    if exponent == 0xFF { return sign + 0x7FF * Assemble.HIDDEN + mantissa * STEP; }
    if exponent == 0 {
      if mantissa == 0 { return sign; }
      var highest := 22;
      Pow23();
      Rounding.PowersTwice(22);
      while highest > 0 && Assemble.Shr(mantissa, highest) % 2 == 0
        invariant 0 <= highest <= 22 && mantissa < 2 * Words.Pow2(highest)
      {
        ClearBit(mantissa, highest);
        highest := highest - 1;
      }
      LeadingOne(mantissa, highest);
      FractionFits(mantissa, highest);
      return sign + (highest - 149 + 1023) * Assemble.HIDDEN + mantissa % Words.Pow2(highest) * Words.Pow2(52 - highest);
    }
    wide := sign + (exponent - 127 + 1023) * Assemble.HIDDEN + mantissa * STEP;
  }

  lemma {:induction false} ClearBit(mantissa: nat, h: nat)
    requires h > 0 && mantissa < 2 * Words.Pow2(h) && Assemble.Shr(mantissa, h) % 2 == 0
    ensures mantissa < 2 * Words.Pow2(h - 1)
  {
    if mantissa >= Words.Pow2(h) { Words.ModUnique(mantissa, 1, mantissa - Words.Pow2(h), Words.Pow2(h)); }
    Rounding.PowersTwice(h - 1);
  }

  lemma {:induction false} LeadingOne(mantissa: nat, h: nat)
    requires 0 < mantissa < HIDDEN32 && h <= 22 && mantissa < 2 * Words.Pow2(h)
    requires h > 0 ==> Assemble.Shr(mantissa, h) % 2 != 0
    ensures Highest(mantissa) == h && mantissa % Words.Pow2(h) == mantissa - Words.Pow2(h)
  {
    hide Words.Pow2;
    Rounding.PowersTwice(0);
    Rounding.PowersTwice(h);
    if mantissa < Words.Pow2(h) { Words.ModUnique(mantissa, 0, mantissa, Words.Pow2(h)); }
    Assemble.LengthIs(mantissa, h + 1);
    Words.ModUnique(mantissa, 1, mantissa - Words.Pow2(h), Words.Pow2(h));
  }

  lemma {:induction false} FractionFits(mantissa: nat, h: nat)
    requires h <= 22 && Words.Pow2(h) <= mantissa < 2 * Words.Pow2(h)
    ensures 0 <= (mantissa - Words.Pow2(h)) * Words.Pow2(52 - h) < Assemble.HIDDEN
    ensures mantissa * Words.Pow2(52 - h) == Assemble.HIDDEN + (mantissa - Words.Pow2(h)) * Words.Pow2(52 - h)
  {
    hide Words.Pow2;
    var p, c := Words.Pow2(h), Words.Pow2(52 - h);
    Assemble.Pow53();
    Words.Pow2Add(h, 52 - h);
    Rounding.Multiples(c, mantissa - p, p);
    assert (mantissa - p) * c == mantissa * c - p * c;
  }

  // Widening is exact, subnormals included.
  lemma {:induction false} WidenedExact(m: nat)
    requires m / HIDDEN32 < 255
    ensures Rounding.Units(Rounding.BINARY64, Widened(m)) == Rounding.Units(Rounding.BINARY32, m) * Words.Pow2(925)
    ensures Rounding.Finite(Rounding.BINARY64, Widened(m))
  {
    hide Words.Pow2, Rounding.Units;
    var field, mantissa := m / HIDDEN32, m % HIDDEN32;
    Split32(m);
    if m == 0 {
      Rounding.Split(Rounding.BINARY64, 0, 0, 0);
    } else if field == 0 {
      var h: nat := Highest(mantissa);
      FractionFits(mantissa, h);
      Rounding.Split(Rounding.BINARY64, Widened(m), h + 874, (mantissa - Words.Pow2(h)) * Words.Pow2(52 - h));
      Words.Pow2Add(52 - h, h + 873);
      Rounding.Associated(mantissa, Words.Pow2(52 - h), Words.Pow2(h + 873));
    } else {
      Rounding.Split(Rounding.BINARY64, Widened(m), field + 896, mantissa * STEP);
      Steps();
      Words.Pow2Add(29, field + 895);
      Words.Pow2Add(field - 1, 925);
      Rounding.Associated(HIDDEN32 + mantissa, STEP, Words.Pow2(field + 895));
      Rounding.Associated(HIDDEN32 + mantissa, Words.Pow2(field - 1), Words.Pow2(925));
    }
  }

  lemma {:induction false} Split32(m: nat)
    ensures Rounding.Units(Rounding.BINARY32, m) == Rounding.FieldUnits(Rounding.BINARY32, m / HIDDEN32, m % HIDDEN32)
  {
  }

  // Narrowing undoes widening for every number and infinity; a NaN stays a NaN.
  lemma {:induction false} NarrowWidened(m: nat)
    requires m < SIGN32
    ensures m <= INFINITY32 ==> Narrowed(Widened(m)) == m
    ensures m > INFINITY32 ==> Narrowed(Widened(m)) == INFINITY32 + QUIET
  {
    hide Words.Pow2, Assemble.RoundBits;
    var field, mantissa := m / HIDDEN32, m % HIDDEN32;
    if field == 0 && mantissa > 0 {
      SubnormalReturns(mantissa);
    } else if 0 < field < 255 {
      Steps();
      Words.ModUnique(Widened(m), field + 896, mantissa * STEP, Assemble.HIDDEN);
      Words.ModUnique(Assemble.HIDDEN + mantissa * STEP, HIDDEN32 + mantissa, 0, STEP);
      Even(HIDDEN32 + mantissa, STEP / 2);
    } else if field == 255 {
      Words.ModUnique(Widened(m), 2047, mantissa * STEP, Assemble.HIDDEN);
    }
  }

  lemma {:induction false} Even(s: nat, half: Positive)
    ensures Assemble.RoundBits(s, 0, half, false) == s
  {
  }

  lemma {:induction false} SubnormalReturns(mantissa: nat)
    requires 0 < mantissa < HIDDEN32
    ensures Narrowed(Widened(mantissa)) == mantissa
  {
    hide Words.Pow2, Assemble.RoundBits;
    var h: nat := Highest(mantissa);
    FractionFits(mantissa, h);
    var low := (mantissa - Words.Pow2(h)) * Words.Pow2(52 - h);
    Words.ModUnique(Widened(mantissa), h + 874, low, Assemble.HIDDEN);
    Steps();
    var up := Words.Pow2(23 - h);
    Words.Pow2Add(23 - h, 29);
    Rounding.Associated(mantissa, up, STEP);
    var sig := mantissa * up;
    assert low + Assemble.HIDDEN == sig * STEP;
    Words.ModUnique(low + Assemble.HIDDEN, sig, 0, STEP);
    Even(sig, STEP / 2);
    Pow23();
    Words.Pow2Add(h, 23 - h);
    Rounding.Multiples(up, mantissa, 2 * Words.Pow2(h));
    Rounding.Associated(2, Words.Pow2(h), up);
    Words.ModUnique(sig, mantissa, 0, up);
  }
}
