// The one rounding step of the decimal conversion: a 64-bit numerator, a binary
// scale and a sticky flag for what lies below become a binary64 encoding.
module Assemble {
  import Words
  import Rounding

  type Positive = Rounding.Positive
  type Word = w: int | 0 <= w < Words.WORD witness 0

  const SIGN: nat := 0x8000_0000_0000_0000
  const HIDDEN: nat := 0x10_0000_0000_0000

  function Length(value: nat): nat { if value == 0 then 0 else 1 + Length(value / 2) }

  lemma {:induction false} LengthBounds(value: nat)
    ensures value < Words.Pow2(Length(value))
    ensures value == 0 <==> Length(value) == 0
    ensures value > 0 ==> Words.Pow2(Length(value) - 1) <= value
  {
    if value > 0 { LengthBounds(value / 2); }
  }

  lemma {:induction false} LengthAtMost(value: nat, n: nat)
    requires value < Words.Pow2(n)
    ensures Length(value) <= n
  {
    LengthBounds(value);
    if value > 0 && Length(value) > n { Words.PowersGrow(n, Length(value) - 1); }
  }

  lemma {:induction false} LengthIs(value: nat, n: nat)
    requires n > 0 && Words.Pow2(n - 1) <= value < Words.Pow2(n)
    ensures Length(value) == n
  {
    LengthAtMost(value, n);
    LengthBounds(value);
    if Length(value) < n { Words.PowersGrow(Length(value), n - 1); }
  }

  method BitLength(value: Word) returns (length: nat)
    ensures length == Length(value) && length <= 64
  {
    var rest: nat := value;
    length := 0;
    while rest != 0
      invariant length + Length(rest) == Length(value)
    {
      length := length + 1;
      rest := rest / 2;
    }
    Words.Pow2Is64();
    LengthAtMost(value, 64);
  }

  // The quantum of a value of this length and scale is 2^k least subnormals ...
  function Quantum(length: nat, scale: int): nat {
    if length - 1 - scale >= -1022 then length - 53 - scale + 1074 else 0
  }

  // ... and this many low bits of the numerator lie below it.
  function Dropped(length: nat, scale: int): int { Quantum(length, scale) + scale - 1074 }

  function RoundBits(s: nat, t: nat, half: nat, sticky: bool): nat {
    if t >= half && (sticky || t != half || s % 2 == 1) then s + 1 else s
  }

  // The numerator in quanta, ties to even.
  function Significand(numerator: nat, scale: int, sticky: bool): nat {
    var r := Dropped(Length(numerator), scale);
    if r <= 0 then numerator * Words.Pow2(-r)
    else RoundBits(Shr(numerator, r), Low(numerator, r), Words.Pow2(r - 1), sticky)
  }

  function Shr(x: nat, n: nat): nat {
    Words.QuotientAtMost(x, Words.Pow2(n));
    x / Words.Pow2(n)
  }

  function Low(x: nat, n: nat): nat { x % Words.Pow2(n) }

  function Magnitude(numerator: nat, scale: int, sticky: bool): nat {
    Rounding.Encode(Rounding.BINARY64, Quantum(Length(numerator), scale), Significand(numerator, scale, sticky))
  }

  lemma {:induction false} RoundQuotient(x: nat, d: Positive, s: nat, t: nat, rest: nat, half: Positive)
    requires x == (s * (2 * half) + t) * d + rest && t < 2 * half && rest < d
    ensures Rounding.RoundedTo(x, 2 * half * d, RoundBits(s, t, half, rest > 0))
  {
    var b, y := half * d, t * d + rest;
    assert 2 * half * d == 2 * b;
    assert x == s * (2 * b) + y by {
      assert (s * (2 * half) + t) * d == s * (2 * half) * d + t * d;
      Rounding.Associated(s, 2 * half, d);
    }
    assert (s + 1) * (2 * b) == s * (2 * b) + 2 * b;
    Halves(t, d, rest, half);
    Rounding.Multiples(d, 1, half);
    NearerMultiple(x, s, y, b, t, half, rest > 0);
  }

  lemma {:induction false} Halves(t: nat, d: Positive, rest: nat, half: Positive)
    requires t < 2 * half && rest < d
    ensures t < half ==> t * d + rest < half * d
    ensures t == half ==> t * d + rest == half * d + rest
    ensures t > half ==> half * d < t * d + rest
    ensures t * d + rest < 2 * (half * d)
  {
    if t < half { Rounding.Multiples(d, t, half); }
    if t > half { Rounding.Multiples(d, half, t); }
    Rounding.Multiples(d, t, 2 * half);
    Rounding.Associated(2, half, d);
  }

  lemma {:induction false} NearerMultiple(x: nat, s: nat, y: nat, b: Positive, t: nat, half: nat, sticky: bool)
    requires x == s * (2 * b) + y && y < 2 * b && (s + 1) * (2 * b) == s * (2 * b) + 2 * b
    requires t < half ==> y < b
    requires t == half ==> y >= b && (sticky <==> y > b)
    requires t > half ==> y > b
    ensures Rounding.RoundedTo(x, 2 * b, RoundBits(s, t, half, sticky))
  {
    var low := s * (2 * b);
    assert RoundBits(s, t, half, sticky) * (2 * b) == if RoundBits(s, t, half, sticky) == s then low else low + 2 * b;
  }

  // N / D * 2^-scale in least subnormals is N * Up over D * Down.
  function Up(scale: int): Positive { if scale < 1074 then Words.Pow2(1074 - scale) else 1 }
  function Down(scale: int): Positive { if scale > 1074 then Words.Pow2(scale - 1074) else 1 }

  lemma {:induction false} Scales(k: nat, r: int, scale: int)
    requires r == k + scale - 1074
    ensures r >= 0 ==> Words.Pow2(k) * Down(scale) == Words.Pow2(r) * Up(scale)
    ensures r <= 0 ==> Words.Pow2(-r) * (Words.Pow2(k) * Down(scale)) == Up(scale)
  {
    if r >= 0 {
      if scale >= 1074 { Words.Pow2Add(k, scale - 1074); } else { Words.Pow2Add(r, 1074 - scale); }
    }
    if r <= 0 { Words.Pow2Add(-r, k); }
  }

  // An exact quotient n / d in [2^(length-1), 2^length), rounded at bit r.
  lemma {:induction false} DroppedBits(n: nat, d: Positive, numerator: nat, length: nat, r: nat, k: nat)
    requires numerator == n / d && length == Length(numerator) && r > 0
    requires if k > 0 then r + 53 == length else length <= r + 53
    ensures Rounding.InBinade(Rounding.BINARY64, n, Words.Pow2(r) * d, k)
    ensures Rounding.RoundedTo(n, Words.Pow2(r) * d,
              RoundBits(Shr(numerator, r), Low(numerator, r), Words.Pow2(r - 1), n % d > 0))
  {
    hide Words.Pow2, Length, RoundBits, Rounding.RoundedTo, Rounding.InBinade, Shr, Low;
    Rounding.PowersTwice(r - 1);
    SplitBits(numerator, r);
    QuotientParts(n, d);
    RoundQuotient(n, d, Shr(numerator, r), Low(numerator, r), n % d, Words.Pow2(r - 1));
    Binade(n, d, numerator, length, r, k);
  }

  lemma {:induction false} SplitBits(numerator: nat, r: nat)
    ensures numerator == Shr(numerator, r) * Words.Pow2(r) + Low(numerator, r) && Low(numerator, r) < Words.Pow2(r)
  {
    hide Words.Pow2;
  }

  lemma {:induction false} QuotientParts(n: nat, d: Positive)
    ensures n == n / d * d + n % d && 0 <= n % d < d
  {
  }

  lemma {:induction false} Binade(n: nat, d: Positive, numerator: nat, length: nat, r: nat, k: nat)
    requires numerator == n / d && length == Length(numerator)
    requires if k > 0 then r + 53 == length else length <= r + 53
    ensures Rounding.InBinade(Rounding.BINARY64, n, Words.Pow2(r) * d, k)
  {
    hide Words.Pow2, Length;
    var p := Words.Pow2(r);
    assert n == numerator * d + n % d;
    LengthBounds(numerator);
    Pow53();
    Words.Pow2Add(53, r);
    Words.PowersGrow(length, r + 53);
    Rounding.Multiples(d, numerator, 2 * HIDDEN * p);
    Rounding.Associated(2 * HIDDEN, p, d);
    if k > 0 {
      Words.Pow2Add(52, r);
      Rounding.Multiples(d, HIDDEN * p, numerator);
      Rounding.Associated(HIDDEN, p, d);
    }
  }

  lemma {:induction false} Pow53()
    ensures Words.Pow2(52) == HIDDEN && Words.Pow2(53) == 2 * HIDDEN
  {
    assert Words.Pow2(13) == 8192;
    Words.Pow2Add(13, 13);
    Words.Pow2Add(26, 26);
    Rounding.PowersTwice(52);
  }

  lemma {:induction false} ScaleUp(x: nat, a: nat, k: nat, sig: nat, c: Positive)
    requires Rounding.InBinade(Rounding.BINARY64, x, a, k) && Rounding.RoundedTo(x, a, sig)
    ensures Rounding.InBinade(Rounding.BINARY64, x * c, a * c, k) && Rounding.RoundedTo(x * c, a * c, sig)
  {
    hide Rounding.RoundedTo;
    Rounding.Associated(HIDDEN, a, c);
    var top := HIDDEN * a;
    Rounding.Multiples(c, x, if x < 2 * top then 2 * top else x);
    Rounding.Associated(2, top, c);
    Rounding.Multiples(c, if k > 0 then top else x, x);
    Rounding.Associated(sig, a, c);
    ScaleDistance(x, a, sig, c);
  }

  lemma {:induction false} ScaleDistance(x: nat, a: nat, sig: nat, c: Positive)
    requires Rounding.RoundedTo(x, a, sig)
    ensures Rounding.RoundedTo(x * c, a * c, sig)
  {
    var y := sig * a;
    Rounding.Associated(sig, a, c);
    var dist := Rounding.Dist(x, y);
    var high, low := if x < y then y else x, if x < y then x else y;
    assert (low + dist) * c == low * c + dist * c;
    Rounding.Multiples(c, 2 * dist, a);
    Rounding.Associated(2, dist, c);
  }

  // The quantum over the denominator, in least subnormals.
  lemma {:induction false} Rescaled(d: Positive, k: nat, r: int, scale: int)
    requires r == k + scale - 1074
    ensures r >= 0 ==> Words.Pow2(k) * (d * Down(scale)) == Words.Pow2(r) * d * Up(scale)
    ensures r <= 0 ==> d * Up(scale) == Words.Pow2(-r) * (Words.Pow2(k) * (d * Down(scale)))
  {
    hide Words.Pow2, Up, Down;
    Scales(k, r, scale);
    var p, u, v := Words.Pow2(k), Up(scale), Down(scale);
    assert p * (d * v) == d * (p * v);
    if r >= 0 { assert Words.Pow2(r) * d * u == d * (Words.Pow2(r) * u); }
    if r <= 0 { assert Words.Pow2(-r) * (d * (p * v)) == d * (Words.Pow2(-r) * (p * v)); }
  }

  lemma {:induction false} ExactBits(numerator: Positive, length: nat, r: int, k: nat, a: Positive)
    requires length == Length(numerator) && r <= 0 && (if k > 0 then r + 53 == length else length <= r + 53)
    ensures var sig := numerator * Words.Pow2(-r);
            Rounding.InBinade(Rounding.BINARY64, sig * a, a, k) && Rounding.RoundedTo(sig * a, a, sig)
  {
    hide Words.Pow2, Length;
    var p := Words.Pow2(-r);
    LengthBounds(numerator);
    Pow53();
    Words.Pow2Add(length, -r);
    Words.PowersGrow(length - r, 53);
    Rounding.Multiples(p, numerator, Words.Pow2(length));
    var sig := numerator * p;
    Rounding.Multiples(a, sig, 2 * HIDDEN);
    assert 2 * HIDDEN * a == 2 * (HIDDEN * a);
    if k > 0 {
      Words.Pow2Add(length - 1, -r);
      Rounding.Multiples(p, Words.Pow2(length - 1), numerator);
      Rounding.Multiples(a, HIDDEN, sig);
    }
  }

  // The significand is the quotient rounded to its own binade's quantum.
  lemma {:induction false} SignificandRounds(n: nat, d: Positive, scale: int)
    requires n / d > 0 && (n % d > 0 ==> Dropped(Length(n / d), scale) > 0)
    ensures var numerator := n / d;
            var k := Quantum(Length(numerator), scale);
            var a := Words.Pow2(k) * (d * Down(scale));
            && Rounding.InBinade(Rounding.BINARY64, n * Up(scale), a, k)
            && Rounding.RoundedTo(n * Up(scale), a, Significand(numerator, scale, n % d > 0))
  {
    hide Words.Pow2, Length, RoundBits, Rounding.RoundedTo, Rounding.InBinade, Up, Down;
    var numerator: nat := n / d;
    var length := Length(numerator);
    var k, r := Quantum(length, scale), Dropped(length, scale);
    Rescaled(d, k, r, scale);
    if r > 0 {
      DroppedBits(n, d, numerator, length, r, k);
      ScaleUp(n, Words.Pow2(r) * d, k, Significand(numerator, scale, n % d > 0), Up(scale));
    } else {
      ExactNumerator(n, d, scale, k, r);
      ExactBits(numerator, length, r, k, Words.Pow2(k) * (d * Down(scale)));
    }
  }

  // The sticky flag is heard whenever the numerator fills the format.
  lemma {:induction false} LongEnough(numerator: nat, scale: int)
    requires numerator >= 2 * HIDDEN
    ensures Dropped(Length(numerator), scale) > 0
  {
    LengthBounds(numerator);
    Pow53();
    if Length(numerator) <= 53 { Words.PowersGrow(Length(numerator), 53); }
  }

  lemma {:induction false} ExactNumerator(n: nat, d: Positive, scale: int, k: nat, r: int)
    requires n % d == 0 && r == k + scale - 1074 && r <= 0
    ensures Words.Pow2(k) * (d * Down(scale)) > 0
    ensures n * Up(scale) == n / d * Words.Pow2(-r) * (Words.Pow2(k) * (d * Down(scale)))
  {
    hide Words.Pow2, Up, Down;
    Rescaled(d, k, r, scale);
    var numerator, a := n / d, Words.Pow2(k) * (d * Down(scale));
    Rounding.Multiples(Down(scale), 1, d);
    Rounding.Multiples(d * Down(scale), 1, Words.Pow2(k));
    assert n == numerator * d;
    Rounding.Associated(numerator, d, Up(scale));
    Rounding.Associated(numerator, Words.Pow2(-r), a);
  }

  // n / d * 2^-scale, in least subnormals, is n * Up over d * Down.  It is rounded
  // to the nearest encoding, ties to even, unless it reaches the threshold.
  lemma {:induction false} AssembledNearest(n: nat, d: Positive, scale: int)
    requires n / d > 0 && (n % d > 0 ==> Dropped(Length(n / d), scale) > 0)
    ensures var e := Magnitude(n / d, scale, n % d > 0);
            && (Rounding.Finite(Rounding.BINARY64, e) <==>
                n * Up(scale) < Rounding.Threshold(Rounding.BINARY64) * (d * Down(scale)))
            && (Rounding.Finite(Rounding.BINARY64, e) ==>
                Rounding.Nearest(Rounding.BINARY64, n * Up(scale), d * Down(scale), e))
  {
    hide Words.Pow2, Length, RoundBits, Up, Down, Rounding.RoundedTo, Rounding.InBinade, Rounding.Nearest, Rounding.Threshold, Rounding.Finite;
    SignificandRounds(n, d, scale);
    Rounding.Multiples(Down(scale), 1, d);
    var numerator := n / d;
    var k, sig := Quantum(Length(numerator), scale), Significand(numerator, scale, n % d > 0);
    Rounding.FiniteBelowThreshold(Rounding.BINARY64, n * Up(scale), d * Down(scale), k, sig);
    if Rounding.Finite(Rounding.BINARY64, Magnitude(numerator, scale, n % d > 0)) {
      Rounding.RoundedIsNearest(Rounding.BINARY64, n * Up(scale), d * Down(scale), k, sig);
    }
  }

  function Signed(negative: bool, magnitude: nat): nat { (if negative then SIGN else 0) + magnitude }

  lemma {:induction false} MagnitudeFits(numerator: Positive, scale: int, sticky: bool)
    ensures Rounding.SignificandFits(Rounding.BINARY64, Quantum(Length(numerator), scale), Significand(numerator, scale, sticky))
  {
    hide Words.Pow2, Length, RoundBits, Up, Down, Rounding.RoundedTo, Rounding.InBinade;
    var k, sig := Quantum(Length(numerator), scale), Significand(numerator, scale, sticky);
    var n, d := if sticky then 2 * numerator + 1 else numerator, if sticky then 2 else 1;
    if sticky && Dropped(Length(numerator), scale) <= 0 { n, d := numerator, 1; }
    SignificandRounds(n, d, scale);
    var a := Words.Pow2(k) * (d * Down(scale));
    Rounding.Multiples(Down(scale), 1, d);
    Rounding.Multiples(d * Down(scale), 1, Words.Pow2(k));
    Rounding.SignificandRange(Rounding.BINARY64, n * Up(scale), a, k, sig);
  }

  // The numerator brought to an integral number of quanta, in words.  The guards
  // against a shift that loses bits never fire.
  method ShiftToQuantum(numerator: Word, shift: int, sticky: bool) returns (significand: Word)
    requires numerator > 0 && shift + Length(numerator) <= 53 && -0x1_0000_0000 < shift
    ensures significand == if shift >= 0 then numerator * Words.Pow2(shift)
                           else RoundBits(Shr(numerator, -shift), Low(numerator, -shift), Words.Pow2(-shift - 1), sticky)
  {
    hide Words.Pow2, Length;
    if shift >= 0 {
      ShiftFits(numerator, shift);
      significand := numerator * Words.Pow2(shift) % Words.WORD;
      assert shift < 64 && significand / Words.Pow2(shift) == numerator;
    } else {
      significand := RoundShift(numerator, -shift % 0x1_0000_0000, sticky);
    }
  }

  method RoundShift(numerator: Word, right: nat, sticky: bool) returns (significand: Word)
    requires right > 0
    ensures significand == RoundBits(Shr(numerator, right), Low(numerator, right), Words.Pow2(right - 1), sticky)
  {
    hide Words.Pow2, Length, Shr, Low;
    significand := 0;
    var guard, rest := false, sticky;
    if right > 64 {
      FarBelow(numerator, right);
    } else {
      LowBits(numerator, right);
      if right == 64 {
        guard := Shr(numerator, 63) % 2 != 0;
        rest := rest || Low(numerator, 63) != 0;
      } else {
        significand := Shr(numerator, right);
        guard := Shr(numerator, right - 1) % 2 != 0;
        if right > 1 && Low(numerator, right - 1) != 0 { rest := true; }
      }
    }
    if guard && (rest || significand % 2 != 0) { significand := significand + 1; }
  }

  lemma {:induction false} ShiftFits(numerator: Positive, shift: nat)
    requires shift + Length(numerator) <= 53
    ensures numerator * Words.Pow2(shift) < Words.WORD
    ensures numerator * Words.Pow2(shift) / Words.Pow2(shift) == numerator
  {
    hide Words.Pow2, Length;
    var p := Words.Pow2(shift);
    LengthBounds(numerator);
    Words.Pow2Add(Length(numerator), shift);
    Words.PowersGrow(Length(numerator) + shift, 53);
    Pow53();
    Rounding.Multiples(p, numerator, Words.Pow2(Length(numerator)));
    Words.ModUnique(numerator * p, numerator, 0, p);
  }

  lemma {:induction false} FarBelow(numerator: Word, right: nat)
    requires right > 64
    ensures Shr(numerator, right) == 0 && Low(numerator, right) < Words.Pow2(right - 1)
  {
    hide Words.Pow2;
    Words.Pow2Is64();
    Words.PowersGrow(64, right - 1);
    Words.PowersGrow(64, right);
    Words.ModUnique(numerator, 0, numerator, Words.Pow2(right));
  }

  lemma {:induction false} LowBits(numerator: Word, right: nat)
    requires 0 < right
    ensures var half, t := Words.Pow2(right - 1), Low(numerator, right);
            && (t >= half <==> Shr(numerator, right - 1) % 2 != 0)
            && (t >= half ==> (t != half <==> Low(numerator, right - 1) != 0))
    ensures right == 1 ==> Low(numerator, right - 1) == 0
    ensures right == 64 ==> Shr(numerator, right) == 0
    ensures right < 64 ==> Shr(numerator, right) < Words.WORD - 1
  {
    hide Words.Pow2;
    var half, p := Words.Pow2(right - 1), Words.Pow2(right);
    Rounding.PowersTwice(right - 1);
    var s, t := numerator / p, numerator % p;
    assert numerator == p * s + t;
    assert p * s == half * (2 * s);
    var high := if t >= half then 1 else 0;
    Words.ModUnique(numerator, 2 * s + high, t - high * half, half);
    Words.Pow2Is64();
    if right == 64 { Words.ModUnique(numerator, 0, numerator, p); }
    if right == 1 { Rounding.PowersTwice(0); }
    Words.HalfAtMost(numerator, p);
  }

  method AssembleDouble(numerator: Word, scale: int, sticky: bool, negative: bool) returns (ok: bool, bits: Word)
    requires scale < 0x8000_0000
    ensures numerator == 0 ==> ok && bits == Signed(negative, 0)
    ensures numerator > 0 ==> (ok <==> Rounding.Finite(Rounding.BINARY64, Magnitude(numerator, scale, sticky)))
    ensures numerator > 0 && ok ==> bits == Signed(negative, Magnitude(numerator, scale, sticky))
  {
    hide Words.Pow2, RoundBits, Length;
    var sign := if negative then SIGN else 0;
    if numerator == 0 { return true, sign; }
    var length := BitLength(numerator);
    var exponent := length - 1 - scale;
    var fractionBits := if exponent >= -1022 then 52 - exponent else 1074;
    ghost var k := Quantum(length, scale);
    MagnitudeFits(numerator, scale, sticky);
    var significand := ShiftToQuantum(numerator, fractionBits - scale, sticky);
    assert significand == Significand(numerator, scale, sticky);
    if significand == 0 { return true, sign; }
    ok, bits := Pack(significand, fractionBits, negative, k);
  }

  // The significand and its quantum as an encoding, unless it is out of range.
  method Pack(rounded: Word, fractionBits: int, negative: bool, ghost k: nat) returns (ok: bool, bits: Word)
    requires rounded > 0 && fractionBits == 1074 - k && Rounding.SignificandFits(Rounding.BINARY64, k, rounded)
    ensures ok <==> Rounding.Finite(Rounding.BINARY64, Rounding.Encode(Rounding.BINARY64, k, rounded))
    ensures ok ==> bits == Signed(negative, Rounding.Encode(Rounding.BINARY64, k, rounded))
  {
    hide Words.Pow2, Length, Rounding.Finite;
    var sign, significand := if negative then SIGN else 0, rounded;
    var width := BitLength(significand);
    Width(significand, width);
    Packed(k, significand);
    var unbiased := width - 1 - fractionBits;
    if unbiased < -1022 { return true, sign + significand; }
    if unbiased > 1023 { return false, 0; }
    if width > 53 { significand := significand / Words.Pow2(width - 53); }
    bits := sign + ((unbiased + 1023) * HIDDEN + significand % HIDDEN);
    ok := true;
  }

  lemma {:induction false} Width(significand: nat, width: nat)
    requires 0 < significand <= 2 * HIDDEN && width == Length(significand)
    ensures width < 53 <==> significand < HIDDEN
    ensures width <= 53 <==> significand < 2 * HIDDEN
    ensures width <= 54
    ensures width == 54 ==> significand / Words.Pow2(width - 53) == HIDDEN
  {
    hide Words.Pow2, Length;
    LengthBounds(significand);
    Pow53();
    Rounding.PowersTwice(53);
    LengthAtMost(significand, 54);
    if width < 53 { Words.PowersGrow(width, 52); }
    if width > 52 { Words.PowersGrow(52, width - 1); }
    Rounding.PowersTwice(0);
  }

  lemma {:induction false} Packed(k: nat, sig: nat)
    requires Rounding.SignificandFits(Rounding.BINARY64, k, sig)
    ensures Rounding.Finite(Rounding.BINARY64, Rounding.Encode(Rounding.BINARY64, k, sig)) <==>
            k + (if sig < HIDDEN then 0 else if sig < 2 * HIDDEN then 1 else 2) < 2047
  {
    var field := k + if sig < HIDDEN then 0 else if sig < 2 * HIDDEN then 1 else 2;
    Words.ModUnique(k * HIDDEN + sig, field, k * HIDDEN + sig - field * HIDDEN, HIDDEN);
  }
}
