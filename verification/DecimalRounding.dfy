// When the conversion of a decimal constant is correctly rounded.
module DecimalRounding {
  import Words
  import Rounding
  import Assemble
  import Wide
  import Decimal
  import Closeness

  type Word = Assemble.Word
  type Positive = Rounding.Positive

  function LeastSubnormals(x: nat): nat { x * Words.Pow2(1074) }

  // A binary64 magnitude nearest to x / q.
  ghost predicate Rounds(x: nat, q: nat, e: nat) {
    Rounding.Nearest(Rounding.BINARY64, LeastSubnormals(x), q, e)
  }

  lemma {:induction false} SameQuotient(x: nat, q: nat, c: Positive, e: nat)
    requires Rounding.Nearest(Rounding.BINARY64, x * c, q * c, e)
    ensures Rounding.Nearest(Rounding.BINARY64, x, q, e)
  {
    hide Rounding.Units, Rounding.Finite, Rounding.NotNearer;
    forall d: nat | Rounding.Finite(Rounding.BINARY64, d) ensures Rounding.NotNearer(Rounding.BINARY64, x, q, e, d) {
      assert Rounding.NotNearer(Rounding.BINARY64, x * c, q * c, e, d);
      NotNearerScaled(x, q, c, e, d);
    }
  }

  lemma {:induction false} NotNearerScaled(x: nat, q: nat, c: Positive, e: nat, d: nat)
    requires Rounding.NotNearer(Rounding.BINARY64, x * c, q * c, e, d)
    ensures Rounding.NotNearer(Rounding.BINARY64, x, q, e, d)
  {
    hide Rounding.Units;
    var u, v := Rounding.Units(Rounding.BINARY64, e), Rounding.Units(Rounding.BINARY64, d);
    DistanceScaled(x, u * q, c);
    DistanceScaled(x, v * q, c);
    Rounding.Associated(u, q, c);
    Rounding.Associated(v, q, c);
    var i, j := Rounding.Dist(x, u * q), Rounding.Dist(x, v * q);
    if i > j { Rounding.Multiples(c, j, i); }
  }

  lemma {:induction false} DistanceScaled(a: nat, b: nat, c: nat)
    ensures Rounding.Dist(a * c, b * c) == Rounding.Dist(a, b) * c
  {
    if a < b { assert (b - a) * c == b * c - a * c; Rounding.Multiples(c, a, b); }
    else { assert (a - b) * c == a * c - b * c; Rounding.Multiples(c, b, a); }
  }

  // Small values are far from the overflow threshold.
  lemma {:induction false} Small(x: nat, q: Positive)
    requires x < Words.WORD * Words.WORD * Words.Pow2(1074) * q
    ensures x < Rounding.Threshold(Rounding.BINARY64) * q
  {
    hide Words.Pow2;
    Words.Pow2Is64();
    Words.Pow2Add(64, 64);
    Words.Pow2Add(128, 1074);
    Words.PowersGrow(1202, 2044);
    Rounding.Multiples(Words.Pow2(2044), 1, 4 * 0x10_0000_0000_0000 - 1);
    Rounding.Multiples(q, Words.Pow2(1202), Rounding.Threshold(Rounding.BINARY64));
  }

  function Widen(m: nat, divisor: nat): int { 63 + Assemble.Length(divisor) - Assemble.Length(m) }

  // The widened quotient fills at least 63 bits and fits a word.
  lemma {:induction false} QuotientFills(m: Positive, divisor: Positive)
    requires m < Words.WORD && divisor < Words.WORD
    ensures Widen(m, divisor) >= 0 && Assemble.Length(divisor) <= 64
    ensures Words.Pow2(62) <= m * Words.Pow2(Widen(m, divisor)) / divisor < Words.WORD
    ensures m * Words.Pow2(Widen(m, divisor)) < Words.Pow2(63 + Assemble.Length(divisor))
  {
    hide Words.Pow2, Assemble.Length;
    Words.Pow2Is64();
    Assemble.LengthBounds(m);
    Assemble.LengthBounds(divisor);
    Assemble.LengthAtMost(m, 64);
    Assemble.LengthAtMost(divisor, 64);
    var w, v := Assemble.Length(m), Assemble.Length(divisor);
    var widen: nat := 63 + v - w;
    var p := Words.Pow2(widen);
    Words.Pow2Add(w - 1, widen);
    Words.Pow2Add(w, widen);
    Rounding.Multiples(p, Words.Pow2(w - 1), m);
    Rounding.Multiples(p, m, Words.Pow2(w));
    Words.Pow2Add(62, v);
    Words.Pow2Add(64, v - 1);
    Rounding.Multiples(Words.Pow2(62), divisor, Words.Pow2(v));
    Rounding.Multiples(Words.WORD, Words.Pow2(v - 1), divisor);
    Between(m * p, divisor, Words.Pow2(62), Words.WORD);
  }

  lemma {:induction false} Between(n: nat, d: Positive, low: nat, high: nat)
    requires low * d <= n < high * d
    ensures low <= n / d < high
  {
    var q := n / d;
    assert n == d * q + n % d;
    if q < low { Rounding.Multiples(d, q, low); }
    if q >= high { Rounding.Multiples(d, high, q); }
  }

  // m / 10^k as the code computes it: the odd factor divided out with 62 bits to
  // spare, the power of two left to the scale.
  function Divided(m: Positive, k: nat): nat
    requires m < Words.WORD && k <= Decimal.MAX_DIVISOR_EXPONENT
  {
    QuotientFills(m, Decimal.POWER_OF_FIVE[k]);
    var widen := Widen(m, Decimal.POWER_OF_FIVE[k]);
    var n := m * Words.Pow2(widen);
    Assemble.Magnitude(n / Decimal.POWER_OF_FIVE[k], widen + k, n % Decimal.POWER_OF_FIVE[k] > 0)
  }

  // Decimal fractions are correctly rounded.
  lemma {:induction false} FractionRounds(m: Positive, k: nat)
    requires m < Words.WORD && 0 < k <= Decimal.MAX_DIVISOR_EXPONENT
    ensures Rounds(m, Decimal.Pow(10, k), Divided(m, k))
  {
    hide Words.Pow2, Assemble.Length, Assemble.Magnitude, Rounding.Nearest, Decimal.Pow, LeastSubnormals;
    var f := Decimal.POWER_OF_FIVE[k];
    Decimal.FivesTable(k);
    QuotientFills(m, f);
    var widen: nat := Widen(m, f);
    var n := m * Words.Pow2(widen);
    Words.PowersGrow(63 + Assemble.Length(f), 127);
    SmallScale(f, m);
    FilledQuotient(n, f, n / f, n % f > 0, widen + k);
    Decimal.TenIsTwoFives(k);
    Rescale(m, widen, k);
    ScaledUp(n * Words.Pow2(1074 - widen - k), f, Words.Pow2(k), Divided(m, k));
  }

  // The same with the sticky flag set beforehand, as it is when digits were dropped.
  function Heard(m: Positive, k: nat): nat
    requires m < Words.WORD && k <= Decimal.MAX_DIVISOR_EXPONENT
  {
    QuotientFills(m, Decimal.POWER_OF_FIVE[k]);
    var widen := Widen(m, Decimal.POWER_OF_FIVE[k]);
    Assemble.Magnitude(m * Words.Pow2(widen) / Decimal.POWER_OF_FIVE[k], widen + k, true)
  }

  lemma {:induction false} HeardFinite(m: Positive, k: nat)
    requires m < Words.WORD && 0 < k <= Decimal.MAX_DIVISOR_EXPONENT
    ensures Rounding.Finite(Rounding.BINARY64, Heard(m, k))
  {
    hide Words.Pow2, Assemble.Length, Assemble.Magnitude, Rounding.Finite, Rounding.Nearest;
    var f := Decimal.POWER_OF_FIVE[k];
    QuotientFills(m, f);
    Fives(k);
    var widen: nat := Widen(m, f);
    var n := m * Words.Pow2(widen);
    SmallScale(f, m);
    Words.PowersGrow(63 + Assemble.Length(f), 126);
    Rounding.PowersTwice(126);
    JustAbove(n, f);
    FilledQuotient(2 * n + 1, 2 * f, n / f, true, widen + k);
    NearestFinite((2 * n + 1) * Words.Pow2(1074 - widen - k), 2 * f, Heard(m, k));
  }

  lemma {:induction false} JustAbove(n: nat, f: Positive)
    ensures (2 * n + 1) / (2 * f) == n / f && (2 * n + 1) % (2 * f) > 0
  {
    var q, r := n / f, n % f;
    assert n == f * q + r;
    assert 2 * f * q == 2 * (f * q);
    Words.ModUnique(2 * n + 1, q, 2 * r + 1, 2 * f);
  }

  lemma {:induction false} NearestFinite(x: nat, q: nat, e: nat)
    requires Rounding.Nearest(Rounding.BINARY64, x, q, e)
    ensures Rounding.Finite(Rounding.BINARY64, e)
  {
    hide Rounding.Finite, Rounding.NotNearer;
  }

  // The quotient is exact and lies in the middle of two encodings, the even one below.
  predicate TieBroken(m: Positive, k: nat)
    requires m < Words.WORD && k <= Decimal.MAX_DIVISOR_EXPONENT
  {
    QuotientFills(m, Decimal.POWER_OF_FIVE[k]);
    var n, f := m * Words.Pow2(Widen(m, Decimal.POWER_OF_FIVE[k])), Decimal.POWER_OF_FIVE[k];
    var spare := Assemble.Length(n / f) - 53;
    && n % f == 0 && spare > 0
    && Assemble.Low(n / f, spare) == Words.Pow2(spare - 1) && Assemble.Shr(n / f, spare) % 2 == 0
  }

  lemma {:induction false} Loud(q: nat, scale: nat)
    requires q >= Words.Pow2(62) && q < Words.WORD && scale <= 1000
    ensures var spare := Assemble.Length(q) - 53;
            && spare > 0
            && Assemble.Magnitude(q, scale, true) == Assemble.Magnitude(q, scale, false)
                 + if Assemble.Low(q, spare) == Words.Pow2(spare - 1) && Assemble.Shr(q, spare) % 2 == 0 then 1 else 0
  {
    hide Words.Pow2, Assemble.Length, Assemble.Shr, Assemble.Low;
    Assemble.LengthBounds(q);
    if Assemble.Length(q) <= 62 { Words.PowersGrow(Assemble.Length(q), 62); }
    assert Assemble.Dropped(Assemble.Length(q), scale) == Assemble.Length(q) - 53;
  }

  // Where nothing but zeros was dropped, the number is still m / 10^k, and hearing of
  // the zeros is right unless they break a tie.
  lemma {:induction false} ZerosHeard(m: Positive, k: nat)
    requires m < Words.WORD && 0 < k <= Decimal.MAX_DIVISOR_EXPONENT
    ensures Rounds(m, Decimal.Pow(10, k), Heard(m, k)) <==> !TieBroken(m, k)
    ensures TieBroken(m, k) ==> Heard(m, k) > 0 && Rounds(m, Decimal.Pow(10, k), Heard(m, k) - 1)
  {
    hide Words.Pow2, Assemble.Length, Assemble.Magnitude, Assemble.Shr, Assemble.Low, Rounding.Nearest, Decimal.Pow, LeastSubnormals;
    var f := Decimal.POWER_OF_FIVE[k];
    QuotientFills(m, f);
    var widen: nat := Widen(m, f);
    var n := m * Words.Pow2(widen);
    SmallScale(f, m);
    FractionRounds(m, k);
    if n % f == 0 {
      Loud(n / f, widen + k);
      if TieBroken(m, k) && Rounds(m, Decimal.Pow(10, k), Heard(m, k)) {
        Rounding.OneNearest(Rounding.BINARY64, LeastSubnormals(m), Decimal.Pow(10, k), Divided(m, k));
      }
    }
  }

  // (2^53 + 1) * 1000 / 10^3 is a tie.
  lemma {:induction false} TieAbove()
    ensures TieBroken(9007199254740993000, 3) && Heard(9007199254740993000, 3) == 0x4340_0000_0000_0001
  {
    hide Words.Pow2, Assemble.Length;
    var m, q := 9007199254740993000, 9223372036854776832;
    Words.Pow2Is64();
    Rounding.PowersTwice(63);
    Rounding.PowersTwice(62);
    Assemble.LengthIs(m, 63);
    Assemble.LengthIs(q, 64);
    Bits11();
    assert Words.Pow2(7) == 128 && Words.Pow2(3) == 8 by { SmallPowers(); }
    Assemble.LengthIs(125, 7) by { SmallPowers(); }
    assert Decimal.POWER_OF_FIVE[3] == 125 && Widen(m, 125) == 7;
    assert m * 128 / 125 == q && m * 128 % 125 == 0;
    assert q % 2048 == 1024 && q / 2048 == 4503599627370496;
  }

  lemma SmallPowers()
    ensures Words.Pow2(3) == 8 && Words.Pow2(6) == 64 && Words.Pow2(7) == 128
  {
  }

  lemma {:induction false} SmallScale(f: Word, m: Word)
    ensures Widen(m, f) <= 127
  {
    Words.Pow2Is64();
    Assemble.LengthAtMost(f, 64);
  }

  lemma {:induction false} FilledQuotient(n: nat, f: Positive, q: nat, sticky: bool, scale: nat)
    requires q == n / f && sticky == (n % f > 0) && q >= Words.Pow2(62) && n < Words.Pow2(127) && scale <= 1074
    ensures Rounding.Nearest(Rounding.BINARY64, n * Words.Pow2(1074 - scale), f, Assemble.Magnitude(q, scale, sticky))
  {
    hide Words.Pow2, Assemble.Length, Assemble.Magnitude, Assemble.Dropped, Rounding.Nearest, Rounding.Finite, Rounding.Threshold;
    Wide62();
    Assemble.LongEnough(q, scale);
    Assemble.AssembledNearest(n, f, scale);
    BelowSmall(n, Words.Pow2(1074 - scale), f, scale);
    Small(n * Words.Pow2(1074 - scale), f);
    assert Words.Pow2(0) == 1 by { Rounding.PowersTwice(0); }
  }

  lemma Wide62()
    ensures Words.Pow2(62) >= 2 * Assemble.HIDDEN
  {
    Assemble.Pow53();
    Words.PowersGrow(53, 62);
  }

  lemma {:induction false} Rescale(m: nat, widen: nat, k: nat)
    requires widen + k <= 1074
    ensures m * Words.Pow2(widen) * Words.Pow2(1074 - widen - k) * Words.Pow2(k) == LeastSubnormals(m)
  {
    hide Words.Pow2;
    Words.Pow2Add(widen, 1074 - widen - k);
    Words.Pow2Add(1074 - k, k);
    Rounding.Associated(m, Words.Pow2(widen), Words.Pow2(1074 - widen - k));
    Rounding.Associated(m, Words.Pow2(1074 - k), Words.Pow2(k));
  }

  lemma {:induction false} BelowSmall(n: nat, rest: nat, f: Positive, s: nat)
    requires n < Words.Pow2(127) && s <= 1074 && rest == Words.Pow2(1074 - s)
    ensures n * rest < Words.WORD * Words.WORD * Words.Pow2(1074) * f
  {
    hide Words.Pow2;
    Words.Pow2Is64();
    Words.Pow2Add(64, 64);
    Words.PowersGrow(127, 128);
    Words.PowersGrow(1074 - s, 1074);
    Rounding.Multiples(rest, n, Words.Pow2(128));
    Rounding.Multiples(Words.Pow2(128), rest, Words.Pow2(1074));
    Rounding.Multiples(Words.WORD * Words.WORD * Words.Pow2(1074), 1, f);
  }

  lemma {:induction false} ScaledUp(x: nat, q: nat, c: Positive, e: nat)
    requires Rounding.Nearest(Rounding.BINARY64, x, q, e)
    ensures Rounding.Nearest(Rounding.BINARY64, x * c, q * c, e)
  {
    hide Rounding.Units, Rounding.Finite;
    forall d: nat | Rounding.Finite(Rounding.BINARY64, d) ensures Rounding.NotNearer(Rounding.BINARY64, x * c, q * c, e, d) {
      assert Rounding.NotNearer(Rounding.BINARY64, x, q, e, d);
      var u, v := Rounding.Units(Rounding.BINARY64, e), Rounding.Units(Rounding.BINARY64, d);
      DistanceScaled(x, u * q, c);
      DistanceScaled(x, v * q, c);
      Rounding.Associated(u, q, c);
      Rounding.Associated(v, q, c);
      var i, j := Rounding.Dist(x, u * q), Rounding.Dist(x, v * q);
      if i < j { Rounding.Multiples(c, i, j); }
    }
  }

  // How many low bits a normalisation drops to leave one word.
  function Excess(p: nat): nat { if p < Words.WORD then 0 else Assemble.Length(p / Words.WORD) }

  // A whole number of up to 127 bits as the code rounds it: the topmost dropped
  // bit is not part of the sticky flag.
  function Whole(p: nat): nat {
    var amount := Excess(p);
    Assemble.Magnitude(Assemble.Shr(p, amount), -(amount as int), amount > 0 && Assemble.Low(p, amount - 1) != 0)
  }

  // The dropped bits are the topmost of them alone, and the kept ones lie halfway
  // between two encodings with the even one below: the true value is past the
  // middle, and the code takes it for a tie.
  predicate TieLost(p: nat) {
    var amount := Excess(p);
    amount > 0 && Assemble.Low(p, amount) == Words.Pow2(amount - 1) && Assemble.Shr(p, amount) % 4096 == 1024
  }

  lemma {:induction false} KeptWord(p: nat)
    requires Words.WORD <= p
    ensures Excess(p) > 0 && Assemble.Length(Assemble.Shr(p, Excess(p))) == 64
    ensures p < Words.Pow2(127) ==> Excess(p) < 64
  {
    hide Words.Pow2, Assemble.Length;
    var high := p / Words.WORD;
    var amount := Assemble.Length(high);
    Assemble.LengthBounds(high);
    Words.Pow2Is64();
    assert p == Words.WORD * high + p % Words.WORD;
    var unit := Words.Pow2(amount);
    Words.Pow2Add(64, amount - 1);
    Words.Pow2Add(63, amount);
    Words.Pow2Add(64, amount);
    Rounding.Multiples(Words.WORD, Words.Pow2(amount - 1), high);
    Rounding.Multiples(Words.WORD, high, unit);
    Between(p, unit, Words.Pow2(63), Words.WORD);
    Assemble.LengthIs(p / unit, 64);
    if p < Words.Pow2(127) && amount >= 64 { Words.PowersGrow(127, 63 + amount); }
  }

  lemma {:induction false} HalfDropped(p: nat, amount: nat)
    requires amount > 0
    ensures (Assemble.Low(p, amount) > 0) != (Assemble.Low(p, amount - 1) != 0) <==> Assemble.Low(p, amount) == Words.Pow2(amount - 1)
    ensures Assemble.Low(p, amount) == Words.Pow2(amount - 1) ==> Assemble.Low(p, amount - 1) == 0
  {
    hide Words.Pow2;
    var half := Words.Pow2(amount - 1);
    Rounding.PowersTwice(amount - 1);
    var q, r := p / (2 * half), p % (2 * half);
    assert p == 2 * half * q + r;
    assert half * (2 * q) == 2 * half * q;
    var high := if r >= half then 1 else 0;
    assert half * (2 * q + 1) == half * (2 * q) + half;
    Words.ModUnique(p, 2 * q + high, r - high * half, half);
  }

  // Hearing of the dropped bits matters only on a tie above an even significand.
  lemma {:induction false} StickyMatters(numerator: nat, scale: int)
    requires Assemble.Length(numerator) == 64 && scale <= 0
    ensures var heard, unheard := Assemble.Magnitude(numerator, scale, true), Assemble.Magnitude(numerator, scale, false);
            heard == unheard + if numerator % 4096 == 1024 then 1 else 0
  {
    hide Assemble.Length, Words.Pow2;
    Bits11();
    assert Assemble.Dropped(64, scale) == 11;
    TieBits(numerator);
  }

  lemma Bits11()
    ensures Words.Pow2(10) == 1024 && Words.Pow2(11) == 2048
  {
  }

  lemma {:induction false} TieBits(numerator: nat)
    ensures numerator % 4096 == 1024 <==> numerator % 2048 == 1024 && numerator / 2048 % 2 == 0
  {
  }

  lemma {:induction false} ExactlyRounded(p: Positive)
    requires p < Words.Pow2(127)
    ensures Rounds(p, 1, Assemble.Magnitude(Assemble.Shr(p, Excess(p)), -(Excess(p) as int), Assemble.Low(p, Excess(p)) > 0))
  {
    hide Words.Pow2, Assemble.Length, Assemble.Magnitude, Rounding.Nearest, Rounding.Finite, Rounding.Threshold, Excess;
    var amount := Excess(p);
    var unit := Words.Pow2(amount);
    NothingDropped(p);
    if p >= Words.WORD { KeptWord(p); }
    Assemble.AssembledNearest(p, unit, -(amount as int));
    Words.Pow2Add(1074, amount);
    Rounding.Associated(p, Words.Pow2(1074), unit);
    WordSmall(p, unit);
    Small(p * Words.Pow2(1074) * unit, unit);
    SameQuotient(LeastSubnormals(p), 1, unit, Assemble.Magnitude(Assemble.Shr(p, amount), -(amount as int), Assemble.Low(p, amount) > 0));
  }

  lemma {:induction false} NothingDropped(p: Positive)
    ensures p < Words.WORD ==> Excess(p) == 0 && Assemble.Low(p, 0) == 0 && Assemble.Shr(p, 0) == p
    ensures Assemble.Shr(p, Excess(p)) > 0
  {
    if p >= Words.WORD {
      KeptWord(p);
      Assemble.LengthBounds(Assemble.Shr(p, Excess(p)));
    }
  }

  lemma {:induction false} WordSmall(p: nat, unit: Positive)
    requires p < Words.Pow2(127)
    ensures p * Words.Pow2(1074) * unit < Words.WORD * Words.WORD * Words.Pow2(1074) * unit
  {
    hide Words.Pow2;
    Words.Pow2Is64();
    Words.Pow2Add(64, 64);
    Words.PowersGrow(127, 128);
    Rounding.Multiples(Words.Pow2(1074), p, Words.WORD * Words.WORD);
    Rounding.Multiples(unit, p * Words.Pow2(1074), Words.WORD * Words.WORD * Words.Pow2(1074));
  }

  // Whole numbers are correctly rounded exactly when no tie is lost; a lost one
  // gives the encoding just below the nearest.
  lemma {:induction false} WholeRounds(p: Positive)
    requires p < Words.Pow2(127)
    ensures Rounds(p, 1, Whole(p)) <==> !TieLost(p)
    ensures TieLost(p) ==> Rounds(p, 1, Whole(p) + 1)
  {
    hide Words.Pow2, Assemble.Length, Assemble.Magnitude, Assemble.Shr, Assemble.Low, Rounding.Nearest, Excess;
    var amount := Excess(p);
    ExactlyRounded(p);
    NothingDropped(p);
    if p >= Words.WORD {
      KeptWord(p);
      HalfDropped(p, amount);
      StickyMatters(Assemble.Shr(p, amount), -(amount as int));
      if TieLost(p) { Rounding.OneNearest(Rounding.BINARY64, LeastSubnormals(p), 1, Whole(p)); }
    }
  }

  ghost predicate Stands(bits: Word, negative: bool, x: nat, q: nat) {
    var sign := if negative then Assemble.SIGN else 0;
    bits >= sign && Rounds(x, q, bits - sign)
  }

  // m * 10^e fits the working precision.
  lemma {:induction false} ProductFits(m: nat, e: nat)
    requires m < 10000000000000000000 && e <= Decimal.MAX_SCALE_EXPONENT
    ensures m * Decimal.POWER_OF_TEN[e] < Words.Pow2(127)
  {
    hide Words.Pow2;
    var ten := Decimal.POWER_OF_TEN[e];
    assert ten <= 10000000000000000000;
    Rounding.Multiples(ten, m, 10000000000000000000);
    Words.Pow2Is64();
    Words.Pow2Add(63, 64);
    Rounding.PowersTwice(63);
  }

  method ApplyPositive(value: Wide.Wide, scale: int, exponent: nat, sticky: bool)
    returns (value': Wide.Wide, scale': int, sticky': bool)
    ensures scale' <= scale
    ensures exponent == 0 ==> value' == value && scale' == scale && sticky' == sticky
    ensures value.high == 0 && exponent <= Decimal.MAX_SCALE_EXPONENT ==>
              value'.Value() == value.low * Decimal.Pow(10, exponent) && scale' == scale && sticky' == sticky
    ensures value.high == 0 && value.low > 0 && scale == 0 ==>
              value'.Value() > 0
              && Closeness.Below(value'.Value(), scale', value.low * Decimal.Pow(10, exponent), 1, exponent / Decimal.MAX_SCALE_EXPONENT + 1, TOP)
  {
    hide Decimal.Pow, Assemble.Length, Assemble.Shr, Words.Pow2, Assemble.Low, Closeness.Below;
    value', scale', sticky' := value, scale, sticky;
    var left := exponent;
    ghost var n := 0;
    NoPower(value);
    Closeness.Start(value.low, TOP);
    while left > 0
      invariant 0 <= left <= exponent && scale' <= scale
      invariant left > 0 ==> n * Decimal.MAX_SCALE_EXPONENT == exponent - left
      invariant n <= exponent / Decimal.MAX_SCALE_EXPONENT + 1
      invariant value.high == 0 && value.low > 0 && scale == 0 ==>
                  value'.Value() > 0
                  && Closeness.Below(value'.Value(), scale', value.low * Decimal.Pow(10, exponent - left), 1, n, TOP)
      invariant left == exponent ==> value' == value && scale' == scale && sticky' == sticky
      invariant left == 0 && value.high == 0 && exponent <= Decimal.MAX_SCALE_EXPONENT ==>
                  value'.Value() == value.low * Decimal.Pow(10, exponent) && scale' == scale && sticky' == sticky
      invariant exponent <= Decimal.MAX_SCALE_EXPONENT ==> left == 0 || left == exponent
    {
      var step := if left > Decimal.MAX_SCALE_EXPONENT then Decimal.MAX_SCALE_EXPONENT else left;
      ghost var before, scaleBefore := value', scale';
      value', scale', sticky' := Wide.Normalize(value', scale', sticky');
      Decimal.TensTable(step);
      if value.high == 0 && value.low > 0 && scale == 0 {
        ghost var x := value.low * Decimal.Pow(10, exponent - left);
        NormalizedBelow(before, scaleBefore, value', scale', x, 1, n);
        Closeness.Multiplied(value'.low, scale', x, n + 1, TOP, Decimal.POWER_OF_TEN[step]);
        MorePowers(value.low, exponent - left, step);
        Rounding.Multiples(Decimal.POWER_OF_TEN[step], 1, value'.low);
      }
      value' := Wide.Multiply(value'.low, Decimal.POWER_OF_TEN[step]);
      left := left - step;
      n := n + 1;
    }
    if value.high == 0 && value.low > 0 && scale == 0 {
      Closeness.BelowMore(value'.Value(), scale', value.low * Decimal.Pow(10, exponent), 1, n, exponent / Decimal.MAX_SCALE_EXPONENT + 1, TOP);
    }
  }

  // No scale comes to more.
  const TOP: nat := 1000000

  lemma {:induction false} NormalizedBelow(value: Wide.Wide, scale: int, value': Wide.Wide, scale': int, x: nat, q: nat, n: nat)
    requires scale <= TOP && value.Value() > 0 && Closeness.Below(value.Value(), scale, x, q, n, TOP)
    requires value.high == 0 ==> value' == value && scale' == scale
    requires value.high > 0 ==>
               var amount := Assemble.Length(value.high);
               value'.high == 0 && value'.low == Assemble.Shr(value.Value(), amount) && scale' == scale - amount
    ensures scale' <= TOP && value'.high == 0 && value'.low > 0 && Closeness.Below(value'.low, scale', x, q, n + 1, TOP)
  {
    hide Words.Pow2, Assemble.Length, Assemble.Shr, Closeness.Below;
    if value.high == 0 {
      Closeness.BelowMore(value.low, scale, x, q, n, n + 1, TOP);
    } else {
      HighWord(value);
      KeptWord(value.Value());
      FullWord(value'.low);
      Closeness.Normalized(value.Value(), scale, x, q, n, TOP, Assemble.Length(value.high));
    }
  }

  lemma {:induction false} HighWord(value: Wide.Wide)
    ensures value.Value() / Words.WORD == value.high
  {
    Words.ModUnique(value.Value(), value.high, value.low, Words.WORD);
  }

  lemma {:induction false} FullWord(low: nat)
    requires Assemble.Length(low) == 64
    ensures low >= Closeness.PARTS
  {
    hide Words.Pow2, Assemble.Length;
    Assemble.LengthBounds(low);
    Words.Pow2Is64();
    Rounding.PowersTwice(63);
  }

  lemma {:induction false} MorePowers(m: nat, j: nat, k: nat)
    ensures m * Decimal.Pow(10, j) * Decimal.Pow(10, k) == m * Decimal.Pow(10, j + k)
  {
    hide Decimal.Pow;
    PowerSum(j, k);
    Rounding.Associated(m, Decimal.Pow(10, j), Decimal.Pow(10, k));
  }

  lemma {:induction false} PowerSum(j: nat, k: nat)
    ensures Decimal.Pow(10, j) * Decimal.Pow(10, k) == Decimal.Pow(10, j + k)
  {
    if j > 0 {
      PowerSum(j - 1, k);
      Rounding.Associated(10, Decimal.Pow(10, j - 1), Decimal.Pow(10, k));
    }
  }

  lemma {:induction false} NoPower(value: Wide.Wide)
    ensures value.high == 0 ==> value.Value() == value.low * Decimal.Pow(10, 0)
  {
  }

  lemma {:induction false} Fives(k: nat)
    requires k <= Decimal.MAX_DIVISOR_EXPONENT
    ensures 0 < Assemble.Length(Decimal.POWER_OF_FIVE[k]) <= 63
  {
    hide Words.Pow2, Assemble.Length;
    Decimal.FivesTable(k);
    Words.Pow2Is64();
    Rounding.PowersTwice(63);
    Assemble.LengthBounds(Decimal.POWER_OF_FIVE[k]);
    Assemble.LengthAtMost(Decimal.POWER_OF_FIVE[k], 63);
  }

  method DivideStep(value: Wide.Wide, step: nat) returns (quotient: Wide.Wide, widen: nat, sticky: bool)
    requires step <= Decimal.MAX_DIVISOR_EXPONENT && value.high == 0
    ensures var f := Decimal.POWER_OF_FIVE[step];
            && widen == Widen(value.low, f) <= 126
            && (value.low > 0 ==>
                  var n := value.low * Words.Pow2(widen);
                  quotient.Value() == n / f && sticky == (n % f > 0))
  {
    hide Words.Pow2, Assemble.Length;
    var divisor := Decimal.POWER_OF_FIVE[step];
    Fives(step);
    var divisorWidth := Assemble.BitLength(divisor);
    var width := Assemble.BitLength(value.low);
    widen := 63 + divisorWidth - width;
    var scaled := Wide.ShiftLeft(value, widen);
    if value.low > 0 { NothingLost(value.low, divisor, widen); }
    var remainder;
    quotient, remainder := Wide.Divide(scaled, divisor);
    sticky := remainder != 0;
  }

  lemma {:induction false} NothingLost(m: Word, f: Word, widen: nat)
    requires m > 0 && f > 0 && widen == Widen(m, f) && Assemble.Length(f) <= 63
    ensures m * Words.Pow2(widen) % (Words.WORD * Words.WORD) == m * Words.Pow2(widen)
  {
    hide Words.Pow2, Assemble.Length;
    QuotientFills(m, f);
    Words.Pow2Is64();
    Words.Pow2Add(64, 64);
    Words.PowersGrow(63 + Assemble.Length(f), 128);
    Words.ModUnique(m * Words.Pow2(widen), 0, m * Words.Pow2(widen), Words.WORD * Words.WORD);
  }

  // The quotient of one division step, as the numerator of the rounding.
  ghost predicate DividedBy(m: nat, k: nat, value: Wide.Wide, scale: int, before: bool, sticky: bool)
    requires k <= Decimal.MAX_DIVISOR_EXPONENT
  {
    var f := Decimal.POWER_OF_FIVE[k];
    var widen := if Widen(m, f) < 0 then 0 else Widen(m, f);
    value.high == 0 && value.low == m * Words.Pow2(widen) / f && scale == widen + k && sticky == (before || m * Words.Pow2(widen) % f > 0)
  }

  method ApplyNegative(value: Wide.Wide, scale: int, exponent: nat, sticky: bool)
    returns (value': Wide.Wide, scale': int, sticky': bool)
    requires scale <= 0 && exponent <= 4019
    ensures scale' <= 153 * exponent
    ensures exponent == 0 ==> value' == value && scale' == scale && sticky' == sticky
    ensures 0 < exponent <= Decimal.MAX_DIVISOR_EXPONENT && value.high == 0 && value.low > 0 && scale == 0 ==>
              DividedBy(value.low, exponent, value', scale', sticky, sticky')
    ensures value.high == 0 && value.low > 0 && scale == 0 ==>
              value'.Value() > 0
              && Closeness.Below(value'.Value(), scale', value.low, Decimal.Pow(10, exponent), exponent / Decimal.MAX_DIVISOR_EXPONENT + 1, TOP)
  {
    hide Assemble.Length, Assemble.Shr, Words.Pow2, Assemble.Low, DividedBy, Closeness.Below, Decimal.Pow;
    value', scale', sticky' := value, scale, sticky;
    var left := exponent;
    ghost var n := 0;
    Decimal.NoDigits();
    Closeness.Start(value.low, TOP);
    while left > 0
      invariant 0 <= left <= exponent && scale' <= 153 * (exponent - left)
      invariant left > 0 ==> n * Decimal.MAX_DIVISOR_EXPONENT == exponent - left
      invariant n <= exponent / Decimal.MAX_DIVISOR_EXPONENT + 1
      invariant value.high == 0 && value.low > 0 && scale == 0 ==>
                  value'.high == 0 && value'.low > 0
                  && Closeness.Below(value'.low, scale', value.low, Decimal.Pow(10, exponent - left), n, TOP)
      invariant left == exponent ==> value' == value && scale' == scale && sticky' == sticky
      invariant left == 0 && 0 < exponent <= Decimal.MAX_DIVISOR_EXPONENT && value.high == 0 && value.low > 0 && scale == 0 ==>
                  DividedBy(value.low, exponent, value', scale', sticky, sticky')
      invariant exponent <= Decimal.MAX_DIVISOR_EXPONENT ==> left == 0 || left == exponent
    {
      var step := if left > Decimal.MAX_DIVISOR_EXPONENT then Decimal.MAX_DIVISOR_EXPONENT else left;
      value', scale', sticky' := Wide.Normalize(value', scale', sticky');
      var before := value'.low;
      var widen, inexact;
      value', widen, inexact := DivideStep(value', step);
      if value.high == 0 && value.low > 0 && scale == 0 {
        DividedBelow(before, scale', value', widen, step, value.low, exponent - left, n);
      }
      if inexact { sticky' := true; }
      scale' := scale' + widen + step;
      left := left - step;
      n := n + 1;
      if left == 0 && step == exponent && value.high == 0 && value.low > 0 && scale == 0 {
        OneStep(value.low, step, value', scale', sticky, sticky');
      }
    }
    if value.high == 0 && value.low > 0 && scale == 0 {
      Closeness.BelowMore(value'.low, scale', value.low, Decimal.Pow(10, exponent), n, exponent / Decimal.MAX_DIVISOR_EXPONENT + 1, TOP);
    }
  }

  lemma {:induction false} DividedBelow(before: Word, scale: int, quotient: Wide.Wide, widen: nat, step: nat, x: nat, j: nat, n: nat)
    requires before > 0 && step <= Decimal.MAX_DIVISOR_EXPONENT && widen == Widen(before, Decimal.POWER_OF_FIVE[step])
    requires quotient.Value() == before * Words.Pow2(widen) / Decimal.POWER_OF_FIVE[step]
    requires scale + widen + step <= TOP && Closeness.Below(before, scale, x, Decimal.Pow(10, j), n, TOP)
    ensures quotient.high == 0 && quotient.low > 0
    ensures Closeness.Below(quotient.low, scale + widen + step, x, Decimal.Pow(10, j + step), n + 1, TOP)
  {
    hide Words.Pow2, Assemble.Length, Closeness.Below, Decimal.Pow;
    Decimal.FivesTable(step);
    QuotientFills(before, Decimal.POWER_OF_FIVE[step]);
    Parts62();
    HighWord(quotient);
    SmallValue(quotient);
    PowerSum(j, step);
    Closeness.Divided(before, scale, x, Decimal.Pow(10, j), n, TOP, widen, step);
  }

  lemma Parts62()
    ensures Words.Pow2(62) == Closeness.PARTS
  {
    Words.Pow2Is64();
    Rounding.PowersTwice(63);
    Rounding.PowersTwice(62);
  }

  lemma {:induction false} SmallValue(value: Wide.Wide)
    requires value.Value() < Words.WORD
    ensures value.high == 0
  {
  }

  lemma {:induction false} OneStep(m: Word, k: nat, value: Wide.Wide, scale: int, before: bool, sticky: bool)
    requires m > 0 && k <= Decimal.MAX_DIVISOR_EXPONENT
    requires var f := Decimal.POWER_OF_FIVE[k];
             Widen(m, f) >= 0 && scale == Widen(m, f) + k
             && value.Value() == m * Words.Pow2(Widen(m, f)) / f && sticky == (before || m * Words.Pow2(Widen(m, f)) % f > 0)
    ensures DividedBy(m, k, value, scale, before, sticky)
  {
    hide Words.Pow2, Assemble.Length;
    Fives(k);
    Decimal.FivesTable(k);
    QuotientFills(m, Decimal.POWER_OF_FIVE[k]);
  }

  // How many parts in 2^62 the steps for an exponent may lose.
  function Allowance(exponent: int): nat {
    if exponent > 0 then exponent / Decimal.MAX_SCALE_EXPONENT + 2 else -exponent / Decimal.MAX_DIVISOR_EXPONENT + 2
  }

  // The result is the nearest encoding of y / d, which is nearly m * 10^e; there is none
  // exactly when that is past the overflow threshold.
  ghost predicate ComesOf(n: Decimal.Number, y: nat, d: Positive, ok: bool, bits: Word)
    requires n.Number?
  {
    var up, down := if n.exponent > 0 then n.exponent else 0, if n.exponent < 0 then -n.exponent else 0;
    var sign := if n.negative then Assemble.SIGN else 0;
    && Closeness.Near(y, d, n.mantissa * Decimal.Pow(10, up), Decimal.Pow(10, down), Allowance(n.exponent))
    && (ok <==> y < Rounding.Threshold(Rounding.BINARY64) * d)
    && (ok ==> bits >= sign && Rounding.Nearest(Rounding.BINARY64, y, d, bits - sign))
  }

  ghost predicate Approximated(n: Decimal.Number, ok: bool, bits: Word)
    requires n.Number?
  {
    exists y: nat, d: Positive :: ComesOf(n, y, d, ok, bits)
  }

  lemma {:induction false} Approximates(n: Decimal.Number, numerator: Word, scale: int, sticky: bool, ok: bool, bits: Word)
    requires n.Number? && numerator > 0 && scale <= TOP
    requires var up, down := if n.exponent > 0 then n.exponent else 0, if n.exponent < 0 then -n.exponent else 0;
             Closeness.Below(numerator, scale, n.mantissa * Decimal.Pow(10, up), Decimal.Pow(10, down), Allowance(n.exponent), TOP)
    requires ok <==> Rounding.Finite(Rounding.BINARY64, Assemble.Magnitude(numerator, scale, sticky))
    requires ok ==> bits == Assemble.Signed(n.negative, Assemble.Magnitude(numerator, scale, sticky))
    ensures Approximated(n, ok, bits)
  {
    hide Words.Pow2, Assemble.Magnitude, Closeness.Below, Closeness.Near, Decimal.Pow, Rounding.Nearest, Rounding.Threshold, Rounding.Finite,
      Assemble.Up, Assemble.Down, Closeness.Rounded, Closeness.Spread, Allowance;
    var up, down := if n.exponent > 0 then n.exponent else 0, if n.exponent < 0 then -n.exponent else 0;
    Closeness.Assembled(numerator, scale, sticky);
    Closeness.Final(numerator, scale, sticky, n.mantissa * Decimal.Pow(10, up), Decimal.Pow(10, down), Allowance(n.exponent), TOP);
    assert ComesOf(n, Closeness.Rounded(numerator, scale, sticky) * Assemble.Up(scale), Closeness.Spread(numerator, scale, sticky) * Assemble.Down(scale), ok, bits);
  }

  // What the conversion promises for a parsed number.
  ghost predicate Converted(n: Decimal.Number, ok: bool, bits: Word) {
    if n.Malformed? then !ok
    else if n.mantissa == 0 then ok && bits == Assemble.Signed(n.negative, 0)
    else if -27 <= n.exponent < 0 then
      && ok && n.mantissa < Words.WORD
      && (n.truncated ==> bits == Assemble.Signed(n.negative, Heard(n.mantissa, -n.exponent)))
      && (!n.truncated ==> Stands(bits, n.negative, n.mantissa, Decimal.Pow(10, -n.exponent)))
    else if !n.truncated && 0 <= n.exponent <= 19 then
      var p := n.mantissa * Decimal.Pow(10, n.exponent);
      && ok && (p > 0 ==> bits == Assemble.Signed(n.negative, Whole(p)))
      && (Stands(bits, n.negative, p, 1) <==> !TieLost(p))
      && (TieLost(p) ==> bits + 1 < Words.WORD && Stands(bits + 1, n.negative, p, 1))
    else Approximated(n, ok, bits)
  }

  // A well-formed constant of at most 19 digits is correctly rounded for exponents
  // from -27 to -1, and for exponents from 0 to 19 unless a tie is lost.  Whatever its
  // exponent, a constant is given the nearest encoding of a number that is nearly the
  // one read.
  method DecimalToDouble(text: string) returns (ok: bool, bits: Word)
    ensures Converted(Decimal.Parsed(text), ok, bits)
    ensures Decimal.Parsed(text).Number? && Decimal.Parsed(text).mantissa > 0 ==> Approximated(Decimal.Parsed(text), ok, bits)
  {
    hide Assemble.Length, Assemble.Shr, Words.Pow2, Assemble.Low, Assemble.Magnitude, DividedBy, Decimal.Parsed, Closeness.Below,
      Approximated, Converted, Rounding.Finite, Decimal.Pow;
    var n := Decimal.Scanned(text);
    if n.Malformed? { Rejected(n); return false, 0; }
    if n.mantissa == 0 {
      bits := if n.negative then Assemble.SIGN else 0;
      Zero(n, bits);
      return true, bits;
    }
    var value, scale, sticky := Wide.Wide(0, n.mantissa), 0, n.truncated;
    value, scale, sticky := ApplyPositive(value, scale, if n.exponent > 0 then n.exponent else 0, sticky);
    ghost var middle := value;
    value, scale, sticky := ApplyNegative(value, scale, if n.exponent < 0 then -n.exponent else 0, sticky);
    ghost var divided, dividedScale, dividedSticky := value, scale, sticky;
    ghost var up, down := if n.exponent > 0 then n.exponent else 0, if n.exponent < 0 then -n.exponent else 0;
    Decimal.NoDigits();
    value, scale, sticky := Wide.Normalize(value, scale, sticky);
    NormalizedBelow(divided, dividedScale, value, scale, n.mantissa * Decimal.Pow(10, up), Decimal.Pow(10, down), Allowance(n.exponent) - 1);
    ok, bits := Assemble.AssembleDouble(value.low, scale, sticky, n.negative);
    Approximates(n, value.low, scale, sticky, ok, bits);
    if n.exponent < -27 || (n.truncated && n.exponent >= 0) || n.exponent > 19 {
      Beyond(n, ok, bits);
    } else if n.exponent < 0 {
      Fraction(n, divided, dividedScale, dividedSticky);
      Below(n, value.low, scale, sticky, ok, bits);
    } else {
      Power(n, middle);
      Integral(n, divided, sticky);
      Above(n, value.low, scale, sticky, ok, bits);
    }
  }

  lemma {:induction false} Rejected(n: Decimal.Number)
    requires n.Malformed?
    ensures Converted(n, false, 0)
  {
  }

  lemma {:induction false} Zero(n: Decimal.Number, bits: Word)
    requires n.Number? && n.mantissa == 0 && bits == if n.negative then Assemble.SIGN else 0
    ensures Converted(n, true, bits)
  {
    hide Heard, Approximated;
  }

  lemma {:induction false} Beyond(n: Decimal.Number, ok: bool, bits: Word)
    requires n.Number? && 0 < n.mantissa < Words.WORD && (n.exponent < -27 || (n.truncated && n.exponent >= 0) || n.exponent > 19)
    requires Approximated(n, ok, bits)
    ensures Converted(n, ok, bits)
  {
    hide Heard, Approximated;
  }

  lemma {:induction false} Power(n: Decimal.Number, value: Wide.Wide)
    requires n.Number? && 0 < n.mantissa < 10000000000000000000 && 0 <= n.exponent <= 19
    requires value.Value() == n.mantissa * Decimal.Pow(10, n.exponent)
    ensures 0 < value.Value() < Words.Pow2(127)
  {
    hide Words.Pow2, Decimal.Pow;
    Decimal.TensTable(n.exponent);
    ProductFits(n.mantissa, n.exponent);
    Rounding.Multiples(Decimal.Pow(10, n.exponent), 1, n.mantissa);
  }

  lemma {:induction false} Integral(n: Decimal.Number, value: Wide.Wide, sticky: bool)
    requires 0 < value.Value() < Words.Pow2(127)
    requires value.high > 0 ==>
               0 < Assemble.Length(value.high) <= 64 && sticky == Wide.Heard(value, Assemble.Length(value.high))
    requires value.high == 0 ==> !sticky
    ensures var p := value.Value();
            && Excess(p) == (if value.high == 0 then 0 else Assemble.Length(value.high))
            && (value.high == 0 ==> Assemble.Shr(p, 0) == value.low)
            && sticky == (Excess(p) > 0 && Assemble.Low(p, Excess(p) - 1) != 0)
  {
    hide Words.Pow2, Assemble.Length;
    Words.ModUnique(value.Value(), value.high, value.low, Words.WORD);
    Rounding.PowersTwice(0);
    if value.high > 0 {
      KeptWord(value.Value());
      Wide.LowWordBits(value, Excess(value.Value()) - 1);
    }
  }

  lemma {:induction false} Above(n: Decimal.Number, numerator: Word, scale: int, sticky: bool, ok: bool, bits: Word)
    requires n.Number? && 0 < n.mantissa && !n.truncated && 0 <= n.exponent <= 19
    requires var p := n.mantissa * Decimal.Pow(10, n.exponent);
             && 0 < p < Words.Pow2(127)
             && numerator == Assemble.Shr(p, Excess(p)) && scale == -(Excess(p) as int)
             && sticky == (Excess(p) > 0 && Assemble.Low(p, Excess(p) - 1) != 0)
    requires numerator > 0 ==> (ok <==> Rounding.Finite(Rounding.BINARY64, Assemble.Magnitude(numerator, scale, sticky)))
    requires numerator > 0 && ok ==> bits == Assemble.Signed(n.negative, Assemble.Magnitude(numerator, scale, sticky))
    ensures Converted(n, ok, bits)
  {
    hide Words.Pow2, Assemble.Magnitude, Assemble.Shr, Assemble.Low, Excess, TieLost, Decimal.Pow, LeastSubnormals, Rounding.NotNearer, Heard, Approximated;
    var p: nat := n.mantissa * Decimal.Pow(10, n.exponent);
    NothingDropped(p);
    WholeRounds(p);
    FiniteMagnitude(Whole(p));
  }

  lemma {:induction false} FiniteMagnitude(e: nat)
    ensures Rounding.Finite(Rounding.BINARY64, e + 1) ==> Rounding.Finite(Rounding.BINARY64, e)
    ensures Rounding.Finite(Rounding.BINARY64, e) ==> e < Assemble.SIGN
  {
  }

  lemma {:induction false} Fraction(n: Decimal.Number, value: Wide.Wide, scale: int, sticky: bool)
    requires n.Number? && 0 < n.mantissa < Words.WORD && -27 <= n.exponent < 0
    requires DividedBy(n.mantissa, -n.exponent, value, scale, n.truncated, sticky)
    ensures value.high == 0 && value.low > 0
    ensures (if n.truncated then Heard(n.mantissa, -n.exponent) else Divided(n.mantissa, -n.exponent))
         == Assemble.Magnitude(value.low, scale, sticky)
  {
    hide Words.Pow2, Assemble.Length, Assemble.Magnitude;
    QuotientFills(n.mantissa, Decimal.POWER_OF_FIVE[-n.exponent]);
  }

  lemma {:induction false} Below(n: Decimal.Number, numerator: Word, scale: int, sticky: bool, ok: bool, bits: Word)
    requires n.Number? && 0 < n.mantissa < Words.WORD && -27 <= n.exponent < 0
    requires numerator > 0
    requires (if n.truncated then Heard(n.mantissa, -n.exponent) else Divided(n.mantissa, -n.exponent))
          == Assemble.Magnitude(numerator, scale, sticky)
    requires ok <==> Rounding.Finite(Rounding.BINARY64, Assemble.Magnitude(numerator, scale, sticky))
    requires ok ==> bits == Assemble.Signed(n.negative, Assemble.Magnitude(numerator, scale, sticky))
    ensures Converted(n, ok, bits)
  {
    hide Words.Pow2, Assemble.Magnitude, Divided, Heard, Approximated, Decimal.Pow, LeastSubnormals, Rounding.NotNearer;
    FractionRounds(n.mantissa, -n.exponent);
    HeardFinite(n.mantissa, -n.exponent);
  }

  // A constant whose tie is lost: 972309 * 10^19 lies past the middle of two
  // encodings, and the even one below is given.
  lemma {:induction false} LostTie()
    ensures TieLost(972309 * Decimal.Pow(10, 19)) && Whole(972309 * Decimal.Pow(10, 19)) == 0x4520_15e3_87b6_6aae
  {
    hide Words.Pow2, Assemble.Length, Decimal.Pow;
    Decimal.TensTable(19);
    var p := 9723090000000000000000000;
    Bits20();
    Assemble.LengthIs(p / Words.WORD, 20);
    assert Excess(p) == 20 && p / 0x10_0000 == 9272661209106445312 && p % 0x10_0000 == 0x8_0000 && p % 0x8_0000 == 0;
    KeptWord(p);
    LostBits(9272661209106445312);
  }

  lemma Bits20()
    ensures Words.Pow2(19) == 0x8_0000 && Words.Pow2(20) == 0x10_0000
  {
    assert Words.Pow2(10) == 1024;
    Words.Pow2Add(9, 10);
    Words.Pow2Add(10, 10);
  }

  lemma {:induction false} LostBits(numerator: nat)
    requires numerator == 9272661209106445312 && Assemble.Length(numerator) == 64
    ensures Assemble.Magnitude(numerator, -20, false) == 0x4520_15e3_87b6_6aae
  {
    hide Assemble.Length, Words.Pow2;
    Bits11();
    assert numerator / 2048 == 4527666606009006 && numerator % 2048 == 1024;
  }
}
