// Rounding to a binary interchange format (section 4.3.1 of IEEE 754-2019).
// A magnitude is measured in units of the least subnormal, so every finite
// encoding stands for a natural number of units, and an exact value is a
// quotient x / q of naturals.
module Rounding {
  import Words

  type Positive = n: nat | n > 0 witness 1

  // The fraction field counts to hidden, which is also the weight of the hidden
  // bit; top is the exponent field of infinities and NaNs.
  datatype Format = Format(hidden: Positive, top: nat)

  const BINARY64 := Format(0x10_0000_0000_0000, 2047)
  const BINARY32 := Format(0x80_0000, 255)

  predicate Usable(f: Format) { f.hidden % 2 == 0 && f.top >= 3 }

  function Field(f: Format, e: nat): nat { e / f.hidden }

  predicate Finite(f: Format, e: nat) { Field(f, e) < f.top }

  // How many least subnormals the encoding e (without its sign) stands for.
  function Units(f: Format, e: nat): nat { FieldUnits(f, Field(f, e), e % f.hidden) }

  function FieldUnits(f: Format, field: nat, low: nat): nat {
    if field == 0 then low else (f.hidden + low) * Words.Pow2(field - 1)
  }

  function Dist(a: int, b: int): nat { if a < b then b - a else a - b }

  // No finite encoding is nearer to x / q than e, and one as near means that e is
  // the even one.
  ghost predicate Nearest(f: Format, x: nat, q: nat, e: nat) {
    && Finite(f, e)
    && forall d: nat :: Finite(f, d) ==> NotNearer(f, x, q, e, d)
  }

  ghost predicate NotNearer(f: Format, x: nat, q: nat, e: nat, d: nat) {
    && Dist(x, Units(f, e) * q) <= Dist(x, Units(f, d) * q)
    && (d != e && Dist(x, Units(f, e) * q) == Dist(x, Units(f, d) * q) ==> e % 2 == 0)
  }

  // The quantum of 2^k units belongs to the binade of x / q; a is that quantum
  // over q.
  predicate InBinade(f: Format, x: nat, a: nat, k: nat) {
    x < 2 * (f.hidden * a) && (k == 0 || x >= f.hidden * a)
  }

  predicate RoundedTo(x: nat, a: nat, sig: nat) {
    2 * Dist(x, sig * a) <= a && (2 * Dist(x, sig * a) == a ==> sig % 2 == 0)
  }

  predicate SignificandFits(f: Format, k: nat, sig: nat) {
    sig <= 2 * f.hidden && (k == 0 || sig >= f.hidden)
  }

  // A significand that carries into the next binade needs no special case.
  function Encode(f: Format, k: nat, sig: nat): nat { k * f.hidden + sig }

  lemma {:induction false} Multiples(a: nat, m: nat, n: nat)
    requires m <= n
    ensures m * a <= n * a && a * m <= a * n
    ensures m < n ==> m * a + a <= n * a && a * m + a <= a * n
  {
    var d := n - m;
    assert (m + d) * a == m * a + d * a;
    if d > 0 { assert (1 + (d - 1)) * a == a + (d - 1) * a; }
  }

  lemma {:induction false} EvenMultiple(k: nat, h: nat)
    requires h % 2 == 0
    ensures k * h % 2 == 0
  {
    assert k * h == 2 * (k * (h / 2));
  }

  lemma {:induction false} SignificandRange(f: Format, x: nat, a: Positive, k: nat, sig: nat)
    requires InBinade(f, x, a, k) && RoundedTo(x, a, sig)
    ensures SignificandFits(f, k, sig)
  {
    assert 2 * f.hidden * a == 2 * (f.hidden * a);
    if sig > 2 * f.hidden {
      Multiples(a, 2 * f.hidden, sig);
    }
    if sig < f.hidden {
      Multiples(a, sig, f.hidden);
    }
  }

  lemma {:induction false} Split(f: Format, e: nat, field: nat, low: nat)
    requires e == f.hidden * field + low && low < f.hidden
    ensures Field(f, e) == field && Units(f, e) == FieldUnits(f, field, low)
  {
    Words.ModUnique(e, field, low, f.hidden);
  }

  lemma {:induction false} EncodedUnits(f: Format, k: nat, sig: nat)
    requires Usable(f) && SignificandFits(f, k, sig)
    ensures Units(f, Encode(f, k, sig)) == sig * Words.Pow2(k)
    ensures Encode(f, k, sig) % 2 == sig % 2
  {
    hide Units;
    UnitsOfEncoded(f, k, sig);
    ParityOfEncoded(f, k, sig);
  }

  lemma {:induction false} ParityOfEncoded(f: Format, k: nat, sig: nat)
    requires Usable(f)
    ensures Encode(f, k, sig) % 2 == sig % 2
  {
    EvenMultiple(k, f.hidden);
    var even := k * f.hidden / 2;
    assert Encode(f, k, sig) == 2 * even + sig;
  }

  lemma {:induction false} UnitsOfEncoded(f: Format, k: nat, sig: nat)
    requires SignificandFits(f, k, sig)
    ensures Units(f, Encode(f, k, sig)) == sig * Words.Pow2(k)
  {
    hide Units, Field, Words.Pow2;
    var h, e := f.hidden, Encode(f, k, sig);
    if sig < h {
      Split(f, e, 0, sig);
      assert Words.Pow2(0) == 1 by { PowersTwice(0); }
    } else if sig < 2 * h {
      assert h * (k + 1) == k * h + h;
      Split(f, e, k + 1, sig - h);
    } else {
      assert h * (k + 2) == k * h + 2 * h;
      Split(f, e, k + 2, 0);
      PowersTwice(k);
      assert h * (2 * Words.Pow2(k)) == 2 * h * Words.Pow2(k);
    }
  }

  // An encoding is a multiple of the quantum or lies below the binade.
  lemma {:induction false} MultipleOrBelow(f: Format, d: nat, k: nat) returns (m: nat)
    ensures Units(f, d) == m * Words.Pow2(k) || (k > 0 && Units(f, d) < f.hidden * Words.Pow2(k))
  {
    hide Field;
    var h, low, field := f.hidden, d % f.hidden, Field(f, d);
    m := 0;
    if k == 0 {
      m := Units(f, d);
    } else if field == 0 {
      Multiples(h, 1, Words.Pow2(k));
    } else if field - 1 >= k {
      m := (h + low) * Words.Pow2(field - 1 - k);
      MultipleAbove(h + low, field - 1, k);
    } else {
      BelowBinade(h + low, h, field - 1, k);
    }
  }

  lemma {:induction false} MultipleAbove(s: nat, j: nat, k: nat)
    requires k <= j
    ensures s * Words.Pow2(j) == s * Words.Pow2(j - k) * Words.Pow2(k)
  {
    hide Words.Pow2;
    Words.Pow2Add(j - k, k);
    Associated(s, Words.Pow2(j - k), Words.Pow2(k));
  }

  lemma {:induction false} Associated(a: int, b: int, c: int)
    ensures a * (b * c) == a * b * c
  {
  }

  lemma {:induction false} BelowBinade(s: nat, h: nat, j: nat, k: nat)
    requires s < 2 * h && j < k
    ensures s * Words.Pow2(j) < h * Words.Pow2(k)
  {
    hide Words.Pow2;
    Words.PowersGrow(j, k);
    Multiples(Words.Pow2(j), s, 2 * h);
    Multiples(h, 2 * Words.Pow2(j), Words.Pow2(k));
    assert 2 * h * Words.Pow2(j) == h * (2 * Words.Pow2(j));
  }

  // Rounding to the nearest multiple is nearest among the multiples.
  lemma {:induction false} NearestMultiple(x: nat, a: Positive, sig: nat, m: nat)
    requires RoundedTo(x, a, sig)
    ensures Dist(x, sig * a) <= Dist(x, m * a)
    ensures m != sig && Dist(x, sig * a) == Dist(x, m * a) ==> sig % 2 == 0
  {
    if m < sig { Multiples(a, m, sig); } else if m > sig { Multiples(a, sig, m); }
  }

  // Rounding to the quantum of the value's own binade is rounding to nearest, ties
  // to even, among all encodings of the format.
  lemma {:induction false} RoundedIsNearest(f: Format, x: nat, q: Positive, k: nat, sig: nat)
    requires Usable(f)
    requires InBinade(f, x, Words.Pow2(k) * q, k) && RoundedTo(x, Words.Pow2(k) * q, sig)
    requires Finite(f, Encode(f, k, sig))
    ensures Nearest(f, x, q, Encode(f, k, sig))
  {
    hide Finite, NotNearer, InBinade, RoundedTo, Encode, Words.Pow2;
    forall d: nat | Finite(f, d) ensures NotNearer(f, x, q, Encode(f, k, sig), d) {
      Compare(f, x, q, k, sig, d);
    }
  }

  lemma {:induction false} Compare(f: Format, x: nat, q: Positive, k: nat, sig: nat, d: nat)
    requires Usable(f)
    requires InBinade(f, x, Words.Pow2(k) * q, k) && RoundedTo(x, Words.Pow2(k) * q, sig)
    ensures NotNearer(f, x, q, Encode(f, k, sig), d)
  {
    hide Units, Encode, RoundedTo, Words.Pow2;
    var p, h := Words.Pow2(k), f.hidden;
    var a := p * q;
    Multiples(q, 1, p);
    SignificandRange(f, x, a, k, sig);
    EncodedUnits(f, k, sig);
    Associated(sig, p, q);
    var m := MultipleOrBelow(f, d, k);
    if Units(f, d) == m * p {
      Associated(m, p, q);
      NearestMultiple(x, a, sig, m);
      if m == sig { OneEncoding(f, d, Encode(f, k, sig)); }
    } else {
      Multiples(q, Units(f, d), h * p);
      Associated(h, p, q);
      NearestMultiple(x, a, sig, h);
    }
  }

  // Distinct encodings stand for distinct magnitudes, in the same order.
  lemma {:induction false} OneEncoding(f: Format, d: nat, e: nat)
    requires Units(f, d) == Units(f, e)
    ensures d == e
  {
    hide Units;
    if d < e { Increasing(f, d, e); } else if e < d { Increasing(f, e, d); }
  }

  lemma {:induction false} Increasing(f: Format, d: nat, e: nat)
    requires d < e
    ensures Units(f, d) < Units(f, e)
  {
    hide FieldUnits;
    var h := f.hidden;
    var p, i, q, j := Field(f, d), d % h, Field(f, e), e % h;
    assert d == h * p + i && e == h * q + j;
    if p > q { Multiples(h, q, p); }
    FieldsIncrease(f, p, i, q, j);
  }

  lemma {:induction false} FieldsIncrease(f: Format, p: nat, i: nat, q: nat, j: nat)
    requires p < q || (p == q && i < j)
    requires i < f.hidden && j < f.hidden
    ensures FieldUnits(f, p, i) < FieldUnits(f, q, j)
  {
    var h := f.hidden;
    if p == q {
      if p > 0 { Multiples(Words.Pow2(p - 1), h + i, h + j); }
    } else {
      Multiples(Words.Pow2(q - 1), h, h + j);
      if p == 0 {
        Multiples(h, 1, Words.Pow2(q - 1));
      } else {
        BelowBinade(h + i, h, p - 1, q - 1);
      }
    }
  }

  // One quotient has one nearest encoding of two neighbours.
  lemma {:induction false} OneNearest(f: Format, x: nat, q: nat, e: nat)
    requires Nearest(f, x, q, e + 1)
    ensures !Nearest(f, x, q, e)
  {
    hide Units, Finite;
    NotBoth(f, x, q, e);
  }

  lemma {:induction false} NotBoth(f: Format, x: nat, q: nat, e: nat)
    ensures NotNearer(f, x, q, e, e + 1) ==> !NotNearer(f, x, q, e + 1, e)
  {
    hide Units;
  }

  // The magnitude from which rounding to nearest gives infinity: half a quantum
  // past the largest finite value.
  function Threshold(f: Format): nat
    requires Usable(f)
  {
    (4 * f.hidden - 1) * Words.Pow2(f.top - 3)
  }

  lemma {:induction false} FiniteBelowThreshold(f: Format, x: nat, q: Positive, k: nat, sig: nat)
    requires Usable(f)
    requires InBinade(f, x, Words.Pow2(k) * q, k) && RoundedTo(x, Words.Pow2(k) * q, sig)
    ensures Finite(f, Encode(f, k, sig)) <==> x < Threshold(f) * q
  {
    hide RoundedTo, Words.Pow2, InBinade, Threshold, Finite, Encode;
    var h, p, half, top := f.hidden, Words.Pow2(k), Words.Pow2(f.top - 3), f.top;
    var a, t := p * q, half * q;
    Multiples(q, 1, p);
    SignificandRange(f, x, a, k, sig);
    Restated(f, q, k, sig);
    Bounds(f, x, a, k);
    if k < top - 2 {
      Words.PowersGrow(k, top - 3);
      Multiples(q, p, half);
      SmallQuantum(x, a, t, h, k, sig, top);
    } else if k > top - 2 {
      Words.PowersGrow(top - 2, k);
      PowersTwice(top - 3);
      Multiples(q, 4 * half, p);
      Associated(4, half, q);
      LargeQuantum(x, a, t, h, k, sig, top);
    } else {
      PowersTwice(top - 3);
      Associated(2, half, q);
      Multiples(q, 1, half);
      EqualQuantum(x, t, h, k, sig, top);
    }
  }

  lemma {:induction false} Restated(f: Format, q: Positive, k: nat, sig: nat)
    requires Usable(f)
    ensures Threshold(f) * q == (4 * f.hidden - 1) * (Words.Pow2(f.top - 3) * q)
    ensures Finite(f, Encode(f, k, sig)) <==> k * f.hidden + sig < f.top * f.hidden
  {
    hide Words.Pow2;
    Associated(4 * f.hidden - 1, Words.Pow2(f.top - 3), q);
    FieldBelow(Encode(f, k, sig), f.top, f.hidden);
  }

  lemma {:induction false} EqualQuantum(x: nat, t: nat, h: nat, k: nat, sig: nat, top: nat)
    requires t > 0 && h > 0 && RoundedTo(x, 2 * t, sig) && sig <= 2 * h && k + 2 == top
    ensures k * h + sig < top * h <==> x < (4 * h - 1) * t
  {
    hide RoundedTo;
    OddNeighbour(x, t, h, sig);
    assert (k + 2) * h == k * h + 2 * h;
  }

  lemma {:induction false} PowersTwice(k: nat)
    ensures Words.Pow2(k + 1) == 2 * Words.Pow2(k) && Words.Pow2(0) == 1
  {
  }

  lemma {:induction false} Bounds(f: Format, x: nat, a: nat, k: nat)
    requires InBinade(f, x, a, k)
    ensures x < 2 * (f.hidden * a) && (k == 0 || x >= f.hidden * a)
  {
  }

  lemma {:induction false} SmallQuantum(x: nat, a: nat, t: nat, h: nat, k: nat, sig: nat, top: nat)
    requires x < 2 * (h * a) && a <= t && sig <= 2 * h && k + 2 < top && h > 0
    ensures k * h + sig < top * h && x < (4 * h - 1) * t
  {
    Multiples(h, a, t);
    assert 2 * (h * t) == 2 * h * t;
    Multiples(t, 2 * h, 4 * h - 1);
    Multiples(h, k + 2, top);
    assert (k + 2) * h == k * h + 2 * h;
  }

  lemma {:induction false} LargeQuantum(x: nat, a: nat, t: nat, h: nat, k: nat, sig: nat, top: nat)
    requires x >= h * a && a >= 4 * t && sig >= h > 0 && k >= top - 1
    ensures k * h + sig >= top * h && x >= (4 * h - 1) * t
  {
    Multiples(h, 4 * t, a);
    assert h * (4 * t) == 4 * h * t;
    Multiples(t, 4 * h - 1, 4 * h);
    if k < top { assert k * h + h == top * h; } else { Multiples(h, top, k); }
  }

  lemma {:induction false} OddNeighbour(x: nat, t: nat, h: nat, sig: nat)
    requires t > 0 && h > 0 && RoundedTo(x, 2 * t, sig) && sig <= 2 * h
    ensures sig < 2 * h <==> x < (4 * h - 1) * t
  {
    var a := 2 * t;
    assert (4 * h - 1) * t == 2 * h * a - t by { assert 4 * h * t == 2 * h * (2 * t); }
    if sig < 2 * h {
      Multiples(a, sig, 2 * h - 1);
      assert (2 * h - 1) * a == 2 * h * a - a;
    }
  }

  lemma {:induction false} FieldBelow(e: nat, top: nat, h: Positive)
    ensures e / h < top <==> e < top * h
  {
    var q, r := e / h, e % h;
    assert e == h * q + r;
    if q < top { Multiples(h, q, top); } else { Multiples(h, top, q); }
  }
}
