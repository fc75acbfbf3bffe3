// How far the steps of a decimal conversion take a number from the exact one.
module Closeness {
  import Words
  import Rounding
  import Assemble
  import Decimal

  type Positive = Rounding.Positive

  const PARTS: nat := 0x4000_0000_0000_0000

  // w is at most t, and short of it by no more than n parts in 2^62.
  ghost predicate Short(w: nat, t: nat, n: nat) { w <= t && t * (PARTS - n) <= w * PARTS }

  lemma {:induction false} Exact(t: nat)
    ensures Short(t, t, 0)
  {
  }

  lemma {:induction false} ShortAgain(v: nat, w: nat, t: nat, n: nat)
    requires Short(v, w, 1) && Short(w, t, n)
    ensures Short(v, t, n + 1)
  {
    if n + 1 < PARTS {
      assert t * (PARTS - n) * (PARTS - 1) <= v * PARTS * PARTS by {
        Rounding.Multiples(PARTS - 1, t * (PARTS - n), w * PARTS);
        assert w * PARTS * (PARTS - 1) == w * (PARTS - 1) * PARTS;
        Rounding.Multiples(PARTS, w * (PARTS - 1), v * PARTS);
      }
      assert (PARTS - n) * (PARTS - 1) == (PARTS - n - 1) * PARTS + n;
      Grouped(t, n);
      Cancelled(t * (PARTS - n - 1), v * PARTS, PARTS);
    } else {
      NotAbove(t, PARTS - n - 1);
    }
  }

  lemma {:induction false} NotAbove(t: nat, c: int)
    requires c <= 0
    ensures t * c <= 0
  {
  }

  lemma {:induction false} Grouped(t: nat, n: nat)
    requires n < PARTS
    ensures t * (PARTS - n) * (PARTS - 1) == t * (PARTS - n - 1) * PARTS + t * n
  {
    Rounding.Associated(t, PARTS - n, PARTS - 1);
    assert (PARTS - n) * (PARTS - 1) == (PARTS - n - 1) * PARTS + n;
    assert t * ((PARTS - n - 1) * PARTS + n) == t * ((PARTS - n - 1) * PARTS) + t * n;
    Rounding.Associated(t, PARTS - n - 1, PARTS);
  }

  lemma {:induction false} Cancelled(a: int, b: int, c: Positive)
    requires a * c <= b * c
    ensures a <= b
  {
    if a > b { assert a * c == b * c + (a - b) * c; Rounding.Multiples(c, 1, a - b); }
  }

  lemma {:induction false} ShortScaled(w: nat, t: nat, n: nat, c: nat)
    requires Short(w, t, n)
    ensures Short(w * c, t * c, n)
  {
    Rounding.Multiples(c, w, t);
    assert t * c * (PARTS - n) == t * (PARTS - n) * c && w * c * PARTS == w * PARTS * c;
    if t * (PARTS - n) >= 0 { Rounding.Multiples(c, t * (PARTS - n), w * PARTS); } else { NotAbove(c, t * (PARTS - n)); }
  }

  lemma {:induction false} ShortMore(w: nat, t: nat, n: nat, m: nat)
    requires Short(w, t, n) && n <= m
    ensures Short(w, t, m)
  {
    assert t * (PARTS - n) == t * (PARTS - m) + t * (m - n);
  }

  // A quotient of 62 bits or more loses no more than one part.
  lemma {:induction false} CutOff(v: nat, d: Positive)
    requires v / d >= PARTS
    ensures Short(v / d * d, v, 1)
  {
    var q := v / d;
    assert v == q * d + v % d;
    Rounding.Multiples(d, PARTS, q);
    assert v * (PARTS - 1) == v * PARTS - v && (q * d + v % d) * PARTS == q * d * PARTS + v % d * PARTS;
    Rounding.Multiples(PARTS, v % d, d);
  }

  // num * 2^-scale is short of x / q by no more than n parts.  Everything is multiplied
  // by 2^top, for a top that no scale exceeds.
  ghost predicate Below(num: nat, scale: int, x: nat, q: nat, n: nat, top: nat)
    requires scale <= top
  {
    Short(num * Words.Pow2(top - scale) * q, x * Words.Pow2(top), n)
  }

  lemma {:induction false} Start(x: nat, top: nat)
    ensures Below(x, 0, x, 1, 0, top)
  {
    hide Words.Pow2;
    Exact(x * Words.Pow2(top));
  }

  lemma {:induction false} BelowMore(num: nat, scale: int, x: nat, q: nat, n: nat, m: nat, top: nat)
    requires scale <= top && Below(num, scale, x, q, n, top) && n <= m
    ensures Below(num, scale, x, q, m, top)
  {
    hide Words.Pow2, Short;
    ShortMore(num * Words.Pow2(top - scale) * q, x * Words.Pow2(top), n, m);
  }

  lemma {:induction false} Multiplied(num: nat, scale: int, x: nat, n: nat, top: nat, t: nat)
    requires scale <= top && Below(num, scale, x, 1, n, top)
    ensures Below(num * t, scale, x * t, 1, n, top)
  {
    hide Words.Pow2, Short;
    var p, k := Words.Pow2(top - scale), Words.Pow2(top);
    ShortScaled(num * p, x * k, n, t);
    assert num * p * t == num * t * p && x * k * t == x * t * k;
  }

  // Bringing a number of more than one word back to one.
  lemma {:induction false} Normalized(num: nat, scale: int, x: nat, q: nat, n: nat, top: nat, amount: nat)
    requires scale <= top && Below(num, scale, x, q, n, top) && Assemble.Shr(num, amount) >= PARTS
    ensures Below(Assemble.Shr(num, amount), scale - amount, x, q, n + 1, top)
  {
    hide Words.Pow2, Short;
    var kept, p, u := Assemble.Shr(num, amount), Words.Pow2(top - scale), Words.Pow2(amount);
    CutOff(num, u);
    ShortScaled(kept * u, num, 1, p * q);
    Words.Pow2Add(amount, top - scale);
    Rounding.Associated(kept, u, p);
    Rounding.Associated(kept * u, p, q);
    Rounding.Associated(num, p, q);
    ShortAgain(kept * u * p * q, num * p * q, x * Words.Pow2(top), n);
  }

  // Dividing by 10^j: by 5^j after widening, the rest left to the scale.
  lemma {:induction false} Divided(num: nat, scale: int, x: nat, q: nat, n: nat, top: nat, widen: nat, j: nat)
    requires scale + widen + j <= top && Below(num, scale, x, q, n, top)
    requires num * Words.Pow2(widen) / Decimal.Pow(5, j) >= PARTS
    ensures Below(num * Words.Pow2(widen) / Decimal.Pow(5, j), scale + widen + j, x, q * Decimal.Pow(10, j), n + 1, top)
  {
    hide Words.Pow2, Short, Decimal.Pow;
    var f, v := Decimal.Pow(5, j), num * Words.Pow2(widen);
    var m, p, two := v / f, Words.Pow2(top - scale - widen - j), Words.Pow2(j);
    CutOff(v, f);
    ShortScaled(m * f, v, 1, two * p * q);
    Decimal.TenIsTwoFives(j);
    Words.Pow2Add(j, top - scale - widen - j);
    Words.Pow2Add(widen, top - scale - widen);
    assert v * (two * p * q) == num * Words.Pow2(top - scale) * q by {
      Rounding.Associated(v, two * p, q);
      Rounding.Associated(num, Words.Pow2(widen), two * p);
    }
    assert m * f * (two * p * q) == m * p * (q * (f * two)) by { Rearranged(m, f, two, p, q); }
    ShortAgain(m * p * (q * (f * two)), v * (two * p * q), x * Words.Pow2(top), n);
  }

  lemma {:induction false} Rearranged(m: nat, f: nat, two: nat, p: nat, q: nat)
    ensures m * f * (two * p * q) == m * p * (q * (f * two))
  {
    assert m * f * (two * p * q) == m * (f * (two * p * q));
    assert f * (two * p * q) == p * (q * (f * two));
    assert m * (p * (q * (f * two))) == m * p * (q * (f * two));
  }

  // y / d, in least subnormals, is short of x / q by no more than n parts in 2^62, and
  // above it by no more than one.
  ghost predicate Near(y: nat, d: nat, x: nat, q: nat, n: nat) {
    var s, t := y * q, x * Words.Pow2(1074) * d;
    t * (PARTS - n) <= s * PARTS && s * PARTS <= t * (PARTS + 1)
  }

  // What is rounded is the number in hand, or one just above it when the sticky flag is
  // set and heard.
  function Spread(numerator: nat, scale: int, sticky: bool): Positive {
    if sticky && Assemble.Dropped(Assemble.Length(numerator), scale) > 0 then Words.WORD else 1
  }

  function Rounded(numerator: nat, scale: int, sticky: bool): nat {
    numerator * Spread(numerator, scale, sticky) + if Spread(numerator, scale, sticky) > 1 then 1 else 0
  }

  lemma {:induction false} Assembled(numerator: Positive, scale: int, sticky: bool)
    ensures var y, d := Rounded(numerator, scale, sticky) * Assemble.Up(scale), Spread(numerator, scale, sticky) * Assemble.Down(scale);
            var e := Assemble.Magnitude(numerator, scale, sticky);
            && d > 0
            && (Rounding.Finite(Rounding.BINARY64, e) <==> y < Rounding.Threshold(Rounding.BINARY64) * d)
            && (Rounding.Finite(Rounding.BINARY64, e) ==> Rounding.Nearest(Rounding.BINARY64, y, d, e))
  {
    hide Words.Pow2, Assemble.Length, Assemble.Up, Assemble.Down, Rounding.Nearest, Rounding.Finite, Rounding.Threshold;
    var spread := Spread(numerator, scale, sticky);
    Words.ModUnique(Rounded(numerator, scale, sticky), numerator, if spread > 1 then 1 else 0, spread);
    Rounding.Multiples(Assemble.Down(scale), 1, spread);
    Assemble.AssembledNearest(Rounded(numerator, scale, sticky), spread, scale);
  }

  lemma {:induction false} UpAndDown(scale: int, top: nat)
    requires scale <= top
    ensures Assemble.Up(scale) * Words.Pow2(top) == Words.Pow2(1074) * Words.Pow2(top - scale) * Assemble.Down(scale)
  {
    hide Words.Pow2;
    if scale < 1074 {
      Words.Pow2Add(1074 - scale, top);
      Words.Pow2Add(1074, top - scale);
    } else {
      Words.Pow2Add(1074, top - scale);
      Words.Pow2Add(1074 + top - scale, scale - 1074);
      Rounding.PowersTwice(0);
    }
  }

  lemma {:induction false} SpreadClose(w: nat, t: nat, n: nat, spread: Positive, extra: nat)
    requires Short(w, t, n) && extra <= w && (extra > 0 ==> spread >= PARTS)
    ensures t * spread * (PARTS - n) <= (w * spread + extra) * PARTS
    ensures (w * spread + extra) * PARTS <= t * spread * (PARTS + 1)
  {
    ShortScaled(w, t, n, spread);
    Rounding.Multiples(PARTS + 1, w * spread, t * spread);
    if extra > 0 {
      Rounding.Multiples(PARTS, extra, w);
      Rounding.Multiples(w, PARTS, spread);
    }
  }

  lemma {:induction false} Final(numerator: Positive, scale: int, sticky: bool, x: nat, q: Positive, n: nat, top: nat)
    requires scale <= top && Below(numerator, scale, x, q, n, top)
    ensures Near(Rounded(numerator, scale, sticky) * Assemble.Up(scale), Spread(numerator, scale, sticky) * Assemble.Down(scale), x, q, n)
  {
    hide Words.Pow2, Short, Near, Assemble.Up, Assemble.Down, Assemble.Length, Assemble.Dropped, Rounded, Spread;
    var y, spread, p, v := Rounded(numerator, scale, sticky), Spread(numerator, scale, sticky), Words.Pow2(top - scale), Assemble.Down(scale);
    var more := if spread > 1 then 1 else 0;
    var w, t := numerator * p * q, x * Words.Pow2(top);
    RoundedIs(numerator, scale, sticky);
    Rounding.Multiples(p, 1, numerator);
    Rounding.Multiples(q, p, numerator * p);
    SpreadClose(w, t, n, spread, if spread > 1 then p * q else 0);
    UpAndDown(scale, top);
    Spreads(numerator, p, q, spread, more);
    CommonFactor(y, Assemble.Up(scale), q, Words.Pow2(top), Words.Pow2(1074), p, v, x, spread);
    Rounding.Multiples(v, 1, Words.Pow2(1074));
    NearFrom(y * Assemble.Up(scale), spread * v, x, q, y * p * q, t * spread, Words.Pow2(top), Words.Pow2(1074) * v, n);
  }

  lemma {:induction false} RoundedIs(numerator: nat, scale: int, sticky: bool)
    ensures var spread := Spread(numerator, scale, sticky);
            Rounded(numerator, scale, sticky) == numerator * spread + (if spread > 1 then 1 else 0) && (spread > 1 ==> spread >= PARTS)
  {
  }

  lemma {:induction false} Spreads(numerator: nat, p: nat, q: nat, spread: nat, more: nat)
    ensures (numerator * spread + more) * p * q == numerator * p * q * spread + p * q * more
  {
    Rounding.Associated(numerator * spread + more, p, q);
    Rounding.Associated(numerator, p, q);
    var c := p * q;
    assert (numerator * spread + more) * c == numerator * spread * c + more * c;
    assert numerator * spread * c == numerator * c * spread;
  }

  lemma {:induction false} CommonFactor(y: nat, up: nat, q: nat, k: nat, c: nat, p: nat, v: nat, x: nat, spread: nat)
    requires up * k == c * p * v
    ensures y * up * q * k == y * p * q * (c * v)
    ensures x * c * (spread * v) * k == x * k * spread * (c * v)
  {
    assert y * up * q * k == y * q * (up * k);
    assert y * q * (c * p * v) == y * p * q * (c * v);
    assert x * c * (spread * v) * k == x * k * spread * (c * v);
  }

  lemma {:induction false} NearFrom(y: nat, d: nat, x: nat, q: nat, a: nat, b: nat, k: Positive, c: Positive, n: nat)
    requires y * q * k == a * c && x * Words.Pow2(1074) * d * k == b * c
    requires b * (PARTS - n) <= a * PARTS && a * PARTS <= b * (PARTS + 1)
    ensures Near(y, d, x, q, n)
  {
    hide Words.Pow2;
    SameOrder(y * q, x * Words.Pow2(1074) * d, a, b, k, c, PARTS, PARTS + 1);
    SameOrder(x * Words.Pow2(1074) * d, y * q, b, a, k, c, PARTS - n, PARTS);
  }

  lemma {:induction false} SameOrder(s: nat, t: nat, a: nat, b: nat, k: Positive, c: Positive, f: int, g: int)
    requires s * k == a * c && t * k == b * c && a * f <= b * g
    ensures s * f <= t * g
  {
    assert s * f * k == a * c * f && t * g * k == b * c * g by {
      assert s * f * k == s * k * f && t * g * k == t * k * g;
    }
    assert a * c * f == a * f * c && b * c * g == b * g * c;
    assert a * f * c <= b * g * c by { Ordered(a * f, b * g, c); }
    Cancelled(s * f, t * g, k);
  }

  lemma {:induction false} Ordered(a: int, b: int, c: Positive)
    requires a <= b
    ensures a * c <= b * c
  {
    assert b * c == a * c + (b - a) * c;
    Rounding.Multiples(c, 0, b - a);
  }
}
