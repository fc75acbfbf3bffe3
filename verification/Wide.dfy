// 128-bit intermediates of the decimal conversion, as two 64-bit words.
module Wide {
  import Words
  import Rounding
  import Assemble

  type Word = Assemble.Word
  type Positive = Rounding.Positive

  const HALF: nat := 0x1_0000_0000

  datatype Wide = Wide(high: Word, low: Word)
  {
    function Value(): nat { high * Words.WORD + low }
  }

  // The or of two words that share no bit.
  function Or(a: Word, b: Word): Word { Words.Bitwise64(Words.Or, a, b) }

  lemma {:induction false} DisjointOr(a: Word, b: Word, k: nat)
    requires k <= 64 && b < Words.Pow2(k) && a % Words.Pow2(k) == 0
    ensures Or(a, b) == a + b
  {
    Words.Pow2Is64();
    Words.DisjointBits(Words.Or, a, b, k, 64);
  }

  method ShiftLeft(value: Wide, bits: nat) returns (result: Wide)
    ensures result.Value() == value.Value() * Words.Pow2(bits) % (Words.WORD * Words.WORD)
  {
    hide Words.Pow2, Or;
    var p := Words.Pow2(bits);
    Rounding.PowersTwice(0);
    if bits == 0 { Whole(value); return value; }
    if bits >= 128 { AllOut(value, bits); return Wide(0, 0); }
    if bits >= 64 { WordOut(value, bits); return Wide(value.low * Words.Pow2(bits - 64) % Words.WORD, 0); }
    BitsOut(value, bits);
    result := Wide(Or(value.high * p % Words.WORD, value.low / Words.Pow2(64 - bits)), value.low * p % Words.WORD);
  }

  lemma {:induction false} Whole(value: Wide)
    ensures value.Value() * 1 % (Words.WORD * Words.WORD) == value.Value()
  {
    assert value.high * Words.WORD <= (Words.WORD - 1) * Words.WORD;
  }

  lemma {:induction false} AllOut(value: Wide, bits: nat)
    requires bits >= 128
    ensures value.Value() * Words.Pow2(bits) % (Words.WORD * Words.WORD) == 0
  {
    Words.Pow2Is64();
    Words.Pow2Add(64, 64);
    Words.Pow2Add(bits - 128, 128);
    var v, c := value.Value(), Words.Pow2(bits - 128);
    Rounding.Associated(v, c, Words.WORD * Words.WORD);
    assert v * c * (Words.WORD * Words.WORD) == Words.WORD * Words.WORD * (v * c);
    Words.ModUnique(v * Words.Pow2(bits), v * c, 0, Words.WORD * Words.WORD);
  }

  // Splitting a product at a power of two that divides the modulus.
  lemma {:induction false} Carried(x: nat, p: Positive, c: Positive, m: nat)
    requires p * c == m
    ensures x * p % m == x % c * p && x * p / m == x / c
  {
    var q, r := x / c, x % c;
    assert x == c * q + r;
    assert x * p == m * q + r * p by { assert c * q * p == p * c * q; }
    Rounding.Multiples(p, r, c);
    assert c * p == m;
    Words.ModUnique(x * p, q, r * p, m);
  }

  lemma {:induction false} WordOut(value: Wide, bits: nat)
    requires 64 <= bits < 128
    ensures value.low * Words.Pow2(bits - 64) % Words.WORD * Words.WORD
         == value.Value() * Words.Pow2(bits) % (Words.WORD * Words.WORD)
  {
    hide Words.Pow2;
    Words.Pow2Is64();
    Words.Pow2Add(bits - 64, 64);
    var h, l, c := value.high, value.low, Words.Pow2(bits - 64);
    var q, r := l * c / Words.WORD, l * c % Words.WORD;
    assert l * c == Words.WORD * q + r;
    Rounding.Associated(h * Words.WORD + l, c, Words.WORD);
    assert (h * Words.WORD + l) * c == Words.WORD * (h * c + q) + r by {
      assert (h * Words.WORD + l) * c == h * Words.WORD * c + l * c;
      assert h * Words.WORD * c == Words.WORD * (h * c);
    }
    Words.ModUnique(value.Value() * Words.Pow2(bits), h * c + q, r * Words.WORD, Words.WORD * Words.WORD);
  }

  lemma {:induction false} BitsOut(value: Wide, bits: nat)
    requires 0 < bits < 64
    ensures var p := Words.Pow2(bits);
            var up, down := value.high * p % Words.WORD, value.low / Words.Pow2(64 - bits);
            && 0 <= down < Words.WORD
            && Or(up, down) * Words.WORD + value.low * p % Words.WORD == value.Value() * p % (Words.WORD * Words.WORD)
  {
    hide Words.Pow2, Or;
    var h, l, p, c := value.high, value.low, Words.Pow2(bits), Words.Pow2(64 - bits);
    Words.Pow2Is64();
    Words.Pow2Add(bits, 64 - bits);
    Carried(l, p, c, Words.WORD);
    UpperWord(h, l, bits);
    Joined(h, l, p);
  }

  lemma {:induction false} UpperWord(h: Word, l: Word, bits: nat)
    requires 0 < bits < 64
    ensures var up, down := h * Words.Pow2(bits) % Words.WORD, l / Words.Pow2(64 - bits);
            0 <= down < Words.WORD && Or(up, down) == (up + down) % Words.WORD == up + down
  {
    hide Words.Pow2, Or;
    var p, c := Words.Pow2(bits), Words.Pow2(64 - bits);
    Words.Pow2Is64();
    Words.Pow2Add(bits, 64 - bits);
    Carried(h, p, c, Words.WORD);
    SmallQuotient(l, c, p);
    var up, down, r: nat := h * p % Words.WORD, l / c, h % c;
    Words.ModUnique(up, r, 0, p);
    DisjointOr(up, down, bits);
    Rounding.Multiples(p, r, c);
    Words.ModUnique(up + down, 0, up + down, Words.WORD);
  }

  lemma {:induction false} SmallQuotient(l: nat, c: Positive, p: nat)
    requires l < p * c
    ensures 0 <= l / c < p
    ensures l / c <= l
  {
    var q := l / c;
    assert l == c * q + l % c;
    if q >= p { Rounding.Multiples(c, p, q); }
    Words.QuotientAtMost(l, c);
  }

  lemma {:induction false} Joined(h: nat, l: nat, p: Positive)
    requires p <= Words.WORD
    ensures (h * Words.WORD + l) * p % (Words.WORD * Words.WORD)
         == (h * p % Words.WORD + l * p / Words.WORD) % Words.WORD * Words.WORD + l * p % Words.WORD
  {
    var W := Words.WORD;
    var a, b := h * p, l * p;
    var x := a % W + b / W;
    assert (h * W + l) * p == a * W + b by { assert h * W * p == a * W; }
    assert a == W * (a / W) + a % W && b == W * (b / W) + b % W && x == W * (x / W) + x % W;
    assert a * W + b == W * W * (a / W + x / W) + (x % W * W + b % W);
    Words.ModUnique((h * W + l) * p, a / W + x / W, x % W * W + b % W, W * W);
  }

  // Schoolbook multiplication on 32-bit halves is exact.
  method Multiply(left: Word, right: Word) returns (product: Wide)
    ensures product.Value() == left * right
  {
    hide Words.Pow2, Or;
    var a0, a1, b0, b1 := left % HALF, left / HALF, right % HALF, right / HALF;
    Halves(a1, a0, b1, b0);
    var p0, p1, p2, p3 := a0 * b0, a0 * b1, a1 * b0, a1 * b1;
    var carry := p0 / HALF;
    var sum := p1 % HALF + p2 % HALF + carry;
    ghost var sum0 := sum;
    var low := JoinHalves(sum % HALF, p0 % HALF);
    carry := p1 / HALF + p2 / HALF + sum / HALF;
    sum := p3 % HALF + carry;
    TopHalf(p0, p1, p2, p3, sum0, sum);
    var high := JoinHalves(p3 / HALF + sum / HALF, sum % HALF);
    product := Wide(high, low);
  }

  method JoinHalves(high: nat, low: nat) returns (word: Word)
    requires high < HALF && low < HALF
    ensures word == high * HALF + low
  {
    Pow32();
    DisjointOr(high * HALF, low, 32);
    word := Or(high * HALF, low);
  }

  lemma Pow32()
    ensures Words.Pow2(32) == HALF
  {
    assert Words.Pow2(8) == 256;
    Words.Pow2Add(8, 8);
    Words.Pow2Add(16, 16);
  }

  lemma {:induction false} Halves(a1: nat, a0: nat, b1: nat, b0: nat)
    requires a1 < HALF && a0 < HALF && b1 < HALF && b0 < HALF
    ensures (a1 * HALF + a0) * (b1 * HALF + b0) == a1 * b1 * (HALF * HALF) + (a0 * b1 + a1 * b0) * HALF + a0 * b0
    ensures a1 * b1 <= (HALF - 1) * (HALF - 1) && a0 * b1 <= (HALF - 1) * (HALF - 1)
    ensures a1 * b0 <= (HALF - 1) * (HALF - 1) && a0 * b0 <= (HALF - 1) * (HALF - 1)
  {
    Below(a1, b1);
    Below(a0, b1);
    Below(a1, b0);
    Below(a0, b0);
    assert (a1 * HALF + a0) * (b1 * HALF + b0) == a1 * HALF * (b1 * HALF + b0) + a0 * (b1 * HALF + b0);
    assert a0 * (b1 * HALF + b0) == a0 * b1 * HALF + a0 * b0;
    assert a1 * (HALF * b1 * HALF + HALF * b0) == a1 * b1 * (HALF * HALF) + a1 * b0 * HALF;
  }

  lemma {:induction false} Below(a: nat, b: nat)
    requires a < HALF && b < HALF
    ensures 0 <= a * b <= (HALF - 1) * (HALF - 1)
  {
    Rounding.Multiples(b, a, HALF - 1);
    Rounding.Multiples(HALF - 1, b, HALF - 1);
  }

  lemma {:induction false} TopHalf(p0: nat, p1: nat, p2: nat, p3: nat, sum: nat, top: nat)
    requires p0 <= (HALF - 1) * (HALF - 1) && p1 <= (HALF - 1) * (HALF - 1)
    requires p2 <= (HALF - 1) * (HALF - 1) && p3 <= (HALF - 1) * (HALF - 1)
    requires sum == p1 % HALF + p2 % HALF + p0 / HALF
    requires top == p3 % HALF + p1 / HALF + p2 / HALF + sum / HALF
    ensures p3 / HALF + top / HALF < HALF
  {
  }

  function WideBit(value: Wide, bit: nat): nat {
    Assemble.Shr(if bit >= 64 then value.high else value.low, bit % 64) % 2
  }

  lemma {:induction false} HighBits(value: Wide, bit: nat)
    requires bit >= 64
    ensures Assemble.Shr(value.Value(), bit) == Assemble.Shr(value.high, bit - 64)
  {
    hide Words.Pow2;
    var p := Words.Pow2(bit - 64);
    Words.Pow2Is64();
    Words.Pow2Add(64, bit - 64);
    var q, r := value.high / p, value.high % p;
    assert value.high == p * q + r;
    assert p * q * Words.WORD == Words.WORD * p * q;
    Rounding.Multiples(Words.WORD, r, p);
    Words.ModUnique(value.Value(), q, r * Words.WORD + value.low, Words.WORD * p);
  }

  lemma {:induction false} LowWordBits(value: Wide, bit: nat)
    requires bit <= 64
    ensures Assemble.Shr(value.Value(), bit) == value.high * Words.Pow2(64 - bit) + Assemble.Shr(value.low, bit)
    ensures value.Value() % Words.Pow2(bit) == value.low % Words.Pow2(bit)
  {
    hide Words.Pow2;
    var p, c := Words.Pow2(bit), Words.Pow2(64 - bit);
    Words.Pow2Is64();
    Words.Pow2Add(bit, 64 - bit);
    var q, r := value.low / p, value.low % p;
    assert value.low == p * q + r;
    assert p * (value.high * c) == value.high * Words.WORD by { Rounding.Associated(value.high, p, c); }
    assert p * (value.high * c + q) == p * (value.high * c) + p * q;
    Words.ModUnique(value.Value(), value.high * c + q, r, p);
  }

  lemma {:induction false} NextPrefix(v: nat, bit: nat)
    ensures Assemble.Shr(v, bit) == 2 * Assemble.Shr(v, bit + 1) + Assemble.Shr(v, bit) % 2
  {
    hide Words.Pow2;
    var p := Words.Pow2(bit);
    Rounding.PowersTwice(bit);
    var q, r := v / (2 * p), v % (2 * p);
    assert v == 2 * p * q + r;
    assert p * (2 * q) == 2 * p * q;
    var high := if r >= p then 1 else 0;
    Words.ModUnique(v, 2 * q + high, r - high * p, p);
  }

  lemma {:induction false} BitOfPrefix(value: Wide, bit: nat)
    requires bit < 128
    ensures Assemble.Shr(value.Value(), bit) % 2 == WideBit(value, bit)
  {
    hide Words.Pow2, Assemble.Shr;
    if bit >= 64 {
      HighBits(value, bit);
    } else {
      LowWordBits(value, bit);
      Rounding.PowersTwice(63 - bit);
      Rounding.Associated(value.high, 2, Words.Pow2(63 - bit));
      assert value.high * (2 * Words.Pow2(63 - bit)) == 2 * (value.high * Words.Pow2(63 - bit));
    }
  }

  method SetBit(value: Wide, bit: nat) returns (result: Wide)
    requires bit < 128 && value.Value() % Words.Pow2(bit + 1) == 0
    ensures result.Value() == value.Value() + Words.Pow2(bit)
  {
    hide Words.Pow2, Or;
    FreeBit(value, bit);
    if bit < 64 {
      result := Wide(value.high, Or(value.low, Words.Pow2(bit)));
    } else {
      result := Wide(Or(value.high, Words.Pow2(bit - 64)), value.low);
    }
  }

  lemma {:induction false} FreeBit(value: Wide, bit: nat)
    requires bit < 128 && value.Value() % Words.Pow2(bit + 1) == 0
    ensures bit < 64 ==> Words.Pow2(bit) < Words.WORD && Or(value.low, Words.Pow2(bit)) == value.low + Words.Pow2(bit)
    ensures bit >= 64 ==> (Words.Pow2(bit - 64) < Words.WORD && Words.Pow2(bit) == Words.Pow2(bit - 64) * Words.WORD
                           && Or(value.high, Words.Pow2(bit - 64)) == value.high + Words.Pow2(bit - 64))
  {
    hide Words.Pow2, Or;
    Words.Pow2Is64();
    if bit < 64 {
      Words.PowersGrow(bit, bit + 1);
      Words.PowersGrow(bit, 64);
      LowWordBits(value, bit + 1);
      DisjointOr(value.low, Words.Pow2(bit), bit + 1);
    } else {
      Words.PowersGrow(bit - 64, bit - 63);
      Words.PowersGrow(bit - 64, 64);
      Words.Pow2Add(bit - 64, 64);
      HighMultiple(value, bit + 1);
      DisjointOr(value.high, Words.Pow2(bit - 64), bit - 63);
    }
  }

  lemma {:induction false} HighMultiple(value: Wide, bit: nat)
    requires bit >= 64 && value.Value() % Words.Pow2(bit) == 0
    ensures value.high % Words.Pow2(bit - 64) == 0
  {
    hide Words.Pow2;
    var p := Words.Pow2(bit - 64);
    Words.Pow2Is64();
    Words.Pow2Add(64, bit - 64);
    var q := value.Value() / Words.Pow2(bit);
    assert value.Value() == Words.WORD * p * q + 0;
    assert value.Value() == Words.WORD * (p * q) + 0 by { Rounding.Associated(Words.WORD, p, q); }
    Words.DivModUnique(value.high, value.low, p * q, 0, Words.WORD);
    Words.ModUnique(value.high, q, 0, p);
  }

  // One step of restoring division: the quotient of twice the prefix plus a bit.
  lemma {:induction false} DivisionStep(prefix: nat, source: nat, divisor: Positive)
    requires source < 2
    ensures var rest := 2 * (prefix % divisor) + source;
            var take := rest >= divisor;
            && (2 * prefix + source) % divisor == rest - (if take then divisor else 0)
            && (2 * prefix + source) / divisor == 2 * (prefix / divisor) + (if take then 1 else 0)
            && rest < 2 * divisor
  {
    var q, r := prefix / divisor, prefix % divisor;
    assert prefix == divisor * q + r;
    assert divisor * (2 * q) == 2 * (divisor * q);
    assert divisor * (2 * q + 1) == 2 * (divisor * q) + divisor;
    var rest := 2 * r + source;
    if rest >= divisor { Words.ModUnique(2 * prefix + source, 2 * q + 1, rest - divisor, divisor); }
    else { Words.ModUnique(2 * prefix + source, 2 * q, rest, divisor); }
  }

  // The running remainder in one word, the carry of its shift standing for the
  // 65th bit.
  method ShiftIn(rest: Word, source: nat, divisor: Word) returns (rest': Word, take: bool)
    requires source < 2 && rest < divisor
    ensures take == (2 * rest + source >= divisor)
    ensures rest' == 2 * rest + source - if take then divisor else 0
  {
    hide Or;
    var carry := rest / 0x8000_0000_0000_0000 != 0;
    assert Words.Pow2(1) == 2;
    DisjointOr(2 * rest % Words.WORD, source, 1);
    rest' := Or(2 * rest % Words.WORD, source);
    take := carry || rest' >= divisor;
    if take { rest' := (rest' - divisor) % Words.WORD; }
  }

  // Restoring binary division.
  method Divide(value: Wide, divisor: Word) returns (quotient: Wide, remainder: Word)
    requires divisor > 0
    ensures quotient.Value() == value.Value() / divisor && remainder == value.Value() % divisor
  {
    hide Words.Pow2, Assemble.Shr, WideBit, Or;
    var bit := 128;
    quotient, remainder := Wide(0, 0), 0;
    Topmost(value);
    Words.ModUnique(0, 0, 0, divisor);
    while bit > 0
      invariant 0 <= bit <= 128
      invariant remainder == Assemble.Shr(value.Value(), bit) % divisor
      invariant quotient.Value() == Assemble.Shr(value.Value(), bit) / divisor * Words.Pow2(bit)
    {
      bit := bit - 1;
      ghost var prefix := Assemble.Shr(value.Value(), bit + 1);
      var source := WideBit(value, bit);
      NextPrefix(value.Value(), bit);
      BitOfPrefix(value, bit);
      DivisionStep(prefix, source, divisor);
      Shifted(prefix / divisor, bit);
      var rest, take := ShiftIn(remainder, source, divisor);
      remainder := rest;
      if take { quotient := SetBit(quotient, bit); }
    }
    Bottommost(value);
    Bottom(value.Value() / divisor);
  }

  lemma {:induction false} Shifted(q: nat, bit: nat)
    ensures q * Words.Pow2(bit + 1) % Words.Pow2(bit + 1) == 0
    ensures q * Words.Pow2(bit + 1) == 2 * q * Words.Pow2(bit)
    ensures (2 * q + 1) * Words.Pow2(bit) == 2 * q * Words.Pow2(bit) + Words.Pow2(bit)
  {
    hide Words.Pow2;
    Rounding.PowersTwice(bit);
    assert q * (2 * Words.Pow2(bit)) == 2 * q * Words.Pow2(bit);
    Words.ModUnique(q * Words.Pow2(bit + 1), q, 0, Words.Pow2(bit + 1));
  }

  lemma {:induction false} Topmost(value: Wide)
    ensures Assemble.Shr(value.Value(), 128) == 0
  {
    Words.Pow2Is64();
    Words.Pow2Add(64, 64);
    Rounding.Multiples(Words.WORD, value.high, Words.WORD - 1);
    Words.ModUnique(value.Value(), 0, value.Value(), Words.WORD * Words.WORD);
  }

  lemma {:induction false} Bottommost(value: Wide)
    ensures Assemble.Shr(value.Value(), 0) == value.Value()
  {
  }

  lemma {:induction false} Bottom(q: nat)
    ensures q * Words.Pow2(0) == q
  {
  }

  // What a normalisation tells of the bits it drops: the topmost of them is left
  // out, and with a full upper word the retained bits are asked as well.
  predicate Heard(value: Wide, amount: nat)
    requires 0 < amount <= 64
  {
    if amount < 64 then Assemble.Low(value.low, amount - 1) != 0
    else value.high % 0x8000_0000_0000_0000 != 0 || value.low != 0
  }

  method Normalize(value: Wide, scale: int, sticky: bool) returns (value': Wide, scale': int, sticky': bool)
    ensures value.high == 0 ==> value' == value && scale' == scale && sticky' == sticky
    ensures value.high > 0 ==>
              var amount := Assemble.Length(value.high);
              && 0 < amount <= 64
              && value'.high == 0 && value'.low == Assemble.Shr(value.Value(), amount)
              && scale' == scale - amount && sticky' == (sticky || Heard(value, amount))
  {
    hide Words.Pow2, Assemble.Shr, Assemble.Low, Assemble.Length, Or;
    value', scale', sticky' := value, scale, sticky;
    if value.high == 0 { return; }
    var amount := Assemble.BitLength(value.high);
    Assemble.LengthBounds(value.high);
    LowWordBits(value, amount);
    var low: Word;
    if amount < 64 {
      if Assemble.Low(value.low, amount - 1) != 0 { sticky' := true; }
      UpperBits(value.high, value.low, amount);
      low := Or(value.high * Words.Pow2(64 - amount), Assemble.Shr(value.low, amount));
    } else {
      if value.high % 0x8000_0000_0000_0000 != 0 || value.low != 0 { sticky' := true; }
      LowWordOut(value.low);
      low := value.high;
    }
    value', scale' := Wide(0, low), scale - amount;
  }

  lemma {:induction false} LowWordOut(low: Word)
    ensures Assemble.Shr(low, 64) == 0 && Words.Pow2(0) == 1
  {
    Words.Pow2Is64();
  }

  lemma {:induction false} UpperBits(high: Word, low: Word, amount: nat)
    requires 0 < amount < 64 && amount == Assemble.Length(high)
    ensures high * Words.Pow2(64 - amount) < Words.WORD && Assemble.Shr(low, amount) < Words.WORD
    ensures Or(high * Words.Pow2(64 - amount), Assemble.Shr(low, amount)) == high * Words.Pow2(64 - amount) + Assemble.Shr(low, amount)
  {
    hide Words.Pow2, Or, Assemble.Length;
    var p, c := Words.Pow2(amount), Words.Pow2(64 - amount);
    Assemble.LengthBounds(high);
    Words.Pow2Is64();
    Words.Pow2Add(amount, 64 - amount);
    Rounding.Multiples(c, high, p);
    SmallQuotient(low, p, c);
    Words.ModUnique(high * c, high, 0, c);
    DisjointOr(high * c, low / p, 64 - amount);
  }
}
