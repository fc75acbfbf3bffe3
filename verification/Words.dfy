// Machine words.  A value of an integer type is a mathematical integer in the
// range of that type; a 64-bit register holds its residue modulo 2^64, which is
// the sign or zero extension of the value.
module Words {

  const WORD: int := 0x1_0000_0000_0000_0000

  type Width = w: int | w == 1 || w == 2 || w == 4 || w == 8 witness 8

  datatype Ty = Ty(width: Width, signed: bool)

  const ADDRESS: Ty := Ty(8, false)
  const INT: Ty := Ty(4, true)
  const LONG: Ty := Ty(8, true)

  function Modulus(width: Width): (m: int)
    ensures m > 1
  {
    if width == 1 then 0x100
    else if width == 2 then 0x1_0000
    else if width == 4 then 0x1_0000_0000
    else WORD
  }

  function Half(width: Width): (h: int)
    ensures 2 * h == Modulus(width)
  {
    if width == 1 then 0x80
    else if width == 2 then 0x8000
    else if width == 4 then 0x8000_0000
    else 0x8000_0000_0000_0000
  }

  const MIN64: int := -0x8000_0000_0000_0000

  // The value of type ty that is congruent to x.
  function Wrap(ty: Ty, x: int): (v: int)
    ensures InRange(ty, v)
  {
    var low := x % Modulus(ty.width);
    if ty.signed && low >= Half(ty.width) then low - Modulus(ty.width) else low
  }

  predicate InRange(ty: Ty, v: int) {
    if ty.signed
    then -Half(ty.width) <= v < Half(ty.width)
    else 0 <= v < Modulus(ty.width)
  }

  function U64(x: int): (u: int)
    ensures 0 <= u < WORD
  {
    x % WORD
  }

  function S64(x: int): (s: int)
    ensures InRange(LONG, s)
  {
    Wrap(LONG, x)
  }

  lemma {:induction false} WrapOfRegister(ty: Ty, x: int)
    ensures Wrap(ty, U64(x)) == Wrap(ty, x)
  {
    var q := x / WORD;
    var m := Modulus(ty.width);
    var k := if ty.width == 1 then 0x100_0000_0000_0000
             else if ty.width == 2 then 0x1_0000_0000_0000
             else if ty.width == 4 then 0x1_0000_0000 else 1;
    assert x == m * (k * q) + U64(x);
    ModFacts(x, U64(x), k * q, m);
  }

  lemma {:induction false} WrapCongruent(ty: Ty, x: int, y: int)
    requires U64(x) == U64(y)
    ensures Wrap(ty, x) == Wrap(ty, y)
  {
    WrapOfRegister(ty, x);
    WrapOfRegister(ty, y);
  }

  // Wrapping leaves a value that already fits alone.
  lemma {:induction false} WrapInRange(ty: Ty, v: int)
    requires InRange(ty, v)
    ensures Wrap(ty, v) == v
  {
    var m := Modulus(ty.width);
    if v < 0 {
      assert v + m == v % m by { assert v == m * (-1) + (v + m); }
    } else {
      assert v == v % m;
    }
  }

  // A full-width type loses nothing, so no normalising instruction is needed.
  lemma {:induction false} WrapFullWidth(ty: Ty, x: int)
    requires ty.width == 8
    ensures U64(Wrap(ty, x)) == U64(x)
  {
  }

  lemma {:induction false} ModFacts(a: int, b: int, k: int, m: int)
    requires m > 0 && a == m * k + b
    ensures a % m == b % m
  {
    var q, r := b / m, b % m;
    assert b == m * q + r;
    assert a == m * (k + q) + r by {
      assert m * (k + q) == m * k + m * q;
    }
    ModUnique(a, k + q, r, m);
  }

  lemma {:induction false} ModUnique(a: int, q: int, r: int, m: int)
    requires m > 0 && a == m * q + r && 0 <= r < m
    ensures a % m == r && a / m == q
  {
    DivModUnique(q, r, a / m, a % m, m);
  }

  lemma {:induction false} DivModUnique(q: int, r: int, q': int, r': int, m: int)
    requires m > 0 && 0 <= r < m && 0 <= r' < m
    requires m * q + r == m * q' + r'
    ensures q == q' && r == r'
  {
    if q > q' {
      MulAtLeast(m, q - q');
    } else if q < q' {
      MulAtLeast(m, q' - q);
    }
  }

  lemma {:induction false} MulAtLeast(m: int, k: int)
    requires m > 0 && k >= 1
    ensures m * k >= m
  {
  }

  lemma {:induction false} WrapMoves(ty: Ty, x: int) returns (k: int)
    ensures Wrap(ty, x) == x + k * Modulus(ty.width)
  {
    var m := Modulus(ty.width);
    k := if Wrap(ty, x) < x % m then -(x / m) - 1 else -(x / m);
    assert x == m * (x / m) + x % m;
    if Wrap(ty, x) < x % m {
      assert k * m == -(m * (x / m)) - m;
    } else {
      assert k * m == -(m * (x / m));
    }
  }

  // Values that agree in a wide type agree in a narrower one.
  lemma {:induction false} NarrowCongruent(ty: Ty, wide: Width, a: int, b: int, k: int)
    requires ty.width <= wide && a == b + k * Modulus(wide)
    ensures Wrap(ty, a) == Wrap(ty, b)
  {
    var m := Modulus(ty.width);
    var c := Modulus(wide) / m;
    assert Modulus(wide) == m * c;
    assert k * (m * c) == m * (k * c);
    ModFacts(a, b, k * c, m);
  }

  lemma {:induction false} U64Twice(x: int)
    ensures U64(U64(x)) == U64(x)
  {
  }

  lemma {:induction false} U64AddRight(a: int, b: int)
    ensures U64(U64(a) + b) == U64(a + b)
  {
    ModFacts(a + b, U64(a) + b, a / WORD, WORD);
  }

  lemma {:induction false} U64Add(a: int, b: int)
    ensures U64(U64(a) + U64(b)) == U64(a + b)
  {
    U64AddRight(a, U64(b));
    U64AddRight(b, a);
  }

  lemma {:induction false} U64Negate(b: int)
    ensures U64(-U64(b)) == U64(-b)
    ensures U64(WORD - 1 - U64(b)) == U64(-b - 1)
  {
    ModFacts(-U64(b), -b, b / WORD, WORD);
    ModFacts(WORD - 1 - U64(b), -b - 1, b / WORD + 1, WORD);
  }

  lemma {:induction false} U64Sub(a: int, b: int)
    ensures U64(U64(a) - U64(b)) == U64(a - b)
  {
    U64AddRight(a, -U64(b));
    ModFacts(a - U64(b), a - b, b / WORD, WORD);
  }

  lemma {:induction false} U64MulLeft(a: int, b: int)
    ensures U64(U64(a) * b) == U64(a * b)
  {
    var q := a / WORD;
    assert a == WORD * q + U64(a);
    assert a * b == WORD * (q * b) + U64(a) * b by {
      assert (WORD * q + U64(a)) * b == WORD * q * b + U64(a) * b;
    }
    ModFacts(a * b, U64(a) * b, q * b, WORD);
  }

  lemma {:induction false} U64Mul(a: int, b: int)
    ensures U64(U64(a) * U64(b)) == U64(a * b)
  {
    U64MulLeft(a, U64(b));
    U64MulLeft(b, a);
    assert a * U64(b) == U64(b) * a;
    assert a * b == b * a;
  }

  lemma {:induction false} SignedOfRegister(x: int)
    ensures S64(U64(x)) == S64(x)
    ensures U64(S64(x)) == U64(x)
  {
    WrapOfRegister(LONG, x);
  }

  // Two's complement: a signed register is its residue less 2^64 when the top
  // bit is set.
  lemma {:induction false} SignedValue(x: int)
    ensures S64(x) == if U64(x) >= Half(8) then U64(x) - WORD else U64(x)
  {
  }

  lemma {:induction false} MultipleOf(q: int, m: nat)
    requires m > 0
    ensures (m * q) % m == 0
  {
    ModUnique(m * q, q, 0, m);
  }

  lemma {:induction false} DividesThrough(x: int, m: nat, c: nat)
    requires m > 0 && c > 0 && x % (m * c) == 0
    ensures x % m == 0
  {
    var q := x / (m * c);
    assert x == m * c * q;
    assert m * c * q == m * (c * q);
    MultipleOf(c * q, m);
  }

  lemma {:induction false} SumOfMultiples(x: int, y: int, m: nat)
    requires m > 0 && x % m == 0 && y % m == 0
    ensures (x + y) % m == 0
  {
    var p, q := x / m, y / m;
    assert x + y == m * (p + q) by {
      assert x == m * p && y == m * q;
      assert m * (p + q) == m * p + m * q;
    }
    MultipleOf(p + q, m);
  }

  function Pow2(n: nat): (p: int)
    ensures p >= 1
  {
    if n == 0 then 1 else 2 * Pow2(n - 1)
  }

  // C's division truncates toward zero.
  function TruncDiv(a: int, b: int): int
    requires b != 0
  {
    if (a >= 0) == (b > 0) then Abs(a) / Abs(b) else -(Abs(a) / Abs(b))
  }

  function TruncMod(a: int, b: int): int
    requires b != 0
  {
    a - b * TruncDiv(a, b)
  }

  function Abs(a: int): nat { if a < 0 then -a else a }

  // C's identity (section 6.5.5 of C17): the quotient is truncated, the
  // remainder takes the dividend's sign and is smaller than the divisor.
  lemma {:induction false} TruncatingDivision(a: int, b: int)
    requires b != 0
    ensures a == b * TruncDiv(a, b) + TruncMod(a, b)
    ensures Abs(TruncMod(a, b)) < Abs(b)
    ensures TruncMod(a, b) == 0 || (TruncMod(a, b) < 0) == (a < 0)
  {
    var q, r := Abs(a) / Abs(b), Abs(a) % Abs(b);
    assert Abs(a) == Abs(b) * q + r;
    if b > 0 {
      assert b * q == Abs(b) * q;
      assert b * -q == -(b * q);
    } else {
      assert b * q == -(Abs(b) * q);
      assert b * -q == Abs(b) * q;
    }
  }

  lemma {:induction false} HalfAtMost(a: nat, b: nat)
    requires b >= 2
    ensures a / b <= a / 2
  {
    var q, r := a / b, a % b;
    assert a == b * q + r;
    assert b * q >= 2 * q;
  }

  lemma {:induction false} QuotientAtMost(a: nat, b: nat)
    requires b > 0
    ensures 0 <= a / b <= a
  {
    if b >= 2 { HalfAtMost(a, b); }
  }

  datatype BitOp = And | Or | Xor

  function Bit(op: BitOp, a: int, b: int): (r: int)
    requires 0 <= a <= 1 && 0 <= b <= 1
    ensures 0 <= r <= 1
  {
    match op
    case And => a * b
    case Or => if a + b > 0 then 1 else 0
    case Xor => (a + b) % 2
  }

  // Bitwise operation on the low n bits of two words.
  function Bitwise(op: BitOp, a: nat, b: nat, n: nat): (r: nat)
    ensures r < Pow2(n)
  {
    if n == 0 then 0
    else Bit(op, a % 2, b % 2) + 2 * Bitwise(op, a / 2, b / 2, n - 1)
  }

  function Bitwise64(op: BitOp, a: int, b: int): (r: int)
    requires 0 <= a && 0 <= b
    ensures 0 <= r < WORD
  {
    Pow2Is64();
    Bitwise(op, a, b, 64)
  }

  lemma {:induction false} PowersGrow(j: nat, k: nat)
    requires j <= k
    ensures Pow2(j) <= Pow2(k)
    ensures j < k ==> 2 * Pow2(j) <= Pow2(k)
  {
    if j < k { PowersGrow(j, k - 1); }
  }

  lemma Pow2Add(m: nat, n: nat)
    ensures Pow2(m + n) == Pow2(m) * Pow2(n)
  {
    if m > 0 {
      Pow2Add(m - 1, n);
      assert Pow2(m + n) == 2 * Pow2(m - 1 + n);
    }
  }

  lemma Pow2Is64()
    ensures Pow2(64) == WORD
  {
    assert Pow2(8) == 256;
    Pow2Add(8, 8);
    Pow2Add(16, 16);
    Pow2Add(32, 32);
  }

  // The low k bits of a bitwise result come from the low k bits of the operands.
  lemma {:induction false} BitwiseLow(op: BitOp, a: nat, a': nat, b: nat, n: nat, k: nat)
    requires k <= n && a % Pow2(k) == a' % Pow2(k)
    ensures Bitwise(op, a, b, n) % Pow2(k) == Bitwise(op, a', b, n) % Pow2(k)
    decreases n
  {
    if k > 0 {
      var p := Pow2(k - 1);
      SameHalves(a, a', p);
      BitwiseLow(op, a / 2, a' / 2, b / 2, n - 1, k - 1);
      BitwiseStep(op, a, b, n);
      BitwiseStep(op, a', b, n);
      HalfMod(Bitwise(op, a, b, n), p);
      HalfMod(Bitwise(op, a', b, n), p);
    }
  }

  lemma {:induction false} BitwiseStep(op: BitOp, a: nat, b: nat, n: nat)
    requires n > 0
    ensures Bitwise(op, a, b, n) % 2 == Bit(op, a % 2, b % 2)
    ensures Bitwise(op, a, b, n) / 2 == Bitwise(op, a / 2, b / 2, n - 1)
  {
  }

  lemma {:induction false} SameHalves(x: nat, y: nat, p: nat)
    requires p > 0 && x % (2 * p) == y % (2 * p)
    ensures x % 2 == y % 2 && x / 2 % p == y / 2 % p
  {
    HalfMod(x, p);
    HalfMod(y, p);
  }

  lemma {:induction false} HalfMod(x: nat, p: nat)
    requires p > 0
    ensures x % (2 * p) == x % 2 + 2 * (x / 2 % p)
  {
    var q, r := x / 2 / p, x / 2 % p;
    assert x / 2 == p * q + r;
    assert 2 * (p * q) == (2 * p) * q;
    ModUnique(x, q, 2 * r + x % 2, 2 * p);
  }

  // Exclusive or, or inclusive or, with no bit.
  lemma {:induction false} BitwiseZero(op: BitOp, a: nat, n: nat)
    requires op != And && a < Pow2(n)
    ensures Bitwise(op, a, 0, n) == a
  {
    if n > 0 { BitwiseZero(op, a / 2, n - 1); }
  }

  // Words that share no bit add up.
  lemma {:induction false} DisjointBits(op: BitOp, a: nat, b: nat, k: nat, n: nat)
    requires op != And
    requires k <= n && a < Pow2(n) && b < Pow2(k) && a % Pow2(k) == 0
    ensures Bitwise(op, a, b, n) == a + b
  {
    hide Bitwise;
    if k == 0 {
      BitwiseZero(op, a, n);
    } else {
      HalfMod(a, Pow2(k - 1));
      DisjointBits(op, a / 2, b / 2, k - 1, n - 1);
      BitwiseStep(op, a, b, n);
    }
  }

  // Bit k of a bitwise result is the operation on bit k of the operands.
  lemma {:induction false} BitwiseBit(op: BitOp, a: nat, b: nat, n: nat, k: nat)
    requires k < n
    ensures Bitwise(op, a, b, n) / Pow2(k) % 2
         == Bit(op, a / Pow2(k) % 2, b / Pow2(k) % 2)
  {
    hide Bit, Bitwise;
    BitwiseStep(op, a, b, n);
    if k > 0 {
      BitwiseBit(op, a / 2, b / 2, n - 1, k - 1);
      DivTwice(Bitwise(op, a, b, n), k);
      DivTwice(a, k);
      DivTwice(b, k);
    }
  }

  lemma {:induction false} DivTwice(x: nat, k: nat)
    requires k > 0
    ensures x / Pow2(k) == (x / 2) / Pow2(k - 1)
  {
    var p := Pow2(k - 1);
    var q, r := (x / 2) / p, (x / 2) % p;
    assert x / 2 == p * q + r;
    var rest := 2 * r + x % 2;
    assert x == 2 * (p * q + r) + x % 2;
    assert 2 * (p * q) == (2 * p) * q;
    ModUnique(x, q, rest, 2 * p);
  }
}
