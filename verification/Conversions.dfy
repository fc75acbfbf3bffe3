// Conversions the parser leaves out, on values: when an operation on unconverted
// operands is C's operation in the common type.
module Conversions {
  import opened Words
  import opened Lists
  import opened Options
  import opened Ir
  import opened Ast
  import opened LowerNode

  lemma {:induction false} Images(t: Ty, v: int)
    requires InRange(t, v)
    ensures U64(v) == (if v < 0 then v + WORD else v)
    ensures S64(v) == (if v >= Half(8) then v - WORD else v)
    ensures t.signed ==> v < Half(8)
    ensures v < 0 ==> t.signed
  {
    if v < 0 { ModUnique(v, -1, v + WORD, WORD); } else { ModUnique(v, 0, v, WORD); }
    SignedValue(v);
  }

  lemma {:induction false} WrappedTo(c: Ty, v: int)
    requires -Modulus(c.width) <= v < Modulus(c.width) && !c.signed
    ensures Wrap(c, v) == if v < 0 then v + Modulus(c.width) else v
  {
    var n := Modulus(c.width);
    if v < 0 { ModUnique(v, -1, v + n, n); } else { ModUnique(v, 0, v, n); }
  }

  lemma {:induction false} IntoCommon(ta: Ty, tb: Ty, v: int)
    requires InRange(ta, v)
    ensures var c := CommonType(ta, tb);
            Wrap(c, v) == if !c.signed && v < 0 then v + Modulus(c.width) else v
  {
    var c := CommonType(ta, tb);
    if c.signed { WrapInRange(c, v); } else { WrappedTo(c, v); }
  }

  lemma {:induction false} CommonBothWays(ta: Ty, tb: Ty)
    ensures CommonType(ta, tb) == CommonType(tb, ta)
  {
  }

  // Operands of any two types: the generated test is C's exactly under SameTest.
  lemma {:induction false} MixedTest(cmp: Comparison, ta: Ty, tb: Ty, x: int, y: int)
    requires InRange(ta, x) && InRange(tb, y)
    ensures var c := CommonType(ta, tb);
            (Compares(cmp, ta.signed, x, y) <==> Related(cmp, Wrap(c, x), Wrap(c, y))) <==> SameTest(cmp, ta, tb, x, y)
  {
    hide U64, S64, Wrap;
    Images(ta, x);
    Images(tb, y);
    IntoCommon(ta, tb, x);
    CommonBothWays(ta, tb);
    IntoCommon(tb, ta, y);
  }

  lemma {:induction false} SameCompare(cmp: Comparison, signed: bool, x: int, y: int, x': int, y': int)
    requires U64(x) == U64(x') && U64(y) == U64(y')
    ensures Compares(cmp, signed, x, y) == Compares(cmp, signed, x', y')
  {
    SameImage(x, x');
    SameImage(y, y');
  }

  lemma {:induction false} NegationFixes(ty: Ty, v: int)
    requires InRange(ty, v)
    ensures Wrap(ty, -v) == v <==> OwnNegative(ty, v)
  {
    var m := Modulus(ty.width);
    if v > 0 {
      ModUnique(-v, -1, m - v, m);
    } else if v < 0 {
      assert (-v) % m == -v;
    }
  }

  // A value that is passed on unconverted has the register image of the converted
  // one exactly when it passes.
  lemma {:induction false} Unconverted(ty: Ty, v: int)
    ensures U64(v) == U64(Wrap(ty, v)) <==> Passes(ty, v)
  {
    hide Wrap, U64, S64;
    var r, w := if ty.signed then S64(v) else U64(v), Wrap(ty, v);
    SignedOfRegister(v);
    U64Twice(v);
    WrapCongruent(ty, r, v);
    ValueFromImage(ty, w);
    if InRange(ty, r) { WrapInRange(ty, r); }
    if U64(v) == U64(w) { SameImage(v, w); }
  }

  lemma {:induction false} WrapTwice(ty: Ty, wide: Ty, x: int)
    requires ty.width <= wide.width
    ensures Wrap(ty, Wrap(wide, x)) == Wrap(ty, x)
  {
    var k := WrapMoves(wide, x);
    NarrowCongruent(ty, wide.width, Wrap(wide, x), x, k);
  }


  lemma {:induction false} UpdateDivision(ty: Ty, op: Operator, common: Ty, x: int, y: int)
    requires InRange(ty, x) && InRange(common, y) && Divides(op)
    requires common.signed == ty.signed && common.width >= ty.width
    requires Compute(common, op, Wrap(common, x), y).Some?
    ensures Operate(ty, op, x, y) == Some(Wrap(ty, Compute(common, op, Wrap(common, x), y).value))
  {
    WrapInRange(common, x);
    DivisionDoes(common, x, y);
    hide TruncDiv, TruncMod, Quotient, Remainder, Divisible;
    WrapTwice(ty, common, TruncDiv(x, y));
    WrapTwice(ty, common, TruncMod(x, y));
  }


  // Compound division.

  lemma {:induction false} SameWrap(ty: Ty, u: int, v: int)
    ensures Wrap(ty, u) == Wrap(ty, v) <==> (u - v) % Modulus(ty.width) == 0
  {
    var m := Modulus(ty.width);
    var p, q := u / m, v / m;
    assert u == m * p + u % m && v == m * q + v % m;
    assert u - v == m * (p - q) + (u % m - v % m) by { assert m * (p - q) == m * p - m * q; }
    if u % m >= v % m { ModUnique(u - v, p - q, u % m - v % m, m); }
    else {
      assert m * (p - q - 1) == m * (p - q) - m;
      ModUnique(u - v, p - q - 1, u % m - v % m + m, m);
    }
  }

  // A number and its complement to n, divided.
  lemma {:induction false} SplitDivision(n: nat, a: nat, y: nat)
    requires a <= n && y > 0
    ensures (n - a) / y + a / y == n / y - (if n % y < a % y then 1 else 0)
    ensures (n - a) % y + a % y == n % y + (if n % y < a % y then y else 0)
  {
    var p, r, q, s := n / y, n % y, a / y, a % y;
    assert n == y * p + r && a == y * q + s;
    assert y * (p - q) == y * p - y * q;
    assert y * (p - q - 1) == y * (p - q) - y;
    if r < s { ModUnique(n - a, p - q - 1, r - s + y, y); } else { ModUnique(n - a, p - q, r - s, y); }
  }

  lemma {:induction false} CommonsOf(ty: Ty, tb: Ty)
    ensures Commons(CommonType(ty, tb), ty)
  {
  }

  // C's quotient or remainder in the common type, brought back to the target.
  function InCommon(op: Operator, ty: Ty, c: Ty, x: int, y: int): Option<int> {
    var v := Compute(c, op, Wrap(c, x), y);
    if v.None? then None else Some(Wrap(ty, v.value))
  }

  // A signed target divided by an unsigned number below 2^63.
  lemma {:induction false} SignedBySmall(op: Operator, ty: Ty, c: Ty, x: int, y: int)
    requires Divides(op) && ty.signed && !c.signed && Commons(c, ty) && InRange(ty, x) && InRange(c, y) && 0 < y < Half(8)
    ensures InCommon(op, ty, c, x, y).Some?
    ensures Operate(ty, op, x, y) == InCommon(op, ty, c, x, y) <==> SameDivision(op, ty, c, x, y)
  {
    hide Wrap, U64, S64, TruncMod, TruncDiv;
    Images(ty, x);
    Images(c, y);
    Narrow(ty, c);
    WrappedTo(c, x);
    Quotients(x, y);
    if x < 0 {
      NegativeBySmall(op, ty, c, -x, y);
    } else {
      WrappedTo(c, x / y);
      WrappedTo(c, x % y);
    }
  }

  // The quotient and the remainder of a negative number, which C divides less the
  // other way from the top.
  lemma {:induction false} NegativeBySmall(op: Operator, ty: Ty, c: Ty, a: nat, y: nat)
    requires Divides(op) && !c.signed && c.width >= ty.width && 0 < a <= Modulus(c.width) && 0 < y
    ensures var n, m, r := Modulus(c.width), Modulus(ty.width), Compute(c, op, Modulus(c.width) - a, y);
            && r.Some?
            && (Wrap(ty, if op.Div? then -(a / y) else -(a % y)) == Wrap(ty, r.value)
                <==> if op.Div? then (n / y - (if n % y < a % y then 1 else 0)) % m == 0
                     else (n % y + (if n % y < a % y then y else 0)) % m == 0)
  {
    hide Wrap, U64, S64, TruncMod, TruncDiv;
    var z := Modulus(c.width) - a;
    Quotients(z, y);
    WrappedTo(c, z / y);
    WrappedTo(c, z % y);
    SplitDivision(Modulus(c.width), a, y);
    SameWrap(ty, z / y, -(a / y));
    SameWrap(ty, z % y, -(a % y));
  }

  lemma {:induction false} Narrow(ty: Ty, c: Ty)
    requires c.width >= ty.width
    ensures Modulus(ty.width) <= Modulus(c.width)
  {
  }

  // Truncating division by a positive number.
  lemma {:induction false} Quotients(x: int, y: int)
    requires y > 0
    ensures x >= 0 ==> TruncDiv(x, y) == x / y && TruncMod(x, y) == x % y && 0 <= x / y <= x && x % y <= x
    ensures x < 0 ==> TruncDiv(x, y) == -(-x / y) && TruncMod(x, y) == -(-x % y)
  {
    if x >= 0 {
      QuotientAtMost(x, y);
      assert x == y * (x / y) + x % y;
      MulSign(y, x / y);
    } else {
      assert -x == y * (-x / y) + -x % y;
      assert y * -(-x / y) == -(y * (-x / y));
    }
  }

  lemma {:induction false} MulSign(y: int, q: int)
    requires y > 0 && q >= 0
    ensures y * q >= 0
  {
  }

  // An unsigned target divided by a signed number.
  lemma {:induction false} UnsignedBySigned(op: Operator, ty: Ty, c: Ty, x: int, y: int)
    requires Divides(op) && !ty.signed && c.signed && Commons(c, ty) && InRange(ty, x) && InRange(c, y) && y != 0
    ensures InCommon(op, ty, c, x, y).Some?
    ensures Operate(ty, op, x, y) == InCommon(op, ty, c, x, y) <==> SameDivision(op, ty, c, x, y)
  {
    hide Wrap, U64, S64, TruncMod, TruncDiv;
    Images(ty, x);
    Images(c, y);
    HeldBy(ty, c, x);
    WrapInRange(c, x);
    if y > 0 {
      Quotients(x, y);
      HeldBy(ty, c, x / y);
      HeldBy(ty, c, x % y);
      WrapInRange(c, x % y);
      WrapInRange(c, x / y);
    } else {
      NegativeDivisor(x, -y);
      WrapInRange(c, -(x / -y));
      WrapInRange(c, x % -y);
      Words.ModUnique(x, 0, x, y + WORD);
      WrappedTo(ty, -(x / -y));
      WrappedTo(ty, x % -y);
      WrappedTo(ty, x);
      WrappedTo(ty, 0);
      SmallQuotient(x, -y);
    }
  }

  lemma {:induction false} HeldBy(ty: Ty, c: Ty, v: int)
    requires !ty.signed && c.signed && Commons(c, ty) && 0 <= v < Modulus(ty.width)
    ensures InRange(c, v) && InRange(c, -v)
  {
  }

  lemma {:induction false} NegativeDivisor(x: int, b: int)
    requires x >= 0 && b > 0
    ensures TruncDiv(x, -b) == -(x / b) && TruncMod(x, -b) == x % b && 0 <= x / b <= x && 0 <= x % b <= x
  {
    QuotientAtMost(x, b);
    assert x == b * (x / b) + x % b;
    MulSign(b, x / b);
    assert -b * -(x / b) == b * (x / b);
    if x == 0 { ModUnique(0, 0, 0, b); }
  }

  lemma {:induction false} SmallQuotient(x: nat, b: nat)
    requires b > 0
    ensures x / b == 0 <==> x < b
    ensures x % b == x <==> x < b
  {
    if x < b { ModUnique(x, 0, x, b); } else { assert x == b * (x / b) + x % b; }
  }

  // A signed target divided by an unsigned number from 2^63 on: the code divides
  // by its distance below 2^64, with the sign turned.
  lemma {:induction false} SignedByLarge(op: Operator, ty: Ty, c: Ty, x: int, y: int)
    requires Divides(op) && ty.signed && !c.signed && Commons(c, ty) && InRange(ty, x) && InRange(c, y) && y >= Half(8)
    ensures InCommon(op, ty, c, x, y).Some?
    ensures Operate(ty, op, x, y) == InCommon(op, ty, c, x, y) <==> SameDivision(op, ty, c, x, y)
  {
    hide Wrap, U64, S64, TruncMod, TruncDiv;
    Images(ty, x);
    Images(c, y);
    WrappedTo(c, x);
    var z, b := Wrap(c, x), WORD - y;
    Quotients(z, y);
    LargeDivisor(z, y);
    WrappedTo(c, z / y);
    WrappedTo(c, z % y);
    if x >= 0 {
      NegativeDivisor(x, b);
      SmallQuotient(x, b);
      SameWrap(ty, 0, -(x / b));
      SameWrap(ty, x, x % b);
      Multiple(x / b, Modulus(ty.width));
      Multiple(x - x % b, Modulus(ty.width));
    } else {
      LargeNegative(op, ty, x, y);
    }
  }

  // A quotient by at least half of everything is 0 or 1.
  lemma {:induction false} LargeDivisor(z: nat, y: nat)
    requires z < WORD && Half(8) <= y
    ensures z / y == (if z < y then 0 else 1) && z % y == (if z < y then z else z - y)
  {
    if z < y { ModUnique(z, 0, z, y); } else { ModUnique(z, 1, z - y, y); }
  }

  lemma {:induction false} Multiple(v: int, m: int)
    requires 0 <= v < m
    ensures v % m == 0 <==> v == 0
    ensures (-v) % m == 0 <==> v == 0
  {
    ModUnique(v, 0, v, m);
    if v > 0 { ModUnique(-v, -1, m - v, m); }
  }

  lemma {:induction false} LargeNegative(op: Operator, ty: Ty, x: int, y: int)
    requires Divides(op) && ty.signed && InRange(ty, x) && x < 0 && Half(8) <= y < WORD
    ensures var a, b := -x, WORD - y;
            var q, r := if x + WORD < y then 0 else 1, if x + WORD < y then x + WORD else x + WORD - y;
            Operate(ty, op, x, y) == Some(Wrap(ty, if op.Div? then q else r))
            <==> a == b || (op.Mod? && a < b && b % Modulus(ty.width) == 0)
  {
    hide Wrap, U64, S64, TruncMod, TruncDiv, Half;
    var a, b, m := -x, WORD - y, Modulus(ty.width);
    Images(ty, x);
    Images(ADDRESS, y);
    BothNegative(a, b);
    SmallQuotient(a, b);
    assert Operate(ty, op, x, y)
        == if x == MIN64 && b == 1 then None else Some(Wrap(ty, if op.Div? then a / b else -(a % b)));
    if op.Div? {
      QuotientAtMost(a, b);
      SameWrap(ty, a / b, if a > b then 0 else 1);
      Small(a, b, m);
    } else if a <= b {
      SameWrap(ty, -(a % b), b - a);
      Negated(b, m);
      if a == b { ModUnique(a, 1, 0, b); ModUnique(0, 0, 0, m); }
    } else {
      SameWrap(ty, -(a % b), WORD - a);
      assert a == b * (a / b) + a % b;
      MulAtLeast(b, a / b);
      WordMultiple(a - a % b, ty);
    }
  }

  lemma {:induction false} BothNegative(a: int, b: int)
    requires a > 0 && b > 0
    ensures TruncDiv(-a, -b) == a / b && TruncMod(-a, -b) == -(a % b)
  {
    assert a == b * (a / b) + a % b;
    assert -b * (a / b) == -(b * (a / b));
  }

  lemma {:induction false} Small(a: nat, b: nat, m: int)
    requires 0 < a < m && b > 0 && m >= 256
    ensures (a / b - (if a > b then 0 else 1)) % m == 0 <==> a == b
  {
    SmallQuotient(a, b);
    QuotientAtMost(a, b);
    if a < b { ModUnique(-1, -1, m - 1, m); }
    else if a == b { ModUnique(a, 1, 0, b); ModUnique(0, 0, 0, m); }
    else { ModUnique(a / b, 0, a / b, m); }
  }

  lemma {:induction false} Negated(v: int, m: int)
    requires v >= 0 && m > 0
    ensures (-v) % m == 0 <==> v % m == 0
  {
    var q, r := v / m, v % m;
    assert v == m * q + r && m * -q == -(m * q);
    if r == 0 { ModUnique(-v, -q, 0, m); } else { assert m * (-q - 1) == -(m * q) - m; ModUnique(-v, -q - 1, m - r, m); }
  }

  // A positive number below the modulus, 2^64 away.
  lemma {:induction false} WordMultiple(v: nat, ty: Ty)
    requires 0 < v < Modulus(ty.width)
    ensures (v - WORD) % Modulus(ty.width) != 0
  {
    var m := Modulus(ty.width);
    var k := if ty.width == 1 then 0x100_0000_0000_0000
             else if ty.width == 2 then 0x1_0000_0000_0000
             else if ty.width == 4 then 0x1_0000_0000 else 1;
    assert WORD == m * k && m * -k == -(m * k);
    ModUnique(v - WORD, -k, v, m);
  }

  // An operation in the target's own signedness, on operands of one signedness,
  // is C's.
  lemma {:induction false} SameSignedness(op: Operator, ty: Ty, c: Ty, x: int, y: int)
    requires Divides(op) && ty.signed == c.signed && c.width >= ty.width && InRange(ty, x) && InRange(c, y)
    requires InCommon(op, ty, c, x, y).Some?
    ensures Operate(ty, op, x, y) == InCommon(op, ty, c, x, y)
  {
    UpdateDivision(ty, op, c, x, y);
  }

  // Division and remainder in place, for any target and common type: the generated
  // code divides in the target's signedness, and that is C exactly under
  // SameDivision.
  lemma {:induction false} MixedDivision(op: Operator, ty: Ty, c: Ty, x: int, y: int)
    requires Divides(op) && Commons(c, ty) && InRange(ty, x) && InRange(c, y) && InCommon(op, ty, c, x, y).Some?
    ensures Operate(ty, op, x, y) == InCommon(op, ty, c, x, y) <==> SameDivision(op, ty, c, x, y)
  {
    hide Operate, InCommon, InRange;
    NonzeroDivisor(op, ty, c, x, y);
    if ty.signed == c.signed { SameSignedness(op, ty, c, x, y); }
    else if c.signed { UnsignedBySigned(op, ty, c, x, y); }
    else if y < Half(8) { PositiveDivisor(c, y); SignedBySmall(op, ty, c, x, y); }
    else { SignedByLarge(op, ty, c, x, y); }
  }

  lemma {:induction false} PositiveDivisor(c: Ty, y: int)
    requires InRange(c, y) && !c.signed
    ensures y >= 0
  {
  }

  lemma {:induction false} NonzeroDivisor(op: Operator, ty: Ty, c: Ty, x: int, y: int)
    requires Divides(op) && InCommon(op, ty, c, x, y).Some?
    ensures y != 0
  {
  }
}
