// What a decimal constant says, and that the scan reads just that.
module DecimalText {
  import Decimal
  import DecimalRounding
  import Assemble
  import Words
  import Rounding

  datatype Exponent = Absent | Exponent(sign: string, digits: seq<nat>)

  // sign whole [. fraction] [e sign digits]
  datatype Literal = Literal(sign: string, whole: seq<nat>, point: bool, fraction: seq<nat>, exponent: Exponent)

  predicate IsSign(s: string) { s == "" || s == "+" || s == "-" }

  predicate AllDigits(ds: seq<nat>) { forall k :: 0 <= k < |ds| ==> ds[k] < 10 }

  // A digit somewhere, and a point before a fraction.
  predicate WellFormed(l: Literal) {
    && IsSign(l.sign) && AllDigits(l.whole) && AllDigits(l.fraction) && 0 < |l.whole| + |l.fraction|
    && (!l.point ==> l.fraction == [])
    && (l.exponent.Exponent? ==> IsSign(l.exponent.sign) && AllDigits(l.exponent.digits) && l.exponent.digits != [])
  }

  // The digits from i on, and nothing after them that would continue them.
  predicate Shows(text: string, i: nat, ds: seq<nat>) {
    && i + |ds| <= |text| && !Decimal.IsDigit(Decimal.At(text, i + |ds|))
    && forall k :: 0 <= k < |ds| ==> ShowsDigit(text, i + k, ds[k])
  }

  predicate ShowsDigit(text: string, i: nat, d: nat) {
    Decimal.IsDigit(Decimal.At(text, i)) && Decimal.DigitOf(Decimal.At(text, i)) == d
  }

  predicate Signed(text: string, i: nat, sign: string) {
    if sign == "" then !IsSign([Decimal.At(text, i)]) else [Decimal.At(text, i)] == sign
  }

  function PointAt(l: Literal): nat { |l.sign| + |l.whole| }

  function MantissaEnd(l: Literal): nat { if l.point then PointAt(l) + 1 + |l.fraction| else PointAt(l) }

  predicate Written(text: string, l: Literal) {
    var e := MantissaEnd(l);
    && Signed(text, 0, l.sign) && Shows(text, |l.sign|, l.whole)
    && (Decimal.At(text, PointAt(l)) == '.' <==> l.point)
    && (l.point ==> Shows(text, PointAt(l) + 1, l.fraction))
    && match l.exponent {
         case Absent => |text| == e
         case Exponent(sign, digits) =>
           && (Decimal.At(text, e) == 'e' || Decimal.At(text, e) == 'E') && Signed(text, e + 1, sign)
           && Shows(text, e + 1 + |sign|, digits) && |text| == e + 1 + |sign| + |digits|
       }
  }

  // The number a string of digits writes, after those already read.
  function Extended(m: nat, ds: seq<nat>): nat
    decreases |ds|
  {
    if ds == [] then m else Extended(m * 10 + ds[0], ds[1..])
  }

  function Value(ds: seq<nat>): nat { Extended(0, ds) }

  function ExponentValue(e: Exponent): int {
    match e
    case Absent => 0
    case Exponent(sign, digits) => if sign == "-" then -(Value(digits) as int) else Value(digits)
  }

  lemma {:induction false} ExtendedTwice(m: nat, ds: seq<nat>, es: seq<nat>)
    ensures Extended(Extended(m, ds), es) == Extended(m, ds + es)
    decreases |ds|
  {
    if ds == [] {
      assert ds + es == es;
    } else {
      assert (ds + es)[1..] == ds[1..] + es && (ds + es)[0] == ds[0];
      ExtendedTwice(m * 10 + ds[0], ds[1..], es);
    }
  }

  // How many of the digits still fit.
  function Fitting(digits: nat, ds: seq<nat>): (r: nat)
    requires digits <= Decimal.MAX_DIGITS
    ensures r <= |ds| && digits + r <= Decimal.MAX_DIGITS
  {
    if |ds| <= Decimal.MAX_DIGITS - digits then |ds| else Decimal.MAX_DIGITS - digits
  }

  function AfterDigits(s: Decimal.Scan, ds: seq<nat>, fraction: bool): Decimal.Scan
    requires s.digits <= Decimal.MAX_DIGITS
  {
    var k := Fitting(s.digits, ds);
    var m := Extended(s.mantissa, ds[..k]);
    Decimal.Scan(s.index + |ds|, m, s.digits + k, if fraction then s.exponent - k else s.exponent + |ds| - k,
                 s.truncated || (k < |ds| && (fraction || m != 0)))
  }

  // Digits are read as long as there is room; those after that only move the point.
  lemma {:induction false} DigitsRead(text: string, s: Decimal.Scan, ds: seq<nat>, fraction: bool)
    requires Shows(text, s.index, ds) && s.digits <= Decimal.MAX_DIGITS
    ensures Decimal.Digits(text, s, fraction) == AfterDigits(s, ds, fraction)
    decreases |ds|
  {
    if ds != [] {
      var t := if fraction then Decimal.FractionDigit(s, ds[0]) else Decimal.WholeDigit(s, ds[0]);
      RestShown(text, s.index, ds);
      DigitsRead(text, t, ds[1..], fraction);
      var k := Fitting(s.digits, ds);
      if k > 0 { assert ds[..k][1..] == ds[1..][..k - 1]; }
    }
  }

  lemma {:induction false} RestShown(text: string, i: nat, ds: seq<nat>)
    requires Shows(text, i, ds) && ds != []
    ensures Shows(text, i + 1, ds[1..]) && Decimal.IsDigit(text[i]) && Decimal.DigitOf(text[i]) == ds[0]
  {
    assert ShowsDigit(text, i + 0, ds[0]);
    forall k | 0 <= k < |ds[1..]| ensures ShowsDigit(text, i + 1 + k, ds[1..][k]) {
      assert ShowsDigit(text, i + (k + 1), ds[k + 1]);
    }
  }

  // A capped exponent is exact while it is in range, and too large with the value.
  lemma {:induction false} ExponentRead(text: string, i: nat, ds: seq<nat>, value: nat, exact: nat)
    requires Shows(text, i, ds)
    requires value == exact || (value >= 10000 && exact >= 10000)
    ensures var (v, end) := Decimal.Capped(text, i, value);
            end == i + |ds| && (v == Extended(exact, ds) || (v >= 10000 && Extended(exact, ds) >= 10000))
    decreases |ds|
  {
    if ds != [] {
      RestShown(text, i, ds);
      ExponentRead(text, i + 1, ds[1..], if value < 10000 then value * 10 + ds[0] else value, exact * 10 + ds[0]);
    }
  }

  // The digits that are read, leading zeros included.
  function Kept(l: Literal): seq<nat> { (l.whole + l.fraction)[..Fitting(0, l.whole + l.fraction)] }

  // What is remembered of the others.
  predicate Cut(l: Literal) {
    || (|l.whole| > Decimal.MAX_DIGITS && Value(Kept(l)) != 0)
    || (|l.whole + l.fraction| > Decimal.MAX_DIGITS && l.fraction != [])
  }

  lemma {:induction false} MantissaRead(text: string, l: Literal)
    requires WellFormed(l) && Written(text, l)
    ensures Decimal.Sign(text, 0) == |l.sign| && (Decimal.At(text, 0) == '-') == (l.sign == "-")
    ensures Decimal.Mantissa(text) == Decimal.Scan(MantissaEnd(l), Value(Kept(l)), |Kept(l)|, |l.whole| - |Kept(l)|, Cut(l))
    ensures Decimal.SeenDigit(text)
  {
    hide Extended, AfterDigits, Kept, Cut, Decimal.Digits;
    var start := Decimal.Scan(|l.sign|, 0, 0, 0, false);
    DigitsRead(text, start, l.whole, false);
    BothParts(l, start);
    if l.point {
      DigitsRead(text, AfterDigits(start, l.whole, false).(index := PointAt(l) + 1), l.fraction, true);
    }
  }

  lemma {:induction false} BothParts(l: Literal, start: Decimal.Scan)
    requires WellFormed(l) && start == Decimal.Scan(|l.sign|, 0, 0, 0, false)
    ensures var s := AfterDigits(start, l.whole, false);
            && s.index == PointAt(l) && s.digits <= Decimal.MAX_DIGITS
            && (if l.point then AfterDigits(s.(index := PointAt(l) + 1), l.fraction, true) else s)
               == Decimal.Scan(MantissaEnd(l), Value(Kept(l)), |Kept(l)|, |l.whole| - |Kept(l)|, Cut(l))
  {
    hide Extended;
    var k := Fitting(0, l.whole);
    var j := Fitting(k, l.fraction);
    if l.point {
      ExtendedTwice(0, l.whole[..k], l.fraction[..j]);
      assert Kept(l) == l.whole[..k] + l.fraction[..j];
      if k == Decimal.MAX_DIGITS { assert Kept(l) == l.whole[..k]; }
    } else {
      assert l.whole + l.fraction == l.whole;
    }
  }

  // A constant is read as the number its first 19 digits write, at the place where they
  // stand, or refused for its exponent.
  lemma {:induction false} LiteralRead(text: string, l: Literal)
    requires WellFormed(l) && Written(text, l)
    ensures Decimal.Parsed(text)
         == (if l.exponent.Exponent? && Value(l.exponent.digits) > 4000 then Decimal.Malformed
             else Decimal.Number(l.sign == "-", Value(Kept(l)), ExponentValue(l.exponent) + |l.whole| - |Kept(l)|, Cut(l)))
  {
    hide Extended, Decimal.Digits, Decimal.Capped, Kept, Cut;
    MantissaRead(text, l);
    if l.exponent.Exponent? {
      var i := MantissaEnd(l) + 1 + |l.exponent.sign|;
      assert Decimal.Sign(text, MantissaEnd(l) + 1) == i;
      RestShown(text, i, l.exponent.digits);
      ExponentRead(text, i, l.exponent.digits, 0, 0);
    }
  }

  // What the digits after the first ones can add is less than one of the last of these.
  lemma {:induction false} ExtendedBounds(m: nat, ds: seq<nat>)
    requires AllDigits(ds)
    ensures m * Decimal.Pow(10, |ds|) <= Extended(m, ds) < (m + 1) * Decimal.Pow(10, |ds|)
    decreases |ds|
  {
    if ds != [] {
      ExtendedBounds(m * 10 + ds[0], ds[1..]);
      var p := Decimal.Pow(10, |ds| - 1);
      Rounding.Multiples(p, m * 10, m * 10 + ds[0]);
      Rounding.Multiples(p, m * 10 + ds[0] + 1, (m + 1) * 10);
      Rounding.Associated(m, 10, p);
      Rounding.Associated(m + 1, 10, p);
    }
  }

  // The digits kept are those of the number written, rounded down.
  lemma {:induction false} KeptBounds(l: Literal)
    requires WellFormed(l)
    ensures var all, unit := Value(l.whole + l.fraction), Decimal.Pow(10, |l.whole + l.fraction| - |Kept(l)|);
            Value(Kept(l)) * unit <= all < (Value(Kept(l)) + 1) * unit
    ensures |l.whole + l.fraction| <= Decimal.MAX_DIGITS ==> Kept(l) == l.whole + l.fraction && !Cut(l)
  {
    hide Extended, Decimal.Pow;
    var ds, k := l.whole + l.fraction, |Kept(l)|;
    assert ds == Kept(l) + ds[k..];
    ExtendedTwice(0, Kept(l), ds[k..]);
    ExtendedBounds(Value(Kept(l)), ds[k..]);
  }

  predicate AllZero(ds: seq<nat>) { forall k :: 0 <= k < |ds| ==> ds[k] == 0 }

  lemma {:induction false} ZeroDigits(m: nat, ds: seq<nat>)
    ensures Extended(m, ds) == 0 <==> m == 0 && AllZero(ds)
    decreases |ds|
  {
    if ds != [] {
      ZeroDigits(m * 10 + ds[0], ds[1..]);
      assert ds == [ds[0]] + ds[1..];
    }
  }

  // A constant is read as zero exactly when its first 19 digits are zeros, whatever
  // follows them.
  lemma {:induction false} Vanishes(text: string, l: Literal, ok: bool, bits: Assemble.Word)
    requires WellFormed(l) && Written(text, l) && (l.exponent.Exponent? ==> Value(l.exponent.digits) <= 4000)
    requires DecimalRounding.Converted(Decimal.Parsed(text), ok, bits)
    ensures Decimal.Parsed(text).Number? && (Decimal.Parsed(text).mantissa == 0 <==> AllZero(Kept(l)))
    ensures AllZero(Kept(l)) ==> ok && bits == Assemble.Signed(l.sign == "-", 0)
    ensures Value(l.whole + l.fraction) == 0 <==> AllZero(l.whole + l.fraction)
  {
    hide Extended, Decimal.Parsed, Kept, Written;
    LiteralRead(text, l);
    ZeroDigits(0, Kept(l));
    ZeroDigits(0, l.whole + l.fraction);
  }

  function Repeated(d: nat, n: nat): seq<nat> { seq(n, _ => d) }

  // 10^-20 written out is zero.
  lemma {:induction false} VanishedConstant(ok: bool, bits: Assemble.Word)
    requires DecimalRounding.Converted(Decimal.Parsed("0.00000000000000000001"), ok, bits)
    ensures ok && bits == 0 && !DecimalRounding.Stands(0, false, 1, Decimal.Pow(10, 20))
  {
    hide Decimal.Parsed, Decimal.Pow, Extended, Written;
    var l := Literal("", [0], true, Repeated(0, 19) + [1], Absent);
    SmallWritten();
    Vanishes("0.00000000000000000001", l, ok, bits);
    NotZero();
  }

  lemma SmallWritten()
    ensures Written("0.00000000000000000001", Literal("", [0], true, Repeated(0, 19) + [1], Absent))
  {
  }

  lemma {:induction false} NotZero()
    ensures !DecimalRounding.Stands(0, false, 1, Decimal.Pow(10, 20))
  {
    hide Words.Pow2;
    Words.Pow2Is64();
    Rounding.PowersTwice(64);
    Rounding.PowersTwice(65);
    Rounding.PowersTwice(66);
    Words.PowersGrow(67, 1074);
    Rounding.PowersTwice(0);
    Decimal.TensTable(19);
    Decimal.NextPower(10, 19);
    var q := Decimal.Pow(10, 20);
    assert Rounding.Units(Rounding.BINARY64, 1) == 1 && Rounding.Finite(Rounding.BINARY64, 1);
    assert !Rounding.NotNearer(Rounding.BINARY64, DecimalRounding.LeastSubnormals(1), q, 0, 1);
  }

  // 2^53 + 1 with four zeros after the point has 20 digits: the last zero counts as more
  // than the tie it leaves, and the odd encoding above is given.
  lemma {:induction false} TiePassed(ok: bool, bits: Assemble.Word)
    requires DecimalRounding.Converted(Decimal.Parsed("9007199254740993.0000"), ok, bits)
    ensures ok && bits == 0x4340_0000_0000_0001
    ensures var m, q := 9007199254740993000, Decimal.Pow(10, 3);
            && !DecimalRounding.Stands(0x4340_0000_0000_0001, false, m, q)
            && DecimalRounding.Stands(0x4340_0000_0000_0000, false, m, q)
  {
    hide Decimal.Parsed, Decimal.Pow, DecimalRounding.TieBroken, DecimalRounding.Heard, DecimalRounding.Rounds, Extended, Written;
    var l := Literal("", TieDigits(), true, [0, 0, 0, 0], Absent);
    TieWritten();
    TieValue();
    LiteralRead("9007199254740993.0000", l);
    assert Kept(l) == TieDigits() + [0, 0, 0];
    DecimalRounding.TieAbove();
    DecimalRounding.ZerosHeard(9007199254740993000, 3);
  }

  function TieDigits(): (r: seq<nat>)
    ensures |r| == 16
  {
    [9, 0, 0, 7, 1, 9, 9, 2, 5, 4, 7, 4, 0, 9, 9, 3]
  }

  lemma TieWritten()
    ensures Written("9007199254740993.0000", Literal("", TieDigits(), true, [0, 0, 0, 0], Absent))
  {
  }

  lemma TieValue()
    ensures Value(TieDigits() + [0, 0, 0]) == 9007199254740993000
  {
    var a, b, c, d := [9, 0, 0, 7, 1], [9, 9, 2, 5, 4], [7, 4, 0, 9, 9], [3, 0, 0, 0];
    assert TieDigits() + [0, 0, 0] == a + (b + (c + d));
    FiveDigits(0, a, b + (c + d));
    FiveDigits(90071, b, c + d);
    FiveDigits(9007199254, c, d);
    assert d[1..] == [0, 0, 0] && d[1..][1..] == [0, 0] && d[1..][1..][1..] == [0] && d[1..][1..][1..][1..] == [];
  }

  lemma FiveDigits(m: nat, ds: seq<nat>, rest: seq<nat>)
    requires |ds| == 5
    ensures Extended(m, ds + rest) == Extended(m * 100000 + ds[0] * 10000 + ds[1] * 1000 + ds[2] * 100 + ds[3] * 10 + ds[4], rest)
  {
    ExtendedTwice(m, ds, rest);
    var n := m * 100 + ds[0] * 10 + ds[1];
    assert ds[1..][1..] == ds[2..] && ds[2..][1..][1..] == ds[4..] && ds[4..][1..] == [];
    assert Extended(m, ds) == Extended(n, ds[2..]) == Extended(n * 100 + ds[2] * 10 + ds[3], ds[4..]);
  }

  // 9.72309e24 is read as 972309 * 10^19 and given one encoding too low.
  lemma {:induction false} MisroundedConstant(ok: bool, bits: Assemble.Word)
    requires DecimalRounding.Converted(Decimal.Parsed("9.72309e24"), ok, bits)
    ensures ok && bits == 0x4520_15e3_87b6_6aae
    ensures var exact := 972309 * Decimal.Pow(10, 19);
            && !DecimalRounding.Stands(0x4520_15e3_87b6_6aae, false, exact, 1)
            && DecimalRounding.Stands(0x4520_15e3_87b6_6aaf, false, exact, 1)
  {
    hide Decimal.Parsed, Decimal.Pow, DecimalRounding.TieLost, DecimalRounding.Whole, DecimalRounding.Stands, Extended, Written;
    var l := Literal("", [9], true, [7, 2, 3, 0, 9], Exponent("", [2, 4]));
    ConstantWritten();
    ConstantValues();
    LiteralRead("9.72309e24", l);
    assert Kept(l) == [9, 7, 2, 3, 0, 9];
    DecimalRounding.LostTie();
  }

  lemma ConstantWritten()
    ensures Written("9.72309e24", Literal("", [9], true, [7, 2, 3, 0, 9], Exponent("", [2, 4])))
  {
  }

  lemma ConstantValues()
    ensures Value([9, 7, 2, 3, 0, 9]) == 972309 && Value([2, 4]) == 24
  {
    assert [2, 4][1..] == [4] && [4][1..] == [];
    assert [9, 7, 2, 3, 0, 9][1..] == [7, 2, 3, 0, 9] && [7, 2, 3, 0, 9][1..] == [2, 3, 0, 9] && [2, 3, 0, 9][1..] == [3, 0, 9];
    assert [3, 0, 9][1..] == [0, 9] && [0, 9][1..] == [9] && [9][1..] == [];
    assert Extended(9723, [0, 9]) == 972309;
    assert Extended(97, [2, 3, 0, 9]) == Extended(9723, [0, 9]);
  }
}
