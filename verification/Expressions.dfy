// Conditional expressions of the preprocessor: the same climbing, computing
// 64-bit values as it goes (section 6.10.1 of C17).
module Expressions {
  import opened Options
  import opened Lists
  import opened Words
  import opened Precedence

  function Truth(b: bool): Value { Value(if b then 1 else 0, false) }

  // One operator on two words: signed arithmetic when both are signed, unsigned
  // when either is not.  Only a division by zero has no value.
  function Compute(s: Symbol, a: Value, b: Value): Option<Value> {
    if !a.unsigned && !b.unsigned then ComputeSigned(s, S64(a.bits), S64(b.bits)) else ComputeUnsigned(s, U64(a.bits), U64(b.bits))
  }

  function ComputeSigned(s: Symbol, x: int, y: int): Option<Value> {
    match s
    case Plus => Some(Value(U64(x + y), false))
    case Minus => Some(Value(U64(x - y), false))
    case Star => Some(Value(U64(x * y), false))
    case Slash => if y == 0 then None else Some(Value(U64(TruncDiv(x, y)), false))
    case Percent => if y == 0 then None else Some(Value(U64(TruncMod(x, y)), false))
    case Less => Some(Truth(x < y))
    case Greater => Some(Truth(x > y))
    case LessEqual => Some(Truth(x <= y))
    case GreaterEqual => Some(Truth(x >= y))
    case ShiftLeft => Some(Value(U64(x * Pow2(U64(y) % 64)), false))
    case ShiftRight => Some(Value(U64(x / Pow2(U64(y) % 64)), false))
    case _ => ComputeBits(s, U64(x), U64(y), false)
  }

  function ComputeUnsigned(s: Symbol, x: nat, y: nat): Option<Value> {
    match s
    case Plus => Some(Value(U64(x + y), true))
    case Minus => Some(Value(U64(x - y), true))
    case Star => Some(Value(U64(x * y), true))
    case Slash => if y == 0 then None else Some(Value(U64(x / y), true))
    case Percent => if y == 0 then None else Some(Value(U64(x % y), true))
    case Less => Some(Truth(x < y))
    case Greater => Some(Truth(x > y))
    case LessEqual => Some(Truth(x <= y))
    case GreaterEqual => Some(Truth(x >= y))
    case ShiftLeft => Some(Value(U64(x * Pow2(y % 64)), true))
    case ShiftRight => Some(Value(U64(x / Pow2(y % 64)), true))
    case _ => ComputeBits(s, x, y, true)
  }

  function ComputeBits(s: Symbol, x: nat, y: nat, unsigned: bool): Option<Value> {
    match s
    case Equal => Some(Truth(x == y))
    case NotEqual => Some(Truth(x != y))
    case Ampersand => Some(Value(Bitwise64(And, x, y), unsigned))
    case Bar => Some(Value(Bitwise64(Or, x, y), unsigned))
    case Caret => Some(Value(Bitwise64(Xor, x, y), unsigned))
    case AndAnd => Some(Truth(x != 0 && y != 0))
    case OrOr => Some(Truth(x != 0 || y != 0))
    case _ => None
  }

  function Prefixed(s: Symbol, a: Value): Value {
    match s
    case Bang => Truth(U64(a.bits) == 0)
    case Tilde => Value(WORD - 1 - U64(a.bits), a.unsigned)
    case Minus => Value(U64(-U64(a.bits)), a.unsigned)
    case _ => a
  }

  // The value of a tree, every operand computed, those of && and || as well.
  function Evaluate(t: Tree): Option<Value> {
    match t
    case Leaf(v) => Some(v)
    case Prefix(s, a) =>
      var x := Evaluate(a);
      if x.None? then None else Some(Prefixed(s, x.value))
    case Binary(s, a, b) =>
      var x, y := Evaluate(a), Evaluate(b);
      if x.None? || y.None? then None else Compute(s, x.value, y.value)
  }

  function ParseOperandValue(ts: List<Token>): (p: Parsed<Value>)
    ensures p.Parsed? ==> Len(p.rest) < Len(ts)
    decreases Len(ts), 0
  {
    match ts
    case Nil => Failed
    case Cons(Literal(v), rest) => Parsed(v, rest)
    case Cons(Sym(s), rest) =>
      if IsPrefix(s) then
        var operand := ParseOperandValue(rest);
        if operand.Failed? then Failed else Parsed(Prefixed(s, operand.result), operand.rest)
      else if s == Open then
        var inner := ParseValue(rest, 0);
        if inner.Failed? || inner.rest.Nil? || inner.rest.head != Sym(Close) then Failed else Parsed(inner.result, inner.rest.tail)
      else Failed
  }

  function ParseValue(ts: List<Token>, minimum: nat): (p: Parsed<Value>)
    ensures p.Parsed? ==> Len(p.rest) < Len(ts)
    decreases Len(ts), 2
  {
    var first := ParseOperandValue(ts);
    if first.Failed? then Failed else ClimbValue(first.result, first.rest, minimum)
  }

  function ClimbValue(left: Value, ts: List<Token>, minimum: nat): (p: Parsed<Value>)
    ensures p.Parsed? ==> Len(p.rest) <= Len(ts)
    decreases Len(ts), 1
  {
    if Level(ts) == 0 || Level(ts) < minimum then Parsed(left, ts)
    else
      var right := ParseValue(ts.tail, Level(ts) + 1);
      if right.Failed? then Failed
      else
        var computed := Compute(ts.head.symbol, left, right.result);
        if computed.None? then Failed else ClimbValue(computed.value, right.rest, minimum)
  }

  // The value of a parse: that of its tree, if it has one.
  function Valued(p: Parsed<Tree>): Parsed<Value> {
    if p.Failed? || Evaluate(p.result).None? then Failed else Parsed(Evaluate(p.result).value, p.rest)
  }

  lemma {:induction false} OperandValue(ts: List<Token>)
    ensures ParseOperandValue(ts) == Valued(ParseOperand(ts))
    decreases Len(ts), 0
  {
    hide Prefixed;
    match ts {
      case Nil =>
      case Cons(Literal(_), _) =>
      case Cons(Sym(s), rest) => if IsPrefix(s) { OperandValue(rest); } else { BinaryValue(rest, 0); }
    }
  }

  // Computing while parsing is parsing and then computing.
  lemma {:induction false} BinaryValue(ts: List<Token>, minimum: nat)
    ensures ParseValue(ts, minimum) == Valued(ParseBinary(ts, minimum))
    decreases Len(ts), 2
  {
    hide Evaluate;
    OperandValue(ts);
    var first := ParseOperand(ts);
    if first.Parsed? {
      ClimbValued(first.result, first.rest, minimum);
    }
  }

  lemma {:induction false} ClimbValued(left: Tree, ts: List<Token>, minimum: nat)
    ensures Evaluate(left).Some? ==> ClimbValue(Evaluate(left).value, ts, minimum) == Valued(Climb(left, ts, minimum))
    ensures Evaluate(left).None? ==> Valued(Climb(left, ts, minimum)) == Failed
    decreases Len(ts), 1
  {
    hide Compute;
    if Level(ts) > 0 && Level(ts) >= minimum {
      BinaryValue(ts.tail, Level(ts) + 1);
      var right := ParseBinary(ts.tail, Level(ts) + 1);
      if right.Parsed? { ClimbValued(Binary(ts.head.symbol, left, right.result), right.rest, minimum); }
    }
  }

  predicate Divides(s: Symbol) { s == Slash || s == Percent }

  // Some subtree divides by zero.
  predicate DividesByZero(t: Tree) {
    match t
    case Leaf(_) => false
    case Prefix(_, a) => DividesByZero(a)
    case Binary(s, a, b) =>
      DividesByZero(a) || DividesByZero(b) || (Divides(s) && Evaluate(b).Some? && U64(Evaluate(b).value.bits) == 0)
  }

  lemma {:induction false} ComputeFails(s: Symbol, a: Value, b: Value)
    requires BinaryPrecedence(s) > 0
    ensures Compute(s, a, b).None? <==> Divides(s) && U64(b.bits) == 0
  {
    hide Bitwise64;
    SignedOfRegister(b.bits);
  }

  lemma {:induction false} FailsOnlyOnZero(t: Tree)
    requires WellFormed(t)
    ensures Evaluate(t).None? <==> DividesByZero(t)
  {
    hide Compute;
    match t {
      case Leaf(_) =>
      case Prefix(_, a) => FailsOnlyOnZero(a);
      case Binary(s, a, b) =>
        FailsOnlyOnZero(a);
        FailsOnlyOnZero(b);
        if Evaluate(a).Some? && Evaluate(b).Some? { ComputeFails(s, Evaluate(a).value, Evaluate(b).value); }
    }
  }

  // On the printed tokens of any tree the preprocessor computes the tree's value
  // and leaves nothing over, unless some subtree divides by zero.
  lemma {:induction false} PrintedValue(t: Tree)
    requires WellFormed(t)
    ensures ParseValue(Print(t, 0, Nil), 0).Failed? <==> DividesByZero(t)
    ensures !DividesByZero(t) ==> Evaluate(t).Some? && ParseValue(Print(t, 0, Nil), 0) == Parsed(Evaluate(t).value, Nil)
  {
    hide Evaluate, DividesByZero;
    RoundTrip(t);
    BinaryValue(Print(t, 0, Nil), 0);
    FailsOnlyOnZero(t);
  }

  // What C says of a value: a number in a signed or an unsigned 64-bit type
  // (section 6.10.1 of C17 takes intmax_t and uintmax_t).
  function Numeral(a: Value): int { if a.unsigned then U64(a.bits) else S64(a.bits) }

  // A result of a type: reduced when unsigned, undefined when a signed type does
  // not hold it.
  function InType(unsigned: bool, x: int): Option<Value> {
    if unsigned || InRange(LONG, x) then Some(Value(U64(x), unsigned)) else None
  }

  predicate Shifts(s: Symbol) { s == ShiftLeft || s == ShiftRight }

  // The operators of section 6.5 of C17 on operands brought to their common type.
  // A shift has the type of its left operand.
  function Meant(s: Symbol, a: Value, b: Value): Option<Value> {
    if Shifts(s) then MeantShift(s, a, Numeral(b))
    else
      var unsigned := a.unsigned || b.unsigned;
      var x, y := Numeral(a.(unsigned := unsigned)), Numeral(b.(unsigned := unsigned));
      match s
      case Plus => InType(unsigned, x + y)
      case Minus => InType(unsigned, x - y)
      case Star => InType(unsigned, x * y)
      case Slash => if y == 0 then None else InType(unsigned, TruncDiv(x, y))
      case Percent => if y == 0 || InType(unsigned, TruncDiv(x, y)).None? then None else InType(unsigned, TruncMod(x, y))
      case Less => Some(Truth(x < y))
      case Greater => Some(Truth(x > y))
      case LessEqual => Some(Truth(x <= y))
      case GreaterEqual => Some(Truth(x >= y))
      case Equal => Some(Truth(x == y))
      case NotEqual => Some(Truth(x != y))
      case Ampersand => Some(Value(Bitwise64(And, U64(x), U64(y)), unsigned))
      case Bar => Some(Value(Bitwise64(Or, U64(x), U64(y)), unsigned))
      case Caret => Some(Value(Bitwise64(Xor, U64(x), U64(y)), unsigned))
      case AndAnd => Some(Truth(Numeral(a) != 0 && Numeral(b) != 0))
      case OrOr => Some(Truth(Numeral(a) != 0 || Numeral(b) != 0))
      case _ => None
  }

  function MeantShift(s: Symbol, a: Value, count: int): Option<Value> {
    var x := Numeral(a);
    if !(0 <= count < 64) || (s == ShiftLeft && x < 0) then None
    else InType(a.unsigned, if s == ShiftLeft then x * Pow2(count) else x / Pow2(count))
  }

  function MeantPrefix(s: Symbol, a: Value): Option<Value> {
    match s
    case Bang => Some(Truth(Numeral(a) == 0))
    case Tilde => InType(a.unsigned, -Numeral(a) - 1)
    case Minus => InType(a.unsigned, -Numeral(a))
    case _ => Some(a)
  }

  // Whether && or || comes to its right operand.
  predicate GoesOn(s: Symbol, x: Value) {
    !(s == AndAnd && Numeral(x) == 0) && !(s == OrOr && Numeral(x) != 0)
  }

  // C's value of a tree, if it gives it one.
  function Lazy(t: Tree): Option<Value> {
    match t
    case Leaf(v) => Some(v)
    case Prefix(s, a) =>
      var x := Lazy(a);
      if x.None? then None else MeantPrefix(s, x.value)
    case Binary(s, a, b) =>
      var x := Lazy(a);
      if x.None? then None
      else if !GoesOn(s, x.value) then Some(Truth(s == OrOr))
      else
        var y := Lazy(b);
        if y.None? then None else Meant(s, x.value, y.value)
  }

  // Whether C gives a tree an unsigned type.
  predicate Unsigned(t: Tree) {
    match t
    case Leaf(v) => v.unsigned
    case Prefix(s, a) => s != Bang && Unsigned(a)
    case Binary(s, a, b) =>
      if Shifts(s) then Unsigned(a)
      else if s in {Less, Greater, LessEqual, GreaterEqual, Equal, NotEqual, AndAnd, OrOr} then false
      else Unsigned(a) || Unsigned(b)
  }

  lemma {:induction false} TypeIsStatic(t: Tree)
    requires Lazy(t).Some?
    ensures Lazy(t).value.unsigned == Unsigned(t)
  {
    match t {
      case Leaf(_) =>
      case Prefix(_, a) => TypeIsStatic(a);
      case Binary(s, a, b) =>
        TypeIsStatic(a);
        if GoesOn(s, Lazy(a).value) {
          TypeIsStatic(b);
          MeantType(s, Lazy(a).value, Lazy(b).value);
        }
    }
  }

  lemma {:induction false} MeantType(s: Symbol, a: Value, b: Value)
    requires Meant(s, a, b).Some?
    ensures Meant(s, a, b).value.unsigned
         == if Shifts(s) then a.unsigned
            else if s in {Less, Greater, LessEqual, GreaterEqual, Equal, NotEqual, AndAnd, OrOr} then false
            else a.unsigned || b.unsigned
  {
    hide U64, S64, TruncDiv, TruncMod, Bitwise64, Pow2, InRange;
  }

  // C comes to a shift whose left operand is signed and whose right one is not.
  predicate MixedShift(t: Tree) {
    match t
    case Leaf(_) => false
    case Prefix(_, a) => MixedShift(a)
    case Binary(s, a, b) =>
      || MixedShift(a)
      || (Lazy(a).Some? && GoesOn(s, Lazy(a).value) && (MixedShift(b) || (Shifts(s) && !Unsigned(a) && Unsigned(b))))
  }

  // The computed value is C's here and wherever C comes to.
  predicate AgreesThroughout(t: Tree) {
    && Evaluate(t) == Lazy(t)
    && match t
       case Leaf(_) => true
       case Prefix(_, a) => AgreesThroughout(a)
       case Binary(s, a, b) => AgreesThroughout(a) && (Lazy(a).Some? && GoesOn(s, Lazy(a).value) ==> AgreesThroughout(b))
  }

  lemma {:induction false} NaturalQuotient(x: nat, y: nat)
    requires y > 0
    ensures TruncDiv(x, y) == x / y && TruncMod(x, y) == x % y
  {
    assert x == y * (x / y) + x % y;
  }

  lemma {:induction false} ZeroNumeral(a: Value)
    ensures Numeral(a) == 0 <==> U64(a.bits) == 0
  {
    SignedOfRegister(a.bits);
  }

  // Where C gives an operation a value, the code computes it, unless it is a shift
  // of a signed operand by an unsigned one: that comes out unsigned.
  lemma {:induction false} ComputeIsMeant(s: Symbol, a: Value, b: Value)
    requires Meant(s, a, b).Some?
    ensures Compute(s, a, b) == Meant(s, a, b) <==> !(Shifts(s) && !a.unsigned && b.unsigned)
  {
    if Shifts(s) { ShiftIsMeant(s, a, b); }
    else if s in {Equal, NotEqual, AndAnd, OrOr} { TruthIsMeant(s, a, b); }
    else { ArithmeticIsMeant(s, a, b); }
  }

  lemma {:induction false} ShiftIsMeant(s: Symbol, a: Value, b: Value)
    requires Shifts(s) && Meant(s, a, b).Some?
    ensures Compute(s, a, b) == Meant(s, a, b) <==> !(!a.unsigned && b.unsigned)
  {
    hide U64, S64, Pow2;
    CountMeant(b);
  }

  lemma {:induction false} TruthIsMeant(s: Symbol, a: Value, b: Value)
    requires s in {Equal, NotEqual, AndAnd, OrOr}
    ensures Compute(s, a, b) == Meant(s, a, b)
  {
    hide U64, S64, Pow2, Bitwise64;
    ZeroNumeral(a);
    ZeroNumeral(b);
    SignedOfRegister(a.bits);
    SignedOfRegister(b.bits);
    U64Twice(a.bits);
    U64Twice(b.bits);
    SignedValue(a.bits);
    SignedValue(b.bits);
  }

  lemma {:induction false} ArithmeticIsMeant(s: Symbol, a: Value, b: Value)
    requires !Shifts(s) && s !in {Equal, NotEqual, AndAnd, OrOr} && Meant(s, a, b).Some?
    ensures Compute(s, a, b) == Meant(s, a, b)
  {
    hide U64, S64, TruncDiv, TruncMod, Bitwise64, Pow2;
    SignedOfRegister(a.bits);
    SignedOfRegister(b.bits);
    U64Twice(a.bits);
    U64Twice(b.bits);
    var y := U64(b.bits);
    if y > 0 { NaturalQuotient(U64(a.bits), y); }
  }

  lemma {:induction false} CountMeant(b: Value)
    ensures 0 <= Numeral(b) < 64 ==> U64(b.bits) % 64 == Numeral(b) && U64(S64(b.bits)) % 64 == Numeral(b)
  {
    hide U64, S64;
    SignedOfRegister(b.bits);
    SignedValue(b.bits);
  }

  lemma {:induction false} PrefixIsMeant(s: Symbol, a: Value)
    ensures MeantPrefix(s, a).Some? ==> MeantPrefix(s, a).value == Prefixed(s, a)
  {
    hide U64, S64;
    ZeroNumeral(a);
    SignedOfRegister(a.bits);
    U64Twice(a.bits);
    U64Negate(a.bits);
    U64Negate(S64(a.bits));
    Complements(U64(a.bits));
    Complements(S64(a.bits));
  }

  lemma {:induction false} Complements(x: int)
    ensures U64(-x - 1) == WORD - 1 - U64(x)
  {
    var q := x / WORD;
    ModUnique(-x - 1, -q - 1, WORD - 1 - U64(x), WORD);
  }

  lemma {:induction false} Decided(s: Symbol, x: Value, y: Value)
    requires !GoesOn(s, x)
    ensures Compute(s, x, y) == Some(Truth(s == OrOr))
  {
    ZeroNumeral(x);
    SignedOfRegister(x.bits);
  }

  // Where C gives a tree a value, the preprocessor computes it and that of every
  // operand C comes to exactly when nothing divides by zero, not even where C does
  // not look, and C comes to no shift of a signed operand by an unsigned one.
  lemma {:induction false} EagerAgrees(t: Tree)
    requires WellFormed(t) && Lazy(t).Some?
    ensures AgreesThroughout(t) <==> !DividesByZero(t) && !MixedShift(t)
  {
    hide Compute, Meant, Prefixed, MeantPrefix, GoesOn, Numeral, Unsigned;
    FailsOnlyOnZero(t);
    match t {
      case Leaf(_) =>
      case Prefix(s, a) =>
        EagerAgrees(a);
        PrefixIsMeant(s, Lazy(a).value);
      case Binary(s, a, b) =>
        EagerAgrees(a);
        FailsOnlyOnZero(a);
        FailsOnlyOnZero(b);
        var x := Lazy(a).value;
        if GoesOn(s, x) {
          EagerAgrees(b);
          TypeIsStatic(a);
          TypeIsStatic(b);
          ComputeIsMeant(s, x, Lazy(b).value);
        } else if Evaluate(b).Some? {
          Decided(s, x, Evaluate(b).value);
        }
    }
  }

  // Without such a shift only a division by zero tells the two apart.
  lemma {:induction false} EagerUnlessDivision(t: Tree)
    requires WellFormed(t) && Lazy(t).Some? && !MixedShift(t)
    ensures Evaluate(t) == Lazy(t) <==> !DividesByZero(t)
  {
    hide DividesByZero, MixedShift, Lazy, Evaluate;
    FailsOnlyOnZero(t);
    EagerAgrees(t);
  }

  // (1 << 1u) - 3 < 0 holds in C, and not here.
  lemma {:induction false} ShiftExample()
    ensures var shift := Binary(ShiftLeft, Leaf(Value(1, false)), Leaf(Value(1, true)));
            var t := Binary(Less, Binary(Minus, shift, Leaf(Value(3, false))), Leaf(Value(0, false)));
            Lazy(t) == Some(Truth(true)) && Evaluate(t) == Some(Truth(false))
  {
    hide Compute, Meant;
    OneShifted();
    LessThree(false);
    LessThree(true);
    var shift := Binary(ShiftLeft, Leaf(Value(1, false)), Leaf(Value(1, true)));
    assert Lazy(shift) == Some(Value(2, false)) && Evaluate(shift) == Some(Value(2, true));
    var difference := Binary(Minus, shift, Leaf(Value(3, false)));
    assert Lazy(difference) == Some(Value(WORD - 1, false)) && Evaluate(difference) == Some(Value(WORD - 1, true));
  }

  lemma OneShifted()
    ensures Meant(ShiftLeft, Value(1, false), Value(1, true)) == Some(Value(2, false))
    ensures Compute(ShiftLeft, Value(1, false), Value(1, true)) == Some(Value(2, true))
  {
    assert Pow2(1) == 2;
  }

  lemma LessThree(unsigned: bool)
    ensures var two, three, zero := Value(2, unsigned), Value(3, false), Value(0, false);
            && Meant(Minus, two, three) == Compute(Minus, two, three) == Some(Value(WORD - 1, unsigned))
            && Meant(Less, Value(WORD - 1, unsigned), zero) == Compute(Less, Value(WORD - 1, unsigned), zero) == Some(Truth(!unsigned))
  {
    hide Pow2, Bitwise64, TruncDiv, TruncMod, U64, S64;
    SmallWord(2);
    SmallWord(3);
    SmallWord(0);
    AllOnes();
  }

  lemma SmallWord(x: nat)
    requires x < 8
    ensures U64(x) == x && S64(x) == x
  {
    ModUnique(x, 0, x, WORD);
  }

  lemma AllOnes()
    ensures U64(-1) == WORD - 1 && U64(WORD - 1) == WORD - 1 && S64(WORD - 1) == -1
  {
    ModUnique(-1, -1, WORD - 1, WORD);
    ModUnique(WORD - 1, 0, WORD - 1, WORD);
  }

  // 0 && 1 / 0 is 0 in C, and an error here.
  lemma {:induction false} GuardedDivision()
    ensures var zero, one := Leaf(Value(0, false)), Leaf(Value(1, false));
            var t := Binary(AndAnd, zero, Binary(Slash, one, zero));
            Lazy(t) == Some(Truth(false)) && ParseValue(Print(t, 0, Nil), 0) == Failed
  {
    var zero, one := Leaf(Value(0, false)), Leaf(Value(1, false));
    var division := Binary(Slash, one, zero);
    assert Evaluate(zero) == Some(Value(0, false));
    assert DividesByZero(division);
    PrintedValue(Binary(AndAnd, zero, division));
  }

  // Signed arithmetic is exact whenever the result is a 64-bit signed number.
  lemma {:induction false} SignedExact(a: Value, b: Value)
    requires !a.unsigned && !b.unsigned
    ensures var x, y := S64(a.bits), S64(b.bits);
            && (InRange(LONG, x + y) ==> S64(Compute(Plus, a, b).value.bits) == x + y)
            && (InRange(LONG, x - y) ==> S64(Compute(Minus, a, b).value.bits) == x - y)
            && (InRange(LONG, x * y) ==> S64(Compute(Star, a, b).value.bits) == x * y)
            && (y != 0 && InRange(LONG, TruncDiv(x, y)) ==> S64(Compute(Slash, a, b).value.bits) == TruncDiv(x, y))
  {
    hide U64, S64, TruncDiv;
    var x, y := S64(a.bits), S64(b.bits);
    Returns(x + y);
    Returns(x - y);
    Returns(x * y);
    if y != 0 { Returns(TruncDiv(x, y)); }
  }

  lemma {:induction false} Returns(x: int)
    ensures InRange(LONG, x) ==> S64(U64(x)) == x
  {
    SignedOfRegister(x);
    if InRange(LONG, x) { WrapInRange(LONG, x); }
  }

  // The preprocessor's parser and its position.
  class ValueParser {
    const tokens: seq<Token>
    var position: nat

    ghost predicate Valid()
      reads this
    {
      position <= |tokens|
    }

    ghost function Rest(): List<Token>
      reads this
      requires Valid()
    {
      From(tokens, position)
    }

    constructor (tokens: seq<Token>)
      ensures Valid() && this.tokens == tokens && position == 0
    {
      this.tokens := tokens;
      position := 0;
    }

    method Operand() returns (ok: bool, value: Value)
      requires Valid()
      modifies this
      ensures Valid() && position >= old(position) && (ok ==> position > old(position))
      ensures var p := ParseOperandValue(old(Rest())); ok == p.Parsed? && (ok ==> p == Parsed(value, Rest()))
      decreases |tokens| - position, 0
    {
      hide Prefixed;
      value := Value(0, false);
      if position >= |tokens| { return false, value; }
      var token := tokens[position];
      position := position + 1;
      if token.Literal? { return true, token.value; }
      if IsPrefix(token.symbol) {
        var operand;
        ok, operand := Operand();
        return ok, Prefixed(token.symbol, operand);
      }
      if token.symbol != Open { return false, value; }
      ok, value := BinaryLevel(0);
      if ok {
        ok := position < |tokens| && tokens[position] == Sym(Close);
        if ok { position := position + 1; }
      }
    }

    method BinaryLevel(minimum: nat) returns (ok: bool, value: Value)
      requires Valid()
      modifies this
      ensures Valid() && position >= old(position) && (ok ==> position > old(position))
      ensures var p := ParseValue(old(Rest()), minimum); ok == p.Parsed? && (ok ==> p == Parsed(value, Rest()))
      decreases |tokens| - position, 1
    {
      hide Compute, BinaryPrecedence;
      ghost var start := position;
      ok, value := Operand();
      if !ok { return; }
      while position < |tokens| && tokens[position].Sym? && BinaryPrecedence(tokens[position].symbol) > 0
            && BinaryPrecedence(tokens[position].symbol) >= minimum
        invariant Valid() && position > start && ok
        invariant ParseValue(old(Rest()), minimum) == ClimbValue(value, Rest(), minimum)
        decreases |tokens| - position
      {
        var symbol := tokens[position].symbol;
        assert Rest() == Cons(Sym(symbol), From(tokens, position + 1)) && Level(Rest()) == BinaryPrecedence(symbol);
        position := position + 1;
        var right;
        ok, right := BinaryLevel(BinaryPrecedence(symbol) + 1);
        if !ok { return; }
        var computed := Compute(symbol, value, right);
        if computed.None? { return false, value; }
        value := computed.value;
      }
    }
  }
}
