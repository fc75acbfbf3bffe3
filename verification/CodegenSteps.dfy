// What the short straight-line sequences compute.
module CodegenSteps {
  import opened Words
  import opened Options
  import opened Ir
  import opened Lists
  import opened Machine
  import opened Ropes
  import opened Flow
  import opened Codegen

  // Only what the surrounding code relies on: the memory, the stack and the
  // two registers that outlive a normalisation.
  ghost predicate SameBut(d: Data, d': Data) {
    d'.stack == d.stack && d'.mem == d.mem && d'.r.r10 == d.r.r10 && d'.r.r11 == d.r.r11
  }

  // A value in RAX, and memory and stack as before.
  ghost predicate Yields(f: Flow, v: int, stack: List<int>, m: Mem) {
    f.Going? && f.d.r.rax == U64(v) && f.d.stack == stack && f.d.mem == m
  }

  lemma {:induction false} Pass2(h: Host, i: Instr, j: Instr, f: Flow)
    ensures Pass(h, Two(i, j), f) == Through(h, j, Through(h, i, f))
  {
  }

  lemma {:induction false} Pass3(h: Host, i: Instr, j: Instr, k: Instr, f: Flow)
    ensures Pass(h, Three(i, j, k), f) == Through(h, k, Through(h, j, Through(h, i, f)))
  {
    Pass2(h, j, k, Through(h, i, f));
  }

  lemma {:induction false} NormalizePass(h: Host, ty: Ty, d: Data, x: int)
    requires d.r.rax == U64(x)
    ensures var f := Pass(h, Normalize(ty), Going(d));
            Yields(f, Wrap(ty, x), d.stack, d.mem) && SameBut(d, f.d)
  {
    if ty.width == 8 { WrapFullWidth(ty, x); } else { WrapOfRegister(ty, x); }
  }

  lemma {:induction false} CqoSignExtends(x: int)
    ensures var hi := if S64(U64(x)) < 0 then WORD - 1 else 0;
            S64(hi) * WORD + U64(U64(x)) == S64(x)
  {
    SignedOfRegister(x);
    SignedValue(x);
    assert S64(WORD - 1) == -1;
    assert S64(0) == 0;
  }

  lemma {:induction false} QuotientFits(a: int, b: int)
    requires InRange(LONG, a) && InRange(LONG, b) && b != 0
    ensures InRange(LONG, TruncDiv(a, b)) <==> !(a == MIN64 && b == -1)
  {
    var q := Abs(a) / Abs(b);
    if Abs(b) >= 2 {
      HalfAtMost(Abs(a), Abs(b));
    } else {
      assert q == Abs(a);
    }
  }

  // The exact integer whose low bits an operator's instructions leave in RAX.
  function Exact(signed: bool, op: Operator, x: int, y: int): int
    requires op.Div? || op.Mod? ==> Divisible(signed, x, y)
  {
    match op
    case Add => x + y
    case Sub => x - y
    case Mul => x * y
    case Div => Quotient(signed, x, y)
    case Mod => Remainder(signed, x, y)
    case Shl => x * Pow2(U64(y) % 64)
    case Shr => (if signed then S64(x) else U64(x)) / Pow2(U64(y) % 64)
    case BitwiseOp(bit) => Bitwise64(bit, U64(x), U64(y))
  }

  lemma {:induction false} SignedDivideDoes(h: Host, d: Data, x: int, y: int)
    requires d.r.rax == U64(x) && d.r.rcx == U64(y)
    ensures Do(h, Cqo, d).Some?
    ensures var d1 := Do(h, Cqo, d).value;
            SameBut(d, d1) &&
            if !Divisible(true, x, y) then Do(h, Idiv, d1).None?
            else
              && Do(h, Idiv, d1).Some?
              && var d2 := Do(h, Idiv, d1).value;
                 SameBut(d, d2) && d2.r.rax == U64(Quotient(true, x, y))
                 && d2.r.rdx == U64(Remainder(true, x, y))
  {
    CqoSignExtends(x);
    SignedOfRegister(y);
    NonzeroRegister(y);
    if U64(y) != 0 { QuotientFits(S64(x), S64(y)); }
  }

  lemma {:induction false} SmallWord(x: int)
    requires 0 <= x < WORD
    ensures U64(x) == x
  {
  }

  lemma {:induction false} UnsignedDivideDoes(h: Host, d: Data, x: int, y: int)
    requires d.r.rax == U64(x) && d.r.rcx == U64(y)
    ensures var d1 := Do(h, ZeroEdx, d).value;
            SameBut(d, d1) &&
            if !Divisible(false, x, y) then Do(h, Instr.Div, d1).None?
            else
              && Do(h, Instr.Div, d1).Some?
              && var d2 := Do(h, Instr.Div, d1).value;
                 SameBut(d, d2) && d2.r.rax == U64(Quotient(false, x, y))
                 && d2.r.rdx == U64(Remainder(false, x, y))
  {
    U64Twice(x);
    U64Twice(y);
    if U64(y) != 0 {
      QuotientAtMost(U64(x), U64(y));
      SmallWord(U64(x) / U64(y));
      SmallWord(U64(x) % U64(y));
    }
  }

  lemma {:induction false} ArithmeticDoes(h: Host, d: Data, signed: bool, op: Operator, x: int, y: int)
    requires !op.Div? && !op.Mod?
    requires d.r.rax == U64(x) && d.r.rcx == U64(y)
    ensures var o := Do(h, OperatorCode(op, signed).item, d);
            o.Some? && SameBut(d, o.value) && o.value.r.rax == U64(Exact(signed, op, x, y))
  {
    U64Twice(x);
    U64Twice(y);
    match op {
      case Add => U64Add(x, y);
      case Sub => U64Sub(x, y);
      case Mul => U64Mul(x, y);
      case Shl => U64MulLeft(x, Pow2(U64(y) % 64));
      case Shr => SignedOfRegister(x);
      case BitwiseOp(bit) =>
    }
  }

  predicate Faults(signed: bool, op: Operator, x: int, y: int) {
    (op.Div? || op.Mod?) && !Divisible(signed, x, y)
  }

  lemma {:induction false} DividePass(h: Host, d: Data, signed: bool, op: Operator, x: int, y: int)
    requires op.Div? || op.Mod?
    requires d.r.rax == U64(x) && d.r.rcx == U64(y)
    ensures var f := Pass(h, OperatorCode(op, signed), Going(d));
            if Faults(signed, op, x, y) then f == Faulted
            else Yields(f, Exact(signed, op, x, y), d.stack, d.mem) && SameBut(d, f.d)
  {
    var prepare, divide := if signed then Cqo else ZeroEdx, if signed then Idiv else Instr.Div;
    if signed { SignedDivideDoes(h, d, x, y); } else { UnsignedDivideDoes(h, d, x, y); }
    Pass2(h, prepare, divide, Going(d));
    Pass3(h, prepare, divide, MovReg(RAX, RDX), Going(d));
  }

  lemma {:induction false} OperatorPass(h: Host, d: Data, ty: Ty, op: Operator, x: int, y: int)
    requires d.r.rax == U64(x) && d.r.rcx == U64(y)
    ensures var f := Pass(h, Cat(OperatorCode(op, ty.signed), Normalize(ty)), Going(d));
            match Operate(ty, op, x, y)
            case Some(v) => Yields(f, v, d.stack, d.mem) && SameBut(d, f.d)
            case None => f == Faulted
  {
    if op.Div? || op.Mod? {
      DividePass(h, d, ty.signed, op, x, y);
    } else {
      ArithmeticDoes(h, d, ty.signed, op, x, y);
    }
    if Faults(ty.signed, op, x, y) {
      PassStopped(h, Normalize(ty), Faulted);
    } else {
      NormalizePass(h, ty, Pass(h, OperatorCode(op, ty.signed), Going(d)).d, Exact(ty.signed, op, x, y));
    }
  }

  lemma {:induction false} ConditionMatches(cmp: Comparison, signed: bool, x: int, y: int)
    ensures Holds(ConditionCode(cmp, signed), U64(x), U64(y)) == Compares(cmp, signed, x, y)
  {
    SignedOfRegister(x);
    SignedOfRegister(y);
  }

  // A conditional set followed by zero extension leaves 0 or 1.
  lemma {:induction false} SetAndExtend(h: Host, d: Data, cond: Condition, x: int, y: int)
    requires d.flags == Some((x, y))
    ensures Yields(Through(h, MovzxAl, Through(h, SetCond(cond), Going(d))),
                   Bool(Holds(cond, x, y)), d.stack, d.mem)
  {
    LowByte(d.r.rax, Bool(Holds(cond, x, y)));
  }

  lemma {:induction false} LowByte(x: int, b: int)
    requires 0 <= b <= 1
    ensures (x - x % 256 + b) % 256 == U64(b)
  {
  }

  lemma {:induction false} ComparePass(h: Host, d: Data, cmp: Comparison, signed: bool, x: int, y: int)
    requires d.r.rax == U64(x) && d.r.rcx == U64(y)
    ensures Yields(Pass(h, Three(CmpRcx, SetCond(ConditionCode(cmp, signed)), MovzxAl), Going(d)),
                   Bool(Compares(cmp, signed, x, y)), d.stack, d.mem)
  {
    var cond := ConditionCode(cmp, signed);
    ConditionMatches(cmp, signed, x, y);
    Pass3(h, CmpRcx, SetCond(cond), MovzxAl, Going(d));
    SetAndExtend(h, d.(flags := Some((d.r.rax, d.r.rcx))), cond, U64(x), U64(y));
  }

  lemma {:induction false} TruthPass(h: Host, d: Data, cond: Condition, x: int)
    requires (cond == 4 || cond == 5) && d.r.rax == U64(x)
    ensures Yields(Pass(h, SetTruth(cond), Going(d)),
                   Bool(if cond == 5 then Truth(x) else !Truth(x)), d.stack, d.mem)
  {
    U64Twice(x);
    Pass3(h, TestRax, SetCond(cond), MovzxAl, Going(d));
    SetAndExtend(h, d.(flags := Some((d.r.rax, 0))), cond, U64(x), 0);
  }

  // test rax, rax; jcc: code 4 jumps on zero and 5 on anything else.
  lemma {:induction false} TestBranchPass(h: Host, d: Data, cond: Condition, l: Label, x: int)
    requires (cond == 4 || cond == 5) && d.r.rax == U64(x)
    ensures var tested := d.(flags := Some((d.r.rax, 0)));
            Pass(h, Two(TestRax, Jcc(cond, l)), Going(d))
            == if Truth(x) == (cond == 5) then Seeking(l, tested) else Going(tested)
  {
    U64Twice(x);
    Pass2(h, TestRax, Jcc(cond, l), Going(d));
  }

  lemma {:induction false} AddImmediatePass(h: Host, d: Data, step: int, x: int)
    requires d.r.rax == U64(x)
    ensures var f := Pass(h, AddImmediate(step), Going(d));
            Yields(f, x + step, d.stack, d.mem) && SameBut(d, f.d)
  {
    U64AddRight(x, step);
    U64Add(x, step);
    Pass2(h, MovImm64(RCX, step), AddRcx, Going(d));
  }

  lemma {:induction false} UnaryPass(h: Host, d: Data, ty: Ty, uop: UnaryOp, x: int)
    requires d.r.rax == U64(x)
    ensures Yields(Pass(h, Cat(One(if uop == Neg then NegRax else NotRax), Normalize(ty)), Going(d)),
                   Wrap(ty, if uop == Neg then -x else -x - 1), d.stack, d.mem)
  {
    U64Negate(x);
    U64Twice(x);
    SmallWord(WORD - 1 - U64(x));
    var i := if uop == Neg then NegRax else NotRax;
    NormalizePass(h, ty, Pass(h, One(i), Going(d)).d, if uop == Neg then -x else -x - 1);
  }

  // Taking the operands of a two-operand instruction.
  lemma {:induction false} TakePass(h: Host, d: Data, below: List<int>, x: int)
    requires d.stack == Cons(x, below)
    ensures var f := Pass(h, TakeOperands(), Going(d));
            f.Going? && f.d.r.rax == x && f.d.r.rcx == d.r.rax && f.d.stack == below && f.d.mem == d.mem
  {
    Pass2(h, MovReg(RCX, RAX), Pop(RAX), Going(d));
  }

  lemma {:induction false} StorePass(h: Host, d: Data, ty: Ty, p: int, v: int)
    requires d.r.rax == U64(p) && d.r.rcx == U64(v)
    ensures Yields(Pass(h, Two(StoreReg(ty.width, RCX, RAX), MovReg(RAX, RCX)), Going(d)),
                   v, d.stack, StoreValue(d.mem, ty, p, v))
  {
    U64Twice(p);
    U64Twice(v);
    Pass2(h, StoreReg(ty.width, RCX, RAX), MovReg(RAX, RCX), Going(d));
  }

  // Storing through the address the stack holds; the value stays in RAX.
  lemma {:induction false} WriteBackPass(h: Host, d: Data, ty: Ty, below: List<int>, p: int)
    requires d.stack == Cons(U64(p), below) && d.r.rax == U64(d.r.rax)
    ensures var f := Pass(h, WriteBack(ty), Going(d));
            f.Going? && f.d.r.rax == d.r.rax && f.d.r.r10 == d.r.r10 && f.d.stack == below
            && f.d.mem == StoreValue(d.mem, ty, p, d.r.rax)
  {
    U64Twice(p);
    Pass2(h, Pop(R11), StoreReg(ty.width, RAX, R11), Going(d));
  }
}
