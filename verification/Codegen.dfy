// The instructions the encoder emits for an expression tree, as a function of
// the tree and the number of words the enclosing code has already pushed.
module Codegen {
  import opened Words
  import opened Ir
  import opened Machine
  import opened Ropes
  import opened Lists
  import opened Flow

  function Two(i: Instr, j: Instr): Code { Cat(One(i), One(j)) }

  function Three(i: Instr, j: Instr, k: Instr): Code { Cat(One(i), Two(j, k)) }

  // A value narrower than a register is brought back to its type.
  function Normalize(ty: Ty): Code {
    if ty.width == 8 then Empty else One(Extend(ty))
  }

  function OperatorCode(op: Operator, signed: bool): Code {
    match op
    case Add => One(AddRcx)
    case Sub => One(SubRcx)
    case Mul => One(ImulRcx)
    case Div => if signed then Two(Cqo, Idiv) else Two(ZeroEdx, Instr.Div)
    case Mod =>
      if signed then Three(Cqo, Idiv, MovReg(RAX, RDX)) else Three(ZeroEdx, Instr.Div, MovReg(RAX, RDX))
    case Shl => One(ShlCl)
    case Shr => One(if signed then SarCl else ShrCl)
    case BitwiseOp(bit) => One(BitRcx(bit))
  }

  function ConditionCode(cmp: Comparison, signed: bool): Condition {
    match cmp
    case Equal => 4
    case NotEqual => 5
    case Less => if signed then 12 else 2
    case LessEqual => if signed then 14 else 6
    case Greater => if signed then 15 else 7
    case GreaterEqual => if signed then 13 else 3
  }

  function AddImmediate(step: int): Code {
    if -0x8000_0000 <= step <= 0x7fff_ffff then One(AddImm(step))
    else Two(MovImm64(RCX, step), AddRcx)
  }

  function StackUnits(args: List<Expr>): nat {
    if Len(args) <= REGISTER_ARGS then 0 else Len(args) - REGISTER_ARGS
  }

  // One word of padding when the stack would otherwise be misaligned at the call.
  function Padding(args: List<Expr>, depth: nat): nat {
    (depth + StackUnits(args)) % 2
  }

  function Release(words: nat): Code {
    if words == 0 then Empty else One(AddRsp(8 * words))
  }

  // Load-back, last register argument first.
  function PopArguments(i: nat, count: nat): Code
    requires count <= REGISTER_ARGS
    decreases count - i
  {
    if i >= count then Empty else Cat(PopArguments(i + 1, count), One(Pop(ArgumentRegister(i))))
  }

  function RegisterCount(args: List<Expr>): (n: nat)
    ensures n <= REGISTER_ARGS && n + StackUnits(args) == Len(args)
  {
    if Len(args) <= REGISTER_ARGS then Len(args) else REGISTER_ARGS
  }

  // AL reports the vector registers used: none.
  function VectorCount(callee: Callee): Code {
    if callee.Direct? && callee.variadic then One(ZeroEax) else Empty
  }

  function CallInstr(callee: Callee): Instr {
    if callee.Direct? then CallSymbol(callee.sym) else CallR11
  }

  function Cleanup(ty: Ty, args: List<Expr>, padding: nat): Code {
    Cat(Release(StackUnits(args)), Cat(Release(padding), Normalize(ty)))
  }

  // The sequence after the arguments are waiting on the stack.
  function CallTail(ty: Ty, callee: Callee, args: List<Expr>, padding: nat): Code {
    Cat(PopArguments(0, RegisterCount(args)),
        Cat(VectorCount(callee), Cat(One(CallInstr(callee)), Cleanup(ty, args, padding))))
  }

  function Pad(padding: nat): Code {
    if padding == 0 then Empty else One(SubRsp8)
  }

  // The second operand moves to RCX and the first comes back from the stack.
  function TakeOperands(): Code { Two(MovReg(RCX, RAX), Pop(RAX)) }

  // Store through the address kept on the stack.
  function WriteBack(ty: Ty): Code { Two(Pop(R11), StoreReg(ty.width, RAX, R11)) }

  // test rax, rax; setcc al; movzx eax, al.
  function SetTruth(cond: Condition): Code { Three(TestRax, SetCond(cond), MovzxAl) }

  // Two operands: the first waits on the stack while the second is computed.
  function Operands(a: Code, b: Code, rest: Code): Code {
    Cat(Cat(a, One(Push(RAX))), Cat(Cat(b, TakeOperands()), rest))
  }

  function LogicalCode(isAnd: bool, a: Code, b: Code, skip: Label, end: Label): Code {
    Cat(Cat(a, Two(TestRax, Jcc(if isAnd then 4 else 5, skip))),
        Cat(Cat(b, Cat(SetTruth(5), One(Jmp(end)))),
            Three(Lab(skip), if isAnd then ZeroEax else MovImm32(RAX, 1), Lab(end))))
  }

  function ConditionalCode(a: Code, b: Code, c: Code, otherwise: Label, end: Label): Code {
    Cat(Cat(a, Two(TestRax, Jcc(4, otherwise))),
        Cat(Cat(b, One(Jmp(end))),
            Cat(One(Lab(otherwise)), Cat(c, One(Lab(end))))))
  }

  function Gen(e: Expr, env: Env, depth: nat): Code {
    match e
    case Const(ty, imm) =>
      One(if (ty.width < 8 && ty.signed) || ty.width == 8 then MovImm64(RAX, imm) else MovImm32(RAX, imm))
    case LoadSym(ty, sym) => One(if sym in env.locals then LoadLocal(ty, sym) else LoadGlobal(ty, sym))
    case Load(ty, addr) => Cat(Gen(addr, env, depth), One(LoadRax(ty)))
    case Store(ty, addr, value) =>
      Operands(Gen(addr, env, depth), Gen(value, env, depth + 1),
               Two(StoreReg(ty.width, RCX, RAX), MovReg(RAX, RCX)))
    case AddrSym(sym) => One(if sym in env.locals then LeaLocal(sym) else LeaGlobal(sym))
    case AddrOf(place) => Gen(place, env, depth)
    case Member(base, offset) =>
      Cat(Gen(base, env, depth),
          if offset == 0 then Empty
          else One(if 0 <= offset <= 0x7fff_ffff then AddImm(offset) else MovImm64(RAX, Wrap(INT, offset))))
    case Binary(ty, op, a, b) =>
      Operands(Gen(a, env, depth), Gen(b, env, depth + 1), Cat(OperatorCode(op, ty.signed), Normalize(ty)))
    case Compare(cmp, a, b) =>
      Operands(Gen(a, env, depth), Gen(b, env, depth + 1),
               Three(CmpRcx, SetCond(ConditionCode(cmp, TypeOf(a).signed)), MovzxAl))
    case Unary(ty, uop, a) =>
      Cat(Gen(a, env, depth), Cat(One(if uop == Neg then NegRax else NotRax), Normalize(ty)))
    case LogicalNot(a) => Cat(Gen(a, env, depth), SetTruth(4))
    case Logical(isAnd, a, b, trueLabel, falseLabel, endLabel) =>
      LogicalCode(isAnd, Gen(a, env, depth), Gen(b, env, depth), if isAnd then falseLabel else trueLabel, endLabel)
    case Conditional(_, a, b, c, _, falseLabel, endLabel) =>
      ConditionalCode(Gen(a, env, depth), Gen(b, env, depth), Gen(c, env, depth), falseLabel, endLabel)
    case Comma(a, b) => Cat(Gen(a, env, depth), Gen(b, env, depth))
    case Cast(ty, a) => Cat(Gen(a, env, depth), Normalize(ty))
    case Compound(ty, op, addr, value) =>
      Cat(Cat(Gen(addr, env, depth), Three(Push(RAX), LoadRax(ty), Push(RAX))),
          Cat(Cat(Gen(value, env, depth + 2), TakeOperands()),
              Cat(Cat(OperatorCode(op, ty.signed), Normalize(ty)), WriteBack(ty))))
    case Increment(ty, step, post, addr) =>
      Cat(Cat(Gen(addr, env, depth), Three(Push(RAX), LoadRax(ty), MovReg(R10, RAX))),
          Cat(Cat(AddImmediate(step), Normalize(ty)),
              Cat(WriteBack(ty), if post then One(MovReg(RAX, R10)) else Empty)))
    case Call(ty, callee, args) =>
      var padding := Padding(args, depth);
      var base := depth + padding;
      Cat(Pad(padding),
          Cat(Cat(GenStackArgs(args, env, 0, base), GenRegisterArgs(args, env, 0, base + StackUnits(args))),
              Cat(GenTarget(callee, env, base + Len(args)), CallTail(ty, callee, args, padding))))
  }

  // An indirect target is evaluated last and waits in R11.
  function GenTarget(callee: Callee, env: Env, depth: nat): Code {
    match callee
    case Direct(_, _) => Empty
    case Indirect(target) => Cat(Gen(target, env, depth), Two(Push(RAX), Pop(R11)))
  }

  // Stack arguments are pushed last to first, so the first ends up lowest.
  function GenStackArgs(args: List<Expr>, env: Env, i: nat, depth: nat): Code {
    match args
    case Nil => Empty
    case Cons(head, tail) =>
      Cat(GenStackArgs(tail, env, i + 1, depth),
          if i < REGISTER_ARGS then Empty
          else Cat(Gen(head, env, depth + Len(tail)), One(Push(RAX))))
  }

  // Register arguments are evaluated in order and wait on the stack.
  function GenRegisterArgs(args: List<Expr>, env: Env, i: nat, depth: nat): Code {
    match args
    case Nil => Empty
    case Cons(head, tail) =>
      if i >= REGISTER_ARGS then Empty
      else Cat(Cat(Gen(head, env, depth), One(Push(RAX))), GenRegisterArgs(tail, env, i + 1, depth + 1))
  }
}
