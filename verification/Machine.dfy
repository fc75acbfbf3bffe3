// The target machine as far as integer code uses it: eleven registers, the
// flags left by a comparison, a stack of 8-byte words, listed from its top, that
// starts empty below the frame, and the byte memory.  Anything the processor would reject, and any
// use of flags that no comparison set, is a Fault.
module Machine {
  import opened Words
  import opened Options
  import opened Ir
  import opened Lists

  datatype Reg = RAX | RCX | RDX | RSI | RDI | R8 | R9 | R10 | R11

  datatype Regs = Regs(rax: int, rcx: int, rdx: int, rsi: int, rdi: int,
                       r8: int, r9: int, r10: int, r11: int)
  {
    function Get(r: Reg): int {
      match r
      case RAX => rax case RCX => rcx case RDX => rdx case RSI => rsi case RDI => rdi
      case R8 => r8 case R9 => r9 case R10 => r10 case R11 => r11
    }

    function Set(r: Reg, v: int): Regs {
      match r
      case RAX => this.(rax := v) case RCX => this.(rcx := v) case RDX => this.(rdx := v)
      case RSI => this.(rsi := v) case RDI => this.(rdi := v) case R8 => this.(r8 := v)
      case R9 => this.(r9 := v) case R10 => this.(r10 := v) case R11 => this.(r11 := v)
    }
  }

  // The order in which integer arguments take registers.
  function ArgumentRegister(i: nat): Reg
    requires i < REGISTER_ARGS
  {
    if i == 0 then RDI else if i == 1 then RSI else if i == 2 then RDX
    else if i == 3 then RCX else if i == 4 then R8 else R9
  }

  datatype Instr =
    | MovImm64(reg: Reg, imm: int)
    | MovImm32(reg: Reg, imm: int)
    | MovReg(dst: Reg, src: Reg)
    | Push(reg: Reg)
    | Pop(reg: Reg)
    | LoadLocal(ty: Ty, sym: Symbol)
    | LoadGlobal(ty: Ty, sym: Symbol)
    | LoadRax(ty: Ty)
    | LeaLocal(sym: Symbol)
    | LeaGlobal(sym: Symbol)
    | StoreReg(width: Width, src: Reg, base: Reg)
    | AddRcx | SubRcx | ImulRcx
    | BitRcx(op: BitOp)
    | Cqo | Idiv | ZeroEdx | Div
    | ShlCl | SarCl | ShrCl
    | NegRax | NotRax
    | AddImm(imm: int)
    | Extend(ty: Ty)
    | TestRax
    | CmpRcx
    | SetCond(cond: Condition)
    | MovzxAl
    | ZeroEax
    | SubRsp8
    | AddRsp(bytes: nat)
    | CallSymbol(sym: Symbol)
    | CallR11
    | Jmp(target: Label)
    | Jcc(cond: Condition, target: Label)
    | Lab(id: Label)
    | Leave
    | Ret

  // Condition codes by number, as in the encoder's table.
  type Condition = c: nat | c < 16

  // A comparison of two words leaves both behind; test leaves the word and 0.
  predicate Holds(c: Condition, x: int, y: int) {
    match c
    case 2 => U64(x) < U64(y)
    case 3 => U64(x) >= U64(y)
    case 4 => U64(x) == U64(y)
    case 5 => U64(x) != U64(y)
    case 6 => U64(x) <= U64(y)
    case 7 => U64(x) > U64(y)
    case 12 => S64(x) < S64(y)
    case 13 => S64(x) >= S64(y)
    case 14 => S64(x) <= S64(y)
    case 15 => S64(x) > S64(y)
    case _ => false
  }

  // What the machine finds in places the convention leaves unspecified.
  datatype Host = Host(
    env: Env,
    clobbered: (int, List<int>, Mem) -> Regs,
    stale: nat -> int)

  datatype Data = Data(r: Regs, flags: Option<(int, int)>, stack: List<int>, mem: Mem)

  datatype State = Running(pc: nat, d: Data) | Returned(rax: int, mem: Mem) | Fault

  // A callee finds its i-th integer parameter in a register, or on the stack
  // above its saved frame pointer and return address, at rbp + 16 + offset.
  const SAVED_BYTES := 16

  // The word at rsp + offset, where the stack is listed from its top.
  function WordAt(stack: List<int>, offset: nat): int {
    var rest := Drop(stack, offset / 8);
    if rest.Cons? then rest.head else 0
  }

  function Registers(r: Regs, i: nat, n: nat): List<int>
    requires n <= REGISTER_ARGS
    decreases n - i
  {
    if i >= n then Nil else Cons(r.Get(ArgumentRegister(i)), Registers(r, i + 1, n))
  }

  // inCallee is the stack once the call and the prologue have each pushed a word.
  function StackParameters(inCallee: List<int>, i: nat, n: nat): List<int>
    decreases n - i
  {
    if i >= n then Nil
    else Cons(WordAt(inCallee, SAVED_BYTES + 8 * i), StackParameters(inCallee, i + 1, n))
  }

  // The stack must be a multiple of 16 bytes deep when a call executes.  The
  // callee may overwrite its parameters and every register but the result.
  function DoCall(h: Host, target: int, d: Data): Option<Data> {
    var n := h.env.arity(target);
    var onStack := if n <= REGISTER_ARGS then 0 else n - REGISTER_ARGS;
    if Len(d.stack) % 2 != 0 || Len(d.stack) < onStack then None
    else
      var inCallee := Cons(h.stale(0), Cons(h.stale(1), d.stack));
      var args := Append(Registers(d.r, 0, n - onStack), StackParameters(inCallee, 0, onStack));
      var (v, m) := h.env.call(target, args, d.mem);
      Some(Data(h.clobbered(target, args, d.mem).(rax := U64(v)), None,
                Append(Stale(h, onStack), Drop(d.stack, onStack)), m))
  }

  function Stale(h: Host, n: nat): (words: List<int>)
    ensures Len(words) == n
  {
    if n == 0 then Nil else Cons(h.stale(n), Stale(h, n - 1))
  }

  // One instruction that neither jumps nor returns.
  function Do(h: Host, i: Instr, d: Data): Option<Data> {
    var r := d.r;
    match i
    case MovImm64(reg, imm) => Some(d.(r := r.Set(reg, U64(imm))))
    case MovImm32(reg, imm) => Some(d.(r := r.Set(reg, imm % 0x1_0000_0000)))
    case MovReg(dst, src) => Some(d.(r := r.Set(dst, r.Get(src))))
    case Push(reg) => Some(d.(stack := Cons(r.Get(reg), d.stack)))
    case Pop(reg) =>
      if d.stack.Nil? then None
      else Some(d.(r := r.Set(reg, d.stack.head), stack := d.stack.tail))
    case LoadLocal(ty, sym) =>
      if sym !in h.env.locals then None
      else Some(d.(r := r.(rax := U64(LoadValue(d.mem, ty, h.env.rbp + h.env.locals[sym])))))
    case LoadGlobal(ty, sym) =>
      Some(d.(r := r.(rax := U64(LoadValue(d.mem, ty, h.env.globals(sym))))))
    case LoadRax(ty) => Some(d.(r := r.(rax := U64(LoadValue(d.mem, ty, r.rax)))))
    case LeaLocal(sym) =>
      if sym !in h.env.locals then None
      else Some(d.(r := r.(rax := U64(h.env.rbp + h.env.locals[sym]))))
    case LeaGlobal(sym) => Some(d.(r := r.(rax := U64(h.env.globals(sym)))))
    case StoreReg(width, src, base) =>
      Some(d.(mem := StoreBytes(d.mem, U64(r.Get(base)), width, U64(r.Get(src)))))
    case AddRcx => Arith(d, r.rax + r.rcx)
    case SubRcx => Arith(d, r.rax - r.rcx)
    case ImulRcx => Arith(d, r.rax * r.rcx)
    case BitRcx(op) => Arith(d, Bitwise64(op, U64(r.rax), U64(r.rcx)))
    case Cqo => Some(d.(r := r.(rdx := if S64(r.rax) < 0 then WORD - 1 else 0)))
    case Idiv =>
      var dividend := S64(r.rdx) * WORD + U64(r.rax);
      var divisor := S64(r.rcx);
      if divisor == 0 || !InRange(LONG, TruncDiv(dividend, divisor)) then None
      else Some(d.(flags := None, r := r.(rax := U64(TruncDiv(dividend, divisor)),
                                          rdx := U64(TruncMod(dividend, divisor)))))
    case ZeroEdx => Some(d.(flags := None, r := r.(rdx := 0)))
    case Div =>
      var dividend := U64(r.rdx) * WORD + U64(r.rax);
      var divisor := U64(r.rcx);
      if divisor == 0 || dividend / divisor >= WORD then None
      else Some(d.(flags := None, r := r.(rax := dividend / divisor, rdx := dividend % divisor)))
    case ShlCl => Arith(d, r.rax * Pow2(U64(r.rcx) % 64))
    case SarCl => Arith(d, S64(r.rax) / Pow2(U64(r.rcx) % 64))
    case ShrCl => Arith(d, U64(r.rax) / Pow2(U64(r.rcx) % 64))
    case NegRax => Arith(d, -r.rax)
    case NotRax => Some(d.(r := r.(rax := WORD - 1 - U64(r.rax))))
    case AddImm(imm) => Arith(d, r.rax + imm)
    case Extend(ty) => Some(d.(r := r.(rax := U64(Wrap(ty, r.rax)))))
    case TestRax => Some(d.(flags := Some((r.rax, 0))))
    case CmpRcx => Some(d.(flags := Some((r.rax, r.rcx))))
    case SetCond(cond) =>
      if d.flags == None then None
      else Some(d.(r := r.(rax := r.rax - r.rax % 256
                                  + Bool(Holds(cond, d.flags.value.0, d.flags.value.1)))))
    case MovzxAl => Some(d.(r := r.(rax := r.rax % 256)))
    case ZeroEax => Some(d.(flags := None, r := r.(rax := 0)))
    case SubRsp8 => Some(d.(flags := None, stack := Cons(h.stale(0), d.stack)))
    case AddRsp(bytes) =>
      if bytes % 8 != 0 || bytes / 8 > Len(d.stack) then None
      else Some(d.(flags := None, stack := Drop(d.stack, bytes / 8)))
    case CallSymbol(sym) => DoCall(h, U64(h.env.globals(sym)), d)
    case CallR11 => DoCall(h, U64(r.r11), d)
    case Leave => Some(d.(stack := Nil))
    case Lab(_) => Some(d)
    case Jmp(_) => None
    case Jcc(_, _) => None
    case Ret => None
  }

  function Arith(d: Data, v: int): Option<Data> {
    Some(d.(flags := None, r := d.r.(rax := U64(v))))
  }

  // Where a label stands: the first place in the code that defines it.
  function Position(code: seq<Instr>, l: Label, from: nat): (at: nat)
    requires from <= |code|
    ensures from <= at <= |code|
    ensures at < |code| ==> code[at] == Lab(l)
    ensures forall i :: from <= i < at ==> code[i] != Lab(l)
    decreases |code| - from
  {
    if from == |code| || code[from] == Lab(l) then from else Position(code, l, from + 1)
  }

  function Jump(code: seq<Instr>, l: Label, d: Data): State {
    var at := Position(code, l, 0);
    if at < |code| then Running(at, d) else Fault
  }

  function Step(code: seq<Instr>, h: Host, s: State): State {
    if !s.Running? then s
    else if s.pc >= |code| then Fault
    else
      match code[s.pc]
      case Jmp(l) => Jump(code, l, s.d)
      case Jcc(cond, l) =>
        if s.d.flags == None then Fault
        else if Holds(cond, s.d.flags.value.0, s.d.flags.value.1) then Jump(code, l, s.d)
        else Running(s.pc + 1, s.d)
      case Ret => if s.d.stack.Nil? then Returned(s.d.r.rax, s.d.mem) else Fault
      case i =>
        match Do(h, i, s.d)
        case None => Fault
        case Some(d') => Running(s.pc + 1, d')
  }

  function Run(code: seq<Instr>, h: Host, s: State, n: nat): State
    decreases n
  {
    if n == 0 then s else Run(code, h, Step(code, h, s), n - 1)
  }

  lemma {:induction false} RunAdd(code: seq<Instr>, h: Host, s: State, m: nat, n: nat)
    ensures Run(code, h, s, m + n) == Run(code, h, Run(code, h, s, m), n)
    decreases m
  {
    if m > 0 {
      RunAdd(code, h, Step(code, h, s), m - 1, n);
    }
  }

  // A machine that has stopped stays stopped.
  lemma {:induction false} StoppedForGood(code: seq<Instr>, h: Host, s: State, n: nat)
    requires !s.Running?
    ensures Run(code, h, s, n) == s
    decreases n
  {
    if n > 0 { StoppedForGood(code, h, s, n - 1); }
  }
}
