// The intermediate form: expression trees over symbols, labels and a byte
// memory, and what each tree means (src/ir/ir.h).
module Ir {
  import opened Options
  import opened Words
  import opened Lists

  type Symbol = string
  type Label = nat

  // Memory holds bytes; an address never written reads as zero.
  type Mem = map<int, int>

  function LoadByte(m: Mem, at: int): (b: int)
    ensures 0 <= b < 256
  {
    if U64(at) in m then m[U64(at)] % 256 else 0
  }

  function LoadBytes(m: Mem, at: int, count: nat): int
    decreases count
  {
    if count == 0 then 0 else LoadByte(m, at) + 256 * LoadBytes(m, at + 1, count - 1)
  }

  function StoreBytes(m: Mem, at: int, count: nat, v: int): Mem
    decreases count
  {
    if count == 0 then m
    else StoreBytes(m[U64(at) := v % 256], at + 1, count - 1, v / 256)
  }

  datatype Operator = Add | Sub | Mul | Div | Mod | Shl | Shr | BitwiseOp(bit: BitOp)

  datatype Comparison = Equal | NotEqual | Less | LessEqual | Greater | GreaterEqual

  datatype UnaryOp = Neg | BitNot

  datatype Callee = Direct(sym: Symbol, variadic: bool) | Indirect(target: Expr)

  // Labels are carried by the nodes that need them in the encoder.
  datatype Expr =
    | Const(ty: Ty, imm: int)
    | LoadSym(ty: Ty, sym: Symbol)
    | Load(ty: Ty, addr: Expr)
    | Store(ty: Ty, addr: Expr, value: Expr)
    | AddrSym(sym: Symbol)
    | AddrOf(place: Expr)
    | Member(base: Expr, offset: int)
    | Binary(ty: Ty, op: Operator, a: Expr, b: Expr)
    | Compare(cmp: Comparison, a: Expr, b: Expr)
    | Unary(ty: Ty, uop: UnaryOp, a: Expr)
    | LogicalNot(a: Expr)
    | Logical(isAnd: bool, a: Expr, b: Expr, trueLabel: Label, falseLabel: Label, endLabel: Label)
    | Conditional(ty: Ty, a: Expr, b: Expr, c: Expr, trueLabel: Label, falseLabel: Label, endLabel: Label)
    | Comma(a: Expr, b: Expr)
    | Cast(ty: Ty, a: Expr)
    | Compound(ty: Ty, op: Operator, addr: Expr, value: Expr)
    | Increment(ty: Ty, step: int, post: bool, addr: Expr)
    | Call(ty: Ty, callee: Callee, args: List<Expr>)

  function TypeOf(e: Expr): Ty {
    match e
    case Const(ty, _) => ty
    case LoadSym(ty, _) => ty
    case Load(ty, _) => ty
    case Store(ty, _, _) => ty
    case AddrSym(_) => ADDRESS
    case AddrOf(_) => ADDRESS
    case Member(_, _) => ADDRESS
    case Binary(ty, _, _, _) => ty
    case Compare(_, _, _) => INT
    case Unary(ty, _, _) => ty
    case LogicalNot(_) => INT
    case Logical(_, _, _, _, _, _) => INT
    case Conditional(ty, _, _, _, _, _, _) => ty
    case Comma(_, b) => TypeOf(b)
    case Cast(ty, _) => ty
    case Compound(ty, _, _, _) => ty
    case Increment(ty, _, _, _) => ty
    case Call(ty, _, _) => ty
  }

  // What the surroundings of one activation fix: where its locals and the
  // globals are, and what the functions it calls compute.
  datatype Env = Env(
    rbp: int,
    locals: map<Symbol, int>,
    globals: Symbol -> int,
    arity: int -> nat,
    call: (int, List<int>, Mem) -> (int, Mem))

  function AddressOfSymbol(env: Env, sym: Symbol): int {
    if sym in env.locals then U64(env.rbp + env.locals[sym]) else U64(env.globals(sym))
  }

  // Trap is a divide fault.  Undefined is C's undefined behaviour: a function
  // entered with a number of arguments other than the one it was defined with.
  datatype Outcome<T> = Ok(value: T, mem: Mem) | Trap | Undefined

  function LoadValue(m: Mem, ty: Ty, at: int): (v: int)
    ensures InRange(ty, v)
  {
    Wrap(ty, LoadBytes(m, U64(at), ty.width))
  }

  function StoreValue(m: Mem, ty: Ty, at: int, v: int): Mem {
    StoreBytes(m, U64(at), ty.width, U64(v))
  }

  // Operators work on 64-bit words and the result is brought back to the type.
  function Operate(ty: Ty, op: Operator, a: int, b: int): (r: Option<int>)
    ensures r.Some? ==> InRange(ty, r.value)
  {
    match op
    case Add => Some(Wrap(ty, a + b))
    case Sub => Some(Wrap(ty, a - b))
    case Mul => Some(Wrap(ty, a * b))
    case Div =>
      if Divisible(ty.signed, a, b) then Some(Wrap(ty, Quotient(ty.signed, a, b))) else None
    case Mod =>
      if Divisible(ty.signed, a, b) then Some(Wrap(ty, Remainder(ty.signed, a, b))) else None
    case Shl => Some(Wrap(ty, a * Pow2(U64(b) % 64)))
    case Shr =>
      Some(Wrap(ty, (if ty.signed then S64(a) else U64(a)) / Pow2(U64(b) % 64)))
    case BitwiseOp(bit) => Some(Wrap(ty, Bitwise64(bit, U64(a), U64(b))))
  }

  // The divide instruction faults on zero and on the one signed overflow.
  predicate Divisible(signed: bool, a: int, b: int) {
    U64(b) != 0 && !(signed && S64(a) == MIN64 && S64(b) == -1)
  }

  lemma {:induction false} NonzeroRegister(b: int)
    ensures U64(b) != 0 <==> S64(b) != 0
  {
  }

  function Quotient(signed: bool, a: int, b: int): int
    requires U64(b) != 0
  {
    NonzeroRegister(b);
    if signed then TruncDiv(S64(a), S64(b)) else U64(a) / U64(b)
  }

  function Remainder(signed: bool, a: int, b: int): int
    requires U64(b) != 0
  {
    NonzeroRegister(b);
    if signed then TruncMod(S64(a), S64(b)) else U64(a) % U64(b)
  }

  predicate Compares(cmp: Comparison, signed: bool, a: int, b: int) {
    var x, y := if signed then S64(a) else U64(a), if signed then S64(b) else U64(b);
    match cmp
    case Equal => U64(a) == U64(b)
    case NotEqual => U64(a) != U64(b)
    case Less => x < y
    case LessEqual => x <= y
    case Greater => x > y
    case GreaterEqual => x >= y
  }

  predicate Truth(v: int) { U64(v) != 0 }

  function Bool(b: bool): int { if b then 1 else 0 }

  function Eval(e: Expr, env: Env, m: Mem): Outcome<int> {
    match e
    case Const(ty, imm) => Ok(Wrap(ty, imm), m)
    case LoadSym(ty, sym) => Ok(LoadValue(m, ty, AddressOfSymbol(env, sym)), m)
    case Load(ty, addr) =>
      (match Eval(addr, env, m)
       case Ok(p, m1) => Ok(LoadValue(m1, ty, p), m1)
       case other => other)
    case Store(ty, addr, value) =>
      (match Eval(addr, env, m)
       case Ok(p, m1) =>
         (match Eval(value, env, m1)
          case Ok(v, m2) => Ok(v, StoreValue(m2, ty, p, v))
          case other => other)
       case other => other)
    case AddrSym(sym) => Ok(AddressOfSymbol(env, sym), m)
    case AddrOf(place) => Eval(place, env, m)
    case Member(base, offset) =>
      (match Eval(base, env, m)
       case Ok(p, m1) => Ok(U64(p + offset), m1)
       case other => other)
    case Binary(ty, op, a, b) =>
      (match Eval(a, env, m)
       case Ok(x, m1) =>
         (match Eval(b, env, m1)
          case Ok(y, m2) =>
            (match Operate(ty, op, x, y)
             case Some(v) => Ok(v, m2)
             case None => Trap)
          case other => other)
       case other => other)
    case Compare(cmp, a, b) =>
      (match Eval(a, env, m)
       case Ok(x, m1) =>
         (match Eval(b, env, m1)
          case Ok(y, m2) => Ok(Bool(Compares(cmp, TypeOf(a).signed, x, y)), m2)
          case other => other)
       case other => other)
    case Unary(ty, uop, a) =>
      (match Eval(a, env, m)
       case Ok(x, m1) => Ok(Wrap(ty, if uop == Neg then -x else -x - 1), m1)
       case other => other)
    case LogicalNot(a) =>
      (match Eval(a, env, m)
       case Ok(x, m1) => Ok(Bool(!Truth(x)), m1)
       case other => other)
    case Logical(isAnd, a, b, _, _, _) =>
      (match Eval(a, env, m)
       case Ok(x, m1) =>
         if Truth(x) != isAnd then Ok(Bool(!isAnd), m1)
         else
           (match Eval(b, env, m1)
            case Ok(y, m2) => Ok(Bool(Truth(y)), m2)
            case other => other)
       case other => other)
    case Conditional(_, a, b, c, _, _, _) =>
      (match Eval(a, env, m)
       case Ok(x, m1) => if Truth(x) then Eval(b, env, m1) else Eval(c, env, m1)
       case other => other)
    case Comma(a, b) =>
      (match Eval(a, env, m)
       case Ok(_, m1) => Eval(b, env, m1)
       case other => other)
    case Cast(ty, a) =>
      (match Eval(a, env, m)
       case Ok(x, m1) => Ok(Wrap(ty, x), m1)
       case other => other)
    case Compound(ty, op, addr, value) =>
      (match Eval(addr, env, m)
       case Ok(p, m1) =>
         var x := LoadValue(m1, ty, p);
         (match Eval(value, env, m1)
          case Ok(y, m2) =>
            (match Operate(ty, op, x, y)
             case Some(v) => Ok(v, StoreValue(m2, ty, p, v))
             case None => Trap)
          case other => other)
       case other => other)
    case Increment(ty, step, post, addr) =>
      (match Eval(addr, env, m)
       case Ok(p, m1) =>
         var x := LoadValue(m1, ty, p);
         var v := Wrap(ty, x + step);
         Ok(if post then x else v, StoreValue(m1, ty, p, v))
       case other => other)
    case Call(ty, callee, args) =>
      (match EvalStackArgs(args, 0, env, m)
       case Ok(onStack, m1) =>
         (match EvalRegisterArgs(args, 0, env, m1)
          case Ok(inRegisters, m2) =>
            (match EvalTarget(callee, env, m2)
             case Ok(p, m3) => Invoke(ty, env, p, Append(inRegisters, onStack), m3)
             case other => other)
          case Trap => Trap
          case Undefined => Undefined)
       case Trap => Trap
       case Undefined => Undefined)
  }

  // The entry point of the function called.
  function EvalTarget(callee: Callee, env: Env, m: Mem): Outcome<int> {
    match callee
    case Direct(sym, _) => Ok(U64(env.globals(sym)), m)
    case Indirect(target) =>
      (match Eval(target, env, m)
       case Ok(p, m1) => Ok(U64(p), m1)
       case other => other)
  }

  function Invoke(ty: Ty, env: Env, target: int, args: List<int>, m: Mem): Outcome<int> {
    if env.arity(target) != Len(args) then Undefined
    else
      var (v, m') := env.call(target, args, m);
      Ok(Wrap(ty, v), m')
  }

  const REGISTER_ARGS := 6

  // Arguments past the sixth, evaluated last to first.
  function EvalStackArgs(args: List<Expr>, i: nat, env: Env, m: Mem): Outcome<List<int>> {
    match args
    case Nil => Ok(Nil, m)
    case Cons(head, tail) =>
      (match EvalStackArgs(tail, i + 1, env, m)
       case Ok(vs, m1) =>
         if i < REGISTER_ARGS then Ok(vs, m1)
         else
           (match Eval(head, env, m1)
            case Ok(v, m2) => Ok(Cons(U64(v), vs), m2)
            case Trap => Trap
            case Undefined => Undefined)
       case other => other)
  }

  // The first six arguments, evaluated in order.
  function EvalRegisterArgs(args: List<Expr>, i: nat, env: Env, m: Mem): Outcome<List<int>> {
    match args
    case Nil => Ok(Nil, m)
    case Cons(head, tail) =>
      if i >= REGISTER_ARGS then Ok(Nil, m)
      else
        (match Eval(head, env, m)
         case Ok(v, m1) =>
           (match EvalRegisterArgs(tail, i + 1, env, m1)
            case Ok(vs, m2) => Ok(Cons(U64(v), vs), m2)
            case other => other)
         case Trap => Trap
         case Undefined => Undefined)
  }

  // What the encoder takes for granted: constants fit their types, record
  // offsets fit an immediate, a call has at most 64 arguments.
  predicate WellFormed(e: Expr) {
    match e
    case Const(ty, imm) => imm == U64(Wrap(ty, imm))
    case LoadSym(_, _) => true
    case Load(_, addr) => WellFormed(addr)
    case Store(_, addr, value) => WellFormed(addr) && WellFormed(value)
    case AddrSym(_) => true
    case AddrOf(place) => WellFormed(place)
    case Member(base, offset) => WellFormed(base) && 0 <= offset < 0x8000_0000
    case Binary(_, _, a, b) => WellFormed(a) && WellFormed(b)
    case Compare(_, a, b) => WellFormed(a) && WellFormed(b)
    case Unary(_, _, a) => WellFormed(a)
    case LogicalNot(a) => WellFormed(a)
    case Logical(_, a, b, _, _, _) => WellFormed(a) && WellFormed(b)
    case Conditional(_, a, b, c, _, _, _) => WellFormed(a) && WellFormed(b) && WellFormed(c)
    case Comma(a, b) => WellFormed(a) && WellFormed(b)
    case Cast(_, a) => WellFormed(a)
    case Compound(_, _, addr, value) => WellFormed(addr) && WellFormed(value)
    case Increment(_, step, _, addr) => WellFormed(addr) && InRange(LONG, step)
    case Call(_, callee, args) =>
      && (callee.Indirect? ==> WellFormed(callee.target))
      && WellFormedArgs(args) && Len(args) <= 64
  }

  predicate WellFormedArgs(args: List<Expr>) {
    match args
    case Nil => true
    case Cons(head, tail) => WellFormed(head) && WellFormedArgs(tail)
  }

  // Memory: what was stored is what is loaded, and nothing else changes.

  lemma {:induction false} ApartStep(at: int, count: nat, x: int)
    requires 0 < count <= U64(x - at)
    ensures U64(at) != U64(x)
    ensures count - 1 <= U64(x - (at + 1))
  {
  }

  lemma {:induction false} NextByteApart(at: int, count: nat)
    requires 0 < count <= 8
    ensures count - 1 <= U64(at - (at + 1))
  {
  }

  lemma {:induction false} StoreElsewhere(m: Mem, at: int, count: nat, v: int, x: int)
    requires count <= U64(x - at)
    ensures LoadByte(StoreBytes(m, at, count, v), x) == LoadByte(m, x)
    decreases count
  {
    if count > 0 {
      ApartStep(at, count, x);
      StoreElsewhere(m[U64(at) := v % 256], at + 1, count - 1, v / 256, x);
    }
  }

  function BytesModulus(count: nat): (p: int)
    ensures p > 0
  {
    if count == 0 then 1 else 256 * BytesModulus(count - 1)
  }

  lemma {:induction false} LowByteFirst(v: int, p: int)
    requires p > 0
    ensures v % 256 + 256 * (v / 256 % p) == v % (256 * p)
  {
    var q, r := (v / 256) / p, (v / 256) % p;
    assert v / 256 == p * q + r;
    assert 256 * (p * q + r) == (256 * p) * q + 256 * r;
    ModUnique(v, q, 256 * r + v % 256, 256 * p);
  }

  lemma {:induction false} FirstByteStored(m: Mem, at: int, count: nat, v: int)
    requires 0 < count <= 8
    ensures LoadByte(StoreBytes(m, at, count, v), at) == v % 256
  {
    var m1 := m[U64(at) := v % 256];
    NextByteApart(at, count);
    StoreElsewhere(m1, at + 1, count - 1, v / 256, at);
  }

  lemma {:induction false} LoadAfterStore(m: Mem, at: int, count: nat, v: int)
    requires count <= 8
    ensures LoadBytes(StoreBytes(m, at, count, v), at, count) == v % BytesModulus(count)
    decreases count
  {
    if count > 0 {
      FirstByteStored(m, at, count, v);
      LoadAfterStore(m[U64(at) := v % 256], at + 1, count - 1, v / 256);
      LowByteFirst(v, BytesModulus(count - 1));
    }
  }

  // Storing looks at the low bytes only.
  lemma {:induction false} StoreLow(m: Mem, at: int, count: nat, v: int, w: int)
    requires v % BytesModulus(count) == w % BytesModulus(count)
    ensures StoreBytes(m, at, count, v) == StoreBytes(m, at, count, w)
    decreases count
  {
    if count > 0 {
      LowByteFirst(v, BytesModulus(count - 1));
      LowByteFirst(w, BytesModulus(count - 1));
      StoreLow(m[U64(at) := v % 256], at + 1, count - 1, v / 256, w / 256);
    }
  }

  // An object is stored as the value converted to its type.
  lemma {:induction false} StoreConverts(m: Mem, ty: Ty, at: int, v: int)
    ensures StoreValue(m, ty, at, Wrap(ty, v)) == StoreValue(m, ty, at, v)
  {
    BytesModulusIs(ty.width);
    var k := WrapMoves(ty, v);
    ModFacts(Wrap(ty, v), v, k, Modulus(ty.width));
    RegisterLow(ty.width, v);
    RegisterLow(ty.width, Wrap(ty, v));
    StoreLow(m, U64(at), ty.width, U64(Wrap(ty, v)), U64(v));
  }

  // A register and the value it holds have the same low bits.
  lemma {:induction false} RegisterLow(w: Width, x: int)
    ensures U64(x) % Modulus(w) == x % Modulus(w)
  {
    var m := Modulus(w);
    var c := WORD / m;
    assert WORD == m * c;
    var q := x / WORD;
    assert x == m * (c * q) + U64(x) by { assert WORD * q == m * (c * q); }
    ModFacts(x, U64(x), c * q, m);
  }

  // A scalar object holds the value last stored in it.
  lemma {:induction false} ObjectHoldsStoredValue(m: Mem, ty: Ty, at: int, v: int)
    ensures LoadValue(StoreValue(m, ty, at, v), ty, at) == Wrap(ty, v)
  {
    LoadAfterStore(m, U64(at), ty.width, U64(v));
    BytesModulusIs(ty.width);
    WrapOfRegister(ty, v);
    WrapOfResidue(ty, U64(v));
  }

  lemma {:induction false} WrapOfResidue(ty: Ty, x: int)
    ensures Wrap(ty, x % Modulus(ty.width)) == Wrap(ty, x)
  {
    ModFacts(x % Modulus(ty.width), x, -(x / Modulus(ty.width)), Modulus(ty.width));
  }

  lemma {:induction false} BytesModulusIs(w: Width)
    ensures BytesModulus(w) == Modulus(w)
  {
    assert BytesModulus(0) == 1 && BytesModulus(1) == 256 && BytesModulus(2) == 256 * 256;
    assert BytesModulus(4) == 256 * 256 * BytesModulus(2);
    assert BytesModulus(6) == 256 * 256 * BytesModulus(4);
    assert BytesModulus(8) == 256 * 256 * BytesModulus(6);
  }
}
