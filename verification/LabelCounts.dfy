// How often a label is defined: at most once by anything the lowering and the
// encoder make.
module LabelCounts {
  import opened Words
  import opened Lists
  import opened Ropes
  import opened Options
  import opened Ir
  import opened Machine
  import opened Flow
  import opened Codegen
  import opened GenFlat
  import opened Ast
  import opened LowerNode
  import opened Statements
  import opened LowerStmt
  import opened StmtCorrect
  import F = FlatIr

  function One01(b: bool): nat { if b then 1 else 0 }

  function ExprCount(e: Expr, l: Label): nat {
    match e
    case Load(_, a) => ExprCount(a, l)
    case Store(_, a, b) => ExprCount(a, l) + ExprCount(b, l)
    case AddrOf(a) => ExprCount(a, l)
    case Member(a, _) => ExprCount(a, l)
    case Binary(_, _, a, b) => ExprCount(a, l) + ExprCount(b, l)
    case Compare(_, a, b) => ExprCount(a, l) + ExprCount(b, l)
    case Unary(_, _, a) => ExprCount(a, l)
    case LogicalNot(a) => ExprCount(a, l)
    case Logical(isAnd, a, b, trueLabel, falseLabel, endLabel) =>
      ExprCount(a, l) + ExprCount(b, l) + One01(l == if isAnd then falseLabel else trueLabel) + One01(l == endLabel)
    case Conditional(_, a, b, c, _, falseLabel, endLabel) =>
      ExprCount(a, l) + ExprCount(b, l) + ExprCount(c, l) + One01(l == falseLabel) + One01(l == endLabel)
    case Comma(a, b) => ExprCount(a, l) + ExprCount(b, l)
    case Cast(_, a) => ExprCount(a, l)
    case Compound(_, _, a, b) => ExprCount(a, l) + ExprCount(b, l)
    case Increment(_, _, _, a) => ExprCount(a, l)
    case Call(_, callee, args) => CalleeCount(callee, l) + ArgsCount(args, l)
    case _ => 0
  }

  function CalleeCount(c: Callee, l: Label): nat {
    match c
    case Direct(_, _) => 0
    case Indirect(e) => ExprCount(e, l)
  }

  function ArgsCount(args: List<Expr>, l: Label): nat {
    match args
    case Nil => 0
    case Cons(head, tail) => ExprCount(head, l) + ArgsCount(tail, l)
  }

  lemma {:induction false} CatCount(a: Code, b: Code, l: Label)
    ensures Count(Cat(a, b), l) == Count(a, l) + Count(b, l)
  {
  }

  lemma {:induction false} OneCount(i: Instr, l: Label)
    ensures Count(One(i), l) == One01(i == Lab(l))
  {
  }

  lemma {:induction false} PairCount(i: Instr, j: Instr, l: Label)
    ensures Count(Two(i, j), l) == One01(i == Lab(l)) + One01(j == Lab(l))
  {
  }

  lemma {:induction false} ThreeCount(i: Instr, j: Instr, k: Instr, l: Label)
    ensures Count(Three(i, j, k), l) == One01(i == Lab(l)) + One01(j == Lab(l)) + One01(k == Lab(l))
  {
    PairCount(j, k, l);
  }

  lemma {:induction false} PopCount(i: nat, n: nat, l: Label)
    requires n <= REGISTER_ARGS
    ensures Count(PopArguments(i, n), l) == 0
    decreases n - i
  {
    if i < n { PopCount(i + 1, n, l); }
  }

  lemma {:induction false} TailCount(ty: Ty, callee: Callee, args: List<Expr>, padding: nat, l: Label)
    ensures Count(CallTail(ty, callee, args, padding), l) == 0
  {
    hide Count, VectorCount, Release, Normalize, CallInstr;
    var pops, cleanup := PopArguments(0, RegisterCount(args)), Cleanup(ty, args, padding);
    PopCount(0, RegisterCount(args), l);
    NoLabels(ty, callee, padding, l);
    NoLabels(ty, callee, StackUnits(args), l);
    CatCount(Release(padding), Normalize(ty), l);
    CatCount(Release(StackUnits(args)), Cat(Release(padding), Normalize(ty)), l);
    CatCount(One(CallInstr(callee)), cleanup, l);
    CatCount(VectorCount(callee), Cat(One(CallInstr(callee)), cleanup), l);
    CatCount(pops, Cat(VectorCount(callee), Cat(One(CallInstr(callee)), cleanup)), l);
  }

  lemma {:induction false} NoLabels(ty: Ty, callee: Callee, units: nat, l: Label)
    ensures Count(Normalize(ty), l) == 0 && Count(Release(units), l) == 0
    ensures Count(VectorCount(callee), l) == 0 && Count(One(CallInstr(callee)), l) == 0
  {
  }

  lemma {:induction false} OperatorCount(op: Operator, ty: Ty, l: Label)
    ensures Count(Cat(OperatorCode(op, ty.signed), Normalize(ty)), l) == 0
  {
    PairCount(Cqo, Idiv, l);
    PairCount(ZeroEdx, Instr.Div, l);
    ThreeCount(Cqo, Idiv, MovReg(RAX, RDX), l);
    ThreeCount(ZeroEdx, Instr.Div, MovReg(RAX, RDX), l);
  }

  lemma {:induction false} OperandsCount(a: Code, b: Code, rest: Code, l: Label)
    requires Count(rest, l) == 0
    ensures Count(Operands(a, b, rest), l) == Count(a, l) + Count(b, l)
  {
    PairCount(MovReg(RCX, RAX), Pop(RAX), l);
    CatCount(a, One(Push(RAX)), l);
    CatCount(b, TakeOperands(), l);
    CatCount(Cat(b, TakeOperands()), rest, l);
  }

  lemma {:induction false} LogicalCount(isAnd: bool, a: Code, b: Code, skip: Label, end: Label, l: Label)
    ensures Count(LogicalCode(isAnd, a, b, skip, end), l) == Count(a, l) + Count(b, l) + One01(l == skip) + One01(l == end)
  {
    hide Count, Two, Three;
    var first, finish := Two(TestRax, Jcc(if isAnd then 4 else 5, skip)), Three(Lab(skip), if isAnd then ZeroEax else MovImm32(RAX, 1), Lab(end));
    var second := Cat(SetTruth(5), One(Jmp(end)));
    PairCount(TestRax, Jcc(if isAnd then 4 else 5, skip), l);
    ThreeCount(TestRax, SetCond(5), MovzxAl, l);
    ThreeCount(Lab(skip), if isAnd then ZeroEax else MovImm32(RAX, 1), Lab(end), l);
    OneCount(Jmp(end), l);
    CatCount(a, first, l);
    CatCount(SetTruth(5), One(Jmp(end)), l);
    CatCount(b, second, l);
    CatCount(Cat(b, second), finish, l);
    CatCount(Cat(a, first), Cat(Cat(b, second), finish), l);
  }

  lemma {:induction false} ConditionalCount(a: Code, b: Code, c: Code, otherwise: Label, end: Label, l: Label)
    ensures Count(ConditionalCode(a, b, c, otherwise, end), l)
         == Count(a, l) + Count(b, l) + Count(c, l) + One01(l == otherwise) + One01(l == end)
  {
    PairCount(TestRax, Jcc(4, otherwise), l);
    CatCount(a, Two(TestRax, Jcc(4, otherwise)), l);
    CatCount(b, One(Jmp(end)), l);
    CatCount(c, One(Lab(end)), l);
    var finish := Cat(One(Lab(otherwise)), Cat(c, One(Lab(end))));
    CatCount(One(Lab(otherwise)), Cat(c, One(Lab(end))), l);
    CatCount(Cat(b, One(Jmp(end))), finish, l);
  }

  lemma {:induction false} GenCount(e: Expr, env: Env, depth: nat, l: Label)
    ensures Count(Gen(e, env, depth), l) == ExprCount(e, l)
    decreases e, 1
  {
    match e {
      case Const(_, _) =>
      case LoadSym(_, _) =>
      case AddrSym(_) =>
      case Load(_, a) => GenCount(a, env, depth, l);
      case AddrOf(a) => GenCount(a, env, depth, l);
      case Member(a, _) => GenCount(a, env, depth, l);
      case Cast(_, a) => GenCount(a, env, depth, l);
      case Unary(ty, uop, a) =>
        GenCount(a, env, depth, l);
        assert Count(Cat(One(if uop == Neg then NegRax else NotRax), Normalize(ty)), l) == 0;
      case LogicalNot(a) => GenCount(a, env, depth, l); ThreeCount(TestRax, SetCond(4), MovzxAl, l);
      case Comma(a, b) => GenCount(a, env, depth, l); GenCount(b, env, depth, l);
      case _ => GenCountRest(e, env, depth, l);
    }
  }

  lemma {:induction false} GenCountRest(e: Expr, env: Env, depth: nat, l: Label)
    requires e.Store? || e.Binary? || e.Compare? || e.Logical? || e.Conditional? || e.Compound? || e.Increment? || e.Call?
    ensures Count(Gen(e, env, depth), l) == ExprCount(e, l)
    decreases e, 0, 2
  {
    hide Count, OperatorCode, Normalize, ConditionCode, AddImmediate, Two, Three;
    if e.Logical? || e.Conditional? || e.Compound? || e.Increment? || e.Call? {
      GenCountMore(e, env, depth, l);
      return;
    }
    match e {
      case Store(ty, a, b) =>
        GenCount(a, env, depth, l);
        GenCount(b, env, depth + 1, l);
        PairCount(StoreReg(ty.width, RCX, RAX), MovReg(RAX, RCX), l);
        OperandsCount(Gen(a, env, depth), Gen(b, env, depth + 1), Two(StoreReg(ty.width, RCX, RAX), MovReg(RAX, RCX)), l);
      case Binary(ty, op, a, b) =>
        GenCount(a, env, depth, l);
        GenCount(b, env, depth + 1, l);
        OperatorCount(op, ty, l);
        OperandsCount(Gen(a, env, depth), Gen(b, env, depth + 1), Cat(OperatorCode(op, ty.signed), Normalize(ty)), l);
      case Compare(cmp, a, b) =>
        GenCount(a, env, depth, l);
        GenCount(b, env, depth + 1, l);
        var cond := ConditionCode(cmp, TypeOf(a).signed);
        ThreeCount(CmpRcx, SetCond(cond), MovzxAl, l);
        OperandsCount(Gen(a, env, depth), Gen(b, env, depth + 1), Three(CmpRcx, SetCond(cond), MovzxAl), l);
    }
  }

  lemma {:induction false} GenCountMore(e: Expr, env: Env, depth: nat, l: Label)
    requires e.Logical? || e.Conditional? || e.Compound? || e.Increment? || e.Call?
    ensures Count(Gen(e, env, depth), l) == ExprCount(e, l)
    decreases e, 0, 1
  {
    hide Count, OperatorCode, Normalize, ConditionCode, AddImmediate, Two, Three;
    match e {
      case Logical(isAnd, a, b, t, f, end) =>
        GenCount(a, env, depth, l);
        GenCount(b, env, depth, l);
        LogicalCount(isAnd, Gen(a, env, depth), Gen(b, env, depth), if isAnd then f else t, end, l);
      case Conditional(_, a, b, c, _, f, end) =>
        GenCount(a, env, depth, l);
        GenCount(b, env, depth, l);
        GenCount(c, env, depth, l);
        ConditionalCount(Gen(a, env, depth), Gen(b, env, depth), Gen(c, env, depth), f, end, l);
      case Compound(ty, op, a, b) =>
        GenCount(a, env, depth, l);
        GenCount(b, env, depth + 2, l);
        CompoundCount(Gen(a, env, depth), Gen(b, env, depth + 2), ty, op, l);
      case Increment(ty, step, post, a) =>
        GenCount(a, env, depth, l);
        IncrementCount(Gen(a, env, depth), ty, step, post, l);
      case Call(ty, callee, args) => CallCount(e, env, depth, l);
    }
  }

  lemma {:induction false} WriteBackCount(ty: Ty, l: Label)
    ensures Count(WriteBack(ty), l) == 0
  {
    PairCount(Pop(R11), StoreReg(ty.width, RAX, R11), l);
  }

  lemma {:induction false} CompoundCount(a: Code, b: Code, ty: Ty, op: Operator, l: Label)
    ensures var fetch := Three(Push(RAX), LoadRax(ty), Push(RAX));
            var operate := Cat(OperatorCode(op, ty.signed), Normalize(ty));
            Count(Cat(Cat(a, fetch), Cat(Cat(b, TakeOperands()), Cat(operate, WriteBack(ty)))), l)
            == Count(a, l) + Count(b, l)
  {
    var fetch, operate := Three(Push(RAX), LoadRax(ty), Push(RAX)), Cat(OperatorCode(op, ty.signed), Normalize(ty));
    OperatorCount(op, ty, l);
    ThreeCount(Push(RAX), LoadRax(ty), Push(RAX), l);
    PairCount(MovReg(RCX, RAX), Pop(RAX), l);
    WriteBackCount(ty, l);
    CatCount(a, fetch, l);
    CatCount(operate, WriteBack(ty), l);
    CatCount(b, TakeOperands(), l);
    CatCount(Cat(b, TakeOperands()), Cat(operate, WriteBack(ty)), l);
  }

  lemma {:induction false} IncrementCount(a: Code, ty: Ty, step: int, post: bool, l: Label)
    ensures var fetch, add := Three(Push(RAX), LoadRax(ty), MovReg(R10, RAX)), Cat(AddImmediate(step), Normalize(ty));
            var last := Cat(WriteBack(ty), if post then One(MovReg(RAX, R10)) else Empty);
            Count(Cat(Cat(a, fetch), Cat(add, last)), l) == Count(a, l)
  {
    var fetch, add := Three(Push(RAX), LoadRax(ty), MovReg(R10, RAX)), Cat(AddImmediate(step), Normalize(ty));
    var last := Cat(WriteBack(ty), if post then One(MovReg(RAX, R10)) else Empty);
    ThreeCount(Push(RAX), LoadRax(ty), MovReg(R10, RAX), l);
    PairCount(MovImm64(RCX, step), AddRcx, l);
    WriteBackCount(ty, l);
    CatCount(a, fetch, l);
    CatCount(AddImmediate(step), Normalize(ty), l);
    CatCount(WriteBack(ty), if post then One(MovReg(RAX, R10)) else Empty, l);
    CatCount(add, last, l);
  }

  lemma {:induction false} CallCount(e: Expr, env: Env, depth: nat, l: Label)
    requires e.Call?
    ensures Count(Gen(e, env, depth), l) == ExprCount(e, l)
    decreases e, 0, 0
  {
    hide Gen, GenStackArgs, GenRegisterArgs, GenTarget, CallTail, Count, CalleeCount, ArgsCount;
    var padding := Padding(e.args, depth);
    var base := depth + padding;
    var ct, tail := GenTarget(e.callee, env, base + Len(e.args)), CallTail(e.ty, e.callee, e.args, padding);
    var cs, cr := GenStackArgs(e.args, env, 0, base), GenRegisterArgs(e.args, env, 0, base + StackUnits(e.args));
    TailCount(e.ty, e.callee, e.args, padding, l);
    ArgsCountIs(e.args, env, 0, base, base + StackUnits(e.args), l);
    TargetCount(e.callee, env, base + Len(e.args), l);
    PadCount(padding, l);
    CatCount(cs, cr, l);
    CatCount(ct, tail, l);
    CatCount(Cat(cs, cr), Cat(ct, tail), l);
    CatCount(Pad(padding), Cat(Cat(cs, cr), Cat(ct, tail)), l);
    CallShape(e, env, depth);
  }

  lemma {:induction false} PadCount(padding: nat, l: Label)
    ensures Count(Pad(padding), l) == 0
  {
  }

  lemma {:induction false} TargetCount(callee: Callee, env: Env, depth: nat, l: Label)
    ensures Count(GenTarget(callee, env, depth), l) == CalleeCount(callee, l)
    decreases callee
  {
    if callee.Indirect? {
      GenCount(callee.target, env, depth, l);
      PairCount(Push(RAX), Pop(R11), l);
      CatCount(Gen(callee.target, env, depth), Two(Push(RAX), Pop(R11)), l);
    }
  }

  lemma {:induction false} CallShape(e: Expr, env: Env, depth: nat)
    requires e.Call?
    ensures var padding := Padding(e.args, depth);
            var base := depth + padding;
            Gen(e, env, depth)
            == Cat(Pad(padding),
                   Cat(Cat(GenStackArgs(e.args, env, 0, base), GenRegisterArgs(e.args, env, 0, base + StackUnits(e.args))),
                       Cat(GenTarget(e.callee, env, base + Len(e.args)), CallTail(e.ty, e.callee, e.args, padding))))
  {
  }

  // Every argument is generated in exactly one of the two passes.
  lemma {:induction false} ArgsCountIs(args: List<Expr>, env: Env, i: nat, depth: nat, depth': nat, l: Label)
    ensures Count(GenStackArgs(args, env, i, depth), l) + Count(GenRegisterArgs(args, env, i, depth'), l)
         == ArgsCount(args, l)
    decreases args, 0
  {
    hide Gen;
    match args {
      case Nil =>
      case Cons(head, tail) =>
        ArgsCountIs(tail, env, i + 1, depth, depth' + 1, l);
        if i < REGISTER_ARGS {
          GenCount(head, env, depth', l);
          CatCount(Gen(head, env, depth'), One(Push(RAX)), l);
        } else {
          GenCount(head, env, depth + Len(tail), l);
          CatCount(Gen(head, env, depth + Len(tail)), One(Push(RAX)), l);
          NoRegisterArgs(tail, env, i + 1, depth' + 1, l);
        }
    }
  }

  lemma {:induction false} NoRegisterArgs(args: List<Expr>, env: Env, i: nat, depth: nat, l: Label)
    requires i >= REGISTER_ARGS
    ensures Count(GenRegisterArgs(args, env, i, depth), l) == 0
  {
  }

  // Labels handed out between two moments.
  function Within(a: nat, b: nat, l: Label): nat { One01(a < l <= b) }

  lemma {:induction false} ScaledCount(e: Expr, size: nat, l: Label)
    ensures ExprCount(Scaled(e, size), l) == ExprCount(e, l)
  {
  }

  lemma {:induction false} NodeCount(n: Node, k: nat, l: Label)
    ensures ExprCount(Lower(n, k).0, l) <= Within(k, Lower(n, k).1, l)
    decreases n, 2
  {
    if n.UpdatePointer? || n.Arith? || n.Advance? || n.Distance? || n.Test? || n.AndOr? || n.Sequence? || n.Choose? || n.Apply? {
      NodeCountRest(n, k, l);
      return;
    }
    NodeLabelsGrow(n, k);
    match n {
      case Number(_, _) =>
      case Name(_, _) =>
      case Read(_, place) => PlaceCount(place, k, l);
      case AddressOf(place) => PlaceCount(place, k, l);
      case Decay(place) => PlaceCount(place, k, l);
      case StepBy(_, _, _, _, place) => PlaceCount(place, k, l);
      case Sign(_, _, a) => NodeCount(a, k, l);
      case Complement(_, a) => NodeCount(a, k, l);
      case Not(a) => NodeCount(a, k, l);
      case Convert(_, a) => NodeCount(a, k, l);
      case Assign(_, place, right) => PlaceCount(place, k, l); SecondCount(right, k, LowerPlace(place, k).1, l);
      case Update(_, _, _, place, right) => PlaceCount(place, k, l); SecondCount(right, k, LowerPlace(place, k).1, l);
    }
  }

  lemma {:induction false} NodeCountRest(n: Node, k: nat, l: Label)
    requires n.UpdatePointer? || n.Arith? || n.Advance? || n.Distance? || n.Test? || n.AndOr? || n.Sequence? || n.Choose? || n.Apply?
    ensures ExprCount(Lower(n, k).0, l) <= Within(k, Lower(n, k).1, l)
    decreases n, 1, 2
  {
    if n.AndOr? || n.Choose? || n.Apply? {
      NodeCountLast(n, k, l);
      return;
    }
    NodeLabelsGrow(n, k);
    match n {
      case UpdatePointer(_, size, place, right) =>
        PlaceCount(place, k, l);
        SecondCount(right, k, LowerPlace(place, k).1, l);
        ScaledCount(Lower(right, LowerPlace(place, k).1).0, size, l);
      case Arith(_, _, a, b) => BothCount(n, a, b, k, l);
      case Advance(_, a, b, size) =>
        BothCount(n, a, b, k, l);
        ScaledCount(Lower(b, Lower(a, k).1).0, size, l);
      case Distance(a, b, _) => BothCount(n, a, b, k, l);
      case Test(_, a, b) => BothCount(n, a, b, k, l);
      case Sequence(a, b) => BothCount(n, a, b, k, l);
    }
  }

  lemma {:induction false} NodeCountLast(n: Node, k: nat, l: Label)
    requires n.AndOr? || n.Choose? || n.Apply?
    ensures ExprCount(Lower(n, k).0, l) <= Within(k, Lower(n, k).1, l)
    decreases n, 1, 2, 0
  {
    match n {
      case AndOr(_, _, _) => AndOrCount(n, k, l);
      case Choose(_, _, _, _) => ChooseCount(n, k, l);
      case Apply(_, target, args) =>
        if target.Through? { NodeCount(target.pointer, k, l); NodeLabelsGrow(target.pointer, k); }
        NodesCount(args, LowerFunction(target, k).1, l);
        ArgsLabelsGrow(args, LowerFunction(target, k).1);
    }
  }

  lemma {:induction false} AndOrCount(n: Node, k: nat, l: Label)
    requires n.AndOr?
    ensures ExprCount(Lower(n, k).0, l) <= Within(k, Lower(n, k).1, l)
    decreases n, 1, 1
  {
    BothCount(n, n.a, n.b, k, l);
    var (x, k1) := Lower(n.a, k);
    var (y, k2) := Lower(n.b, k1);
    assert Lower(n, k).0 == Logical(n.isAnd, x, y, k2 + 1, k2 + 2, k2 + 3);
  }

  lemma {:induction false} ChooseCount(n: Node, k: nat, l: Label)
    requires n.Choose?
    ensures ExprCount(Lower(n, k).0, l) <= Within(k, Lower(n, k).1, l)
    decreases n, 1, 1
  {
    BothCount(n, n.a, n.b, k + 3, l);
    var (x, k1) := Lower(n.a, k + 3);
    var (y, k2) := Lower(n.b, k1);
    var (z, k3) := Lower(n.c, k2);
    SecondCount(n.c, k + 3, k2, l);
    NodeLabelsGrow(n.c, k2);
    assert Lower(n, k).0 == Conditional(n.ty, x, y, z, k + 1, k + 2, k + 3);
  }

  lemma {:induction false} BothCount(n: Node, a: Node, b: Node, k: nat, l: Label)
    requires a < n && b < n
    ensures var k1 := Lower(a, k).1;
            var k2 := Lower(b, k1).1;
            ExprCount(Lower(a, k).0, l) + ExprCount(Lower(b, k1).0, l) <= Within(k, k2, l) && k <= k1 <= k2
    decreases n, 1, 0
  {
    hide Lower, ExprCount;
    NodeCount(a, k, l);
    NodeLabelsGrow(a, k);
    SecondCount(b, k, Lower(a, k).1, l);
    NodeLabelsGrow(b, Lower(a, k).1);
  }

  // A second operand takes labels after the first.
  lemma {:induction false} SecondCount(n: Node, k: nat, k1: nat, l: Label)
    requires k <= k1
    ensures Within(k, k1, l) + ExprCount(Lower(n, k1).0, l) <= Within(k, Lower(n, k1).1, l)
    decreases n, 3
  {
    NodeCount(n, k1, l);
    NodeLabelsGrow(n, k1);
  }

  lemma {:induction false} PlaceCount(p: Place, k: nat, l: Label)
    ensures ExprCount(LowerPlace(p, k).0, l) <= Within(k, LowerPlace(p, k).1, l) && k <= LowerPlace(p, k).1
    decreases p
  {
    PlaceLabelsGrow(p, k);
    match p {
      case Variable(_) =>
      case Pointee(pointer) => NodeCount(pointer, k, l);
      case Indexed(pointer, index, size) =>
        NodeCount(pointer, k, l);
        NodeLabelsGrow(pointer, k);
        SecondCount(index, k, Lower(pointer, k).1, l);
        ScaledCount(Lower(index, Lower(pointer, k).1).0, size, l);
      case Element(whole, index, size) =>
        PlaceCount(whole, k, l);
        SecondCount(index, k, LowerPlace(whole, k).1, l);
        ScaledCount(Lower(index, LowerPlace(whole, k).1).0, size, l);
      case Field(record, _) => PlaceCount(record, k, l);
      case Arrow(pointer, _) => NodeCount(pointer, k, l);
    }
  }

  lemma {:induction false} NodesCount(args: List<Node>, k: nat, l: Label)
    ensures ArgsCount(LowerArgs(args, k).0, l) <= Within(k, LowerArgs(args, k).1, l)
    decreases args
  {
    ArgsLabelsGrow(args, k);
    match args
    case Nil =>
    case Cons(head, tail) =>
      NodeCount(head, k, l);
      NodeLabelsGrow(head, k);
      NodesCount(tail, Lower(head, k).1, l);
      ArgsLabelsGrow(tail, Lower(head, k).1);
  }

  function InstCount(i: F.Inst, l: Label): nat {
    match i
    case Evaluate(e) => ExprCount(e, l)
    case Mark(m) => One01(m == l)
    case Goto(_) => 0
    case Branch(e, _) => ExprCount(e, l)
    case Dispatch(e, _, _) => ExprCount(e, l)
    case Return(None, _) => 0
    case Return(Some(e), _) => ExprCount(e, l)
  }

  function ListCount(r: FlatCode, l: Label): nat {
    match r
    case Empty => 0
    case One(i) => InstCount(i, l)
    case Cat(a, b) => ListCount(a, l) + ListCount(b, l)
  }

  lemma {:induction false} TableCount(table: List<F.CaseTarget>, default: Label, l: Label)
    ensures Count(TableCode(table, default), l) == 0
    decreases table
  {
    match table
    case Nil =>
    case Cons(c, rest) =>
      ThreeCount(MovImm64(RCX, c.value), CmpRcx, Jcc(4, c.goal), l);
      TableCount(rest, default, l);
  }

  lemma {:induction false} ReextendCount(ty: Ty, l: Label)
    ensures Count(Reextend(ty), l) == 0
  {
  }

  lemma {:induction false} NormalizeCount(ty: Ty, l: Label)
    ensures Count(Normalize(ty), l) == 0
  {
  }

  lemma {:induction false} InstCountIs(i: F.Inst, env: Env, l: Label)
    ensures Count(InstCode(i, env), l) == InstCount(i, l)
  {
    hide Gen, Two, Reextend, TableCode, Normalize;
    match i {
      case Evaluate(e) => GenCount(e, env, 0, l);
      case Branch(e, m) =>
        GenCount(e, env, 0, l);
        PairCount(TestRax, Jcc(4, m), l);
        CatCount(Gen(e, env, 0), Two(TestRax, Jcc(4, m)), l);
      case Dispatch(e, table, default) =>
        GenCount(e, env, 0, l);
        TableCount(table, default, l);
        ReextendCount(TypeOf(e), l);
        CatCount(Reextend(TypeOf(e)), TableCode(table, default), l);
        CatCount(Gen(e, env, 0), Cat(Reextend(TypeOf(e)), TableCode(table, default)), l);
      case Return(value, ty) =>
        PairCount(Leave, Ret, l);
        if value.Some? {
          GenCount(value.value, env, 0, l);
          NormalizeCount(ty, l);
          CatCount(Normalize(ty), Epilogue(), l);
          CatCount(Gen(value.value, env, 0), Cat(Normalize(ty), Epilogue()), l);
        }
      case _ =>
    }
  }

  lemma {:induction false} ListCountIs(r: FlatCode, env: Env, l: Label)
    ensures Count(ListCode(r, env), l) == ListCount(r, l)
    decreases r
  {
    match r
    case Empty =>
    case One(i) => InstCountIs(i, env, l);
    case Cat(a, b) => ListCountIs(a, env, l); ListCountIs(b, env, l);
  }

  lemma {:induction false} MarkCounted(r: FlatCode, k: nat, l: Label)
    requires k < Size(r) && Flat(r)[k] == F.Mark(l)
    ensures ListCount(r, l) >= 1
    decreases r
  {
    match r {
      case One(_) =>
      case Cat(a, b) => if k < Size(a) { MarkCounted(a, k, l); } else { MarkCounted(b, k - Size(a), l); }
    }
  }

  lemma {:induction false} MarkTwice(r: FlatCode, j: nat, k: nat, l: Label)
    requires j < k < Size(r) && Flat(r)[j] == F.Mark(l) && Flat(r)[k] == F.Mark(l)
    ensures ListCount(r, l) >= 2
    decreases r
  {
    match r {
      case Cat(a, b) =>
        if k < Size(a) { MarkTwice(a, j, k, l); }
        else if j >= Size(a) { MarkTwice(b, j - Size(a), k - Size(a), l); }
        else { MarkCounted(a, j, l); MarkCounted(b, k - Size(a), l); }
      case _ =>
    }
  }

  // Labels counted at most once stand at most once, in the list and in its code.
  lemma {:induction false} UniqueByCount(r: FlatCode, env: Env)
    requires forall l :: ListCount(r, l) <= 1
    ensures F.UniqueMarks(Flat(r)) && Unique(Cat(ListCode(r, env), Epilogue()))
  {
    var code := Flat(r);
    forall i, j | 0 <= i < j < |code| && code[i].Mark? && code[j].Mark? ensures code[i].id != code[j].id {
      if code[i].id == code[j].id { MarkTwice(r, i, j, code[i].id); }
    }
    forall l ensures Count(Cat(ListCode(r, env), Epilogue()), l) <= 1 {
      ListCountIs(r, env, l);
      PairCount(Leave, Ret, l);
    }
  }
}
