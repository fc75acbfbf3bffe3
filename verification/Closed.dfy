// Jumps in generated code: each goes to a label the code defines exactly once.
module Closed {
  import opened Words
  import opened Lists
  import opened Ropes
  import opened Options
  import opened Ir
  import opened Machine
  import opened Flow
  import opened Codegen
  import opened GenFlat
  import opened Statements
  import opened LowerStmt
  import opened LabelCounts
  import opened Functions
  import opened Compiled
  import R = Resolved
  import F = FlatIr

  predicate JumpsTo(r: Code, l: Label) {
    match r
    case Empty => false
    case One(i) => i == Jmp(l) || (i.Jcc? && i.target == l)
    case Cat(a, b) => JumpsTo(a, l) || JumpsTo(b, l)
  }

  predicate Straight(r: Code) {
    match r
    case Empty => true
    case One(i) => !i.Jmp? && !i.Jcc?
    case Cat(a, b) => Straight(a) && Straight(b)
  }

  // Every jump has its label in the same stretch of code.
  ghost predicate SelfContained(r: Code) {
    forall l :: JumpsTo(r, l) ==> Count(r, l) > 0
  }

  lemma {:induction false} StraightJumps(r: Code, l: Label)
    requires Straight(r)
    ensures !JumpsTo(r, l)
    decreases r
  {
    match r
    case Empty =>
    case One(_) =>
    case Cat(a, b) => StraightJumps(a, l); StraightJumps(b, l);
  }

  lemma {:induction false} StraightCat(a: Code, b: Code)
    requires Straight(a) && Straight(b)
    ensures Straight(Cat(a, b))
  {
  }

  lemma {:induction false} StraightContained(r: Code)
    requires Straight(r)
    ensures SelfContained(r)
  {
    forall l ensures !JumpsTo(r, l) { StraightJumps(r, l); }
  }

  lemma {:induction false} CatContained(a: Code, b: Code)
    requires SelfContained(a) && SelfContained(b)
    ensures SelfContained(Cat(a, b))
  {
    forall l | JumpsTo(Cat(a, b), l) ensures Count(Cat(a, b), l) > 0 { CatCount(a, b, l); }
  }

  // Code followed by a straight stretch.
  lemma {:induction false} ThenStraight(a: Code, b: Code)
    requires SelfContained(a) && Straight(b)
    ensures SelfContained(Cat(a, b))
  {
    StraightContained(b);
    CatContained(a, b);
  }

  lemma {:induction false} StraightPair(i: Instr, j: Instr)
    requires !i.Jmp? && !i.Jcc? && !j.Jmp? && !j.Jcc?
    ensures Straight(Two(i, j))
  {
  }

  lemma {:induction false} StraightThree(i: Instr, j: Instr, k: Instr)
    requires !i.Jmp? && !i.Jcc? && !j.Jmp? && !j.Jcc? && !k.Jmp? && !k.Jcc?
    ensures Straight(Three(i, j, k))
  {
    StraightPair(j, k);
  }

  lemma {:induction false} StraightOperator(op: Operator, ty: Ty)
    ensures Straight(OperatorCode(op, ty.signed)) && Straight(Normalize(ty))
    ensures Straight(Cat(OperatorCode(op, ty.signed), Normalize(ty)))
  {
    StraightPair(Cqo, Idiv);
    StraightPair(ZeroEdx, Instr.Div);
    StraightThree(Cqo, Idiv, MovReg(RAX, RDX));
    StraightThree(ZeroEdx, Instr.Div, MovReg(RAX, RDX));
  }

  lemma {:induction false} OperandsContained(a: Code, b: Code, rest: Code)
    requires SelfContained(a) && SelfContained(b) && Straight(rest)
    ensures SelfContained(Operands(a, b, rest))
  {
    StraightPair(MovReg(RCX, RAX), Pop(RAX));
    ThenStraight(a, One(Push(RAX)));
    ThenStraight(b, TakeOperands());
    ThenStraight(Cat(b, TakeOperands()), rest);
    CatContained(Cat(a, One(Push(RAX))), Cat(Cat(b, TakeOperands()), rest));
  }

  lemma {:induction false} JumpsCat(a: Code, b: Code, l: Label)
    ensures JumpsTo(Cat(a, b), l) == (JumpsTo(a, l) || JumpsTo(b, l))
  {
  }

  lemma {:induction false} PairJumps(i: Instr, j: Instr, l: Label)
    ensures JumpsTo(Two(i, j), l) == (JumpsTo(One(i), l) || JumpsTo(One(j), l))
  {
    JumpsCat(One(i), One(j), l);
  }

  lemma {:induction false} LogicalContained(isAnd: bool, a: Code, b: Code, skip: Label, end: Label)
    requires SelfContained(a) && SelfContained(b)
    ensures SelfContained(LogicalCode(isAnd, a, b, skip, end))
  {
    var cond: Condition, code := if isAnd then 4 else 5, LogicalCode(isAnd, a, b, skip, end);
    var last := if isAnd then ZeroEax else MovImm32(RAX, 1);
    forall l | JumpsTo(code, l) ensures Count(code, l) > 0 {
      LogicalCount(isAnd, a, b, skip, end, l);
      PairJumps(TestRax, Jcc(cond, skip), l);
      JumpsCat(a, Two(TestRax, Jcc(cond, skip)), l);
      StraightThree(TestRax, SetCond(5), MovzxAl);
      StraightJumps(SetTruth(5), l);
      JumpsCat(SetTruth(5), One(Jmp(end)), l);
      JumpsCat(b, Cat(SetTruth(5), One(Jmp(end))), l);
      StraightThree(Lab(skip), last, Lab(end));
      StraightJumps(Three(Lab(skip), last, Lab(end)), l);
      JumpsCat(Cat(b, Cat(SetTruth(5), One(Jmp(end)))), Three(Lab(skip), last, Lab(end)), l);
    }
  }

  lemma {:induction false} ConditionalContained(a: Code, b: Code, c: Code, otherwise: Label, end: Label)
    requires SelfContained(a) && SelfContained(b) && SelfContained(c)
    ensures SelfContained(ConditionalCode(a, b, c, otherwise, end))
  {
    var code := ConditionalCode(a, b, c, otherwise, end);
    var finish := Cat(One(Lab(otherwise)), Cat(c, One(Lab(end))));
    forall l | JumpsTo(code, l) ensures Count(code, l) > 0 {
      ConditionalCount(a, b, c, otherwise, end, l);
      PairJumps(TestRax, Jcc(4, otherwise), l);
      JumpsCat(a, Two(TestRax, Jcc(4, otherwise)), l);
      JumpsCat(b, One(Jmp(end)), l);
      JumpsCat(c, One(Lab(end)), l);
      JumpsCat(One(Lab(otherwise)), Cat(c, One(Lab(end))), l);
      JumpsCat(Cat(b, One(Jmp(end))), finish, l);
    }
  }

  lemma {:induction false} StraightPops(i: nat, n: nat)
    requires n <= REGISTER_ARGS
    ensures Straight(PopArguments(i, n))
    decreases n - i
  {
    if i < n { StraightPops(i + 1, n); }
  }

  lemma {:induction false} StraightTail(ty: Ty, callee: Callee, args: List<Expr>, padding: nat)
    ensures Straight(CallTail(ty, callee, args, padding))
  {
    StraightPops(0, RegisterCount(args));
    StraightOperator(Add, ty);
    StraightCat(Release(padding), Normalize(ty));
    StraightCat(Release(StackUnits(args)), Cat(Release(padding), Normalize(ty)));
    StraightCat(One(CallInstr(callee)), Cleanup(ty, args, padding));
    StraightCat(VectorCount(callee), Cat(One(CallInstr(callee)), Cleanup(ty, args, padding)));
  }

  lemma {:induction false} GenContained(e: Expr, env: Env, depth: nat)
    ensures SelfContained(Gen(e, env, depth))
    decreases e, 3
  {
    hide SelfContained, Straight, Two, Three, OperatorCode, Normalize, ConditionCode, AddImmediate, WriteBack, SetTruth;
    match e {
      case Const(ty, imm) => LeafContained(e, env, depth);
      case LoadSym(_, _) => LeafContained(e, env, depth);
      case AddrSym(_) => LeafContained(e, env, depth);
      case AddrOf(a) => GenContained(a, env, depth);
      case Load(ty, a) => GenContained(a, env, depth); StraightOne(LoadRax(ty)); ThenStraight(Gen(a, env, depth), One(LoadRax(ty)));
      case Member(_, _) => SimpleContained(e, env, depth);
      case Unary(_, _, _) => SimpleContained(e, env, depth);
      case LogicalNot(_) => SimpleContained(e, env, depth);
      case Cast(_, _) => SimpleContained(e, env, depth);
      case Comma(a, b) => GenContained(a, env, depth); GenContained(b, env, depth); CatContained(Gen(a, env, depth), Gen(b, env, depth));
      case Store(ty, a, b) =>
        GenContained(a, env, depth);
        GenContained(b, env, depth + 1);
        StraightPair(StoreReg(ty.width, RCX, RAX), MovReg(RAX, RCX));
        OperandsContained(Gen(a, env, depth), Gen(b, env, depth + 1), Two(StoreReg(ty.width, RCX, RAX), MovReg(RAX, RCX)));
      case Binary(ty, op, a, b) =>
        GenContained(a, env, depth);
        GenContained(b, env, depth + 1);
        StraightOperator(op, ty);
        OperandsContained(Gen(a, env, depth), Gen(b, env, depth + 1), Cat(OperatorCode(op, ty.signed), Normalize(ty)));
      case Compare(cmp, a, b) =>
        GenContained(a, env, depth);
        GenContained(b, env, depth + 1);
        var cond := ConditionCode(cmp, TypeOf(a).signed);
        StraightThree(CmpRcx, SetCond(cond), MovzxAl);
        OperandsContained(Gen(a, env, depth), Gen(b, env, depth + 1), Three(CmpRcx, SetCond(cond), MovzxAl));
      case Logical(isAnd, a, b, t, f, end) =>
        GenContained(a, env, depth);
        GenContained(b, env, depth);
        LogicalContained(isAnd, Gen(a, env, depth), Gen(b, env, depth), if isAnd then f else t, end);
      case Conditional(_, a, b, c, _, f, end) =>
        GenContained(a, env, depth);
        GenContained(b, env, depth);
        GenContained(c, env, depth);
        ConditionalContained(Gen(a, env, depth), Gen(b, env, depth), Gen(c, env, depth), f, end);
      case Compound(_, _, _, _) => UpdateContained(e, env, depth);
      case Increment(_, _, _, _) => UpdateContained(e, env, depth);
      case Call(_, _, _) => CallContained(e, env, depth);
    }
  }

  lemma {:induction false} StraightOne(i: Instr)
    requires !i.Jmp? && !i.Jcc?
    ensures Straight(One(i))
  {
  }

  lemma {:induction false} LeafContained(e: Expr, env: Env, depth: nat)
    requires e.Const? || e.LoadSym? || e.AddrSym?
    ensures SelfContained(Gen(e, env, depth))
  {
    StraightContained(Gen(e, env, depth));
  }

  lemma {:induction false} SimpleContained(e: Expr, env: Env, depth: nat)
    requires e.Member? || e.Unary? || e.LogicalNot? || e.Cast?
    ensures SelfContained(Gen(e, env, depth))
    decreases e, 1
  {
    match e {
      case Member(a, offset) =>
        GenContained(a, env, depth);
        var rest := if offset == 0 then Empty
                    else One(if 0 <= offset <= 0x7fff_ffff then AddImm(offset) else MovImm64(RAX, Wrap(INT, offset)));
        ThenStraight(Gen(a, env, depth), rest);
      case Unary(ty, uop, a) =>
        GenContained(a, env, depth);
        var rest := Cat(One(if uop == Neg then NegRax else NotRax), Normalize(ty));
        assert Straight(rest);
        ThenStraight(Gen(a, env, depth), rest);
      case LogicalNot(a) =>
        GenContained(a, env, depth);
        StraightThree(TestRax, SetCond(4), MovzxAl);
        ThenStraight(Gen(a, env, depth), SetTruth(4));
      case Cast(ty, a) =>
        GenContained(a, env, depth);
        ThenStraight(Gen(a, env, depth), Normalize(ty));
    }
  }

  lemma {:induction false} UpdateContained(e: Expr, env: Env, depth: nat)
    requires e.Compound? || e.Increment?
    ensures SelfContained(Gen(e, env, depth))
    decreases e, 1
  {
    hide SelfContained, Straight, OperatorCode, Normalize, WriteBack, AddImmediate, TakeOperands, Three;
    GenContained(e.addr, env, depth);
    if e.Compound? {
      GenContained(e.value, env, depth + 2);
      CompoundContained(Gen(e.addr, env, depth), Gen(e.value, env, depth + 2), e.ty, e.op);
    } else {
      IncrementContained(Gen(e.addr, env, depth), e.ty, e.step, e.post);
    }
  }

  lemma {:induction false} CompoundContained(a: Code, b: Code, ty: Ty, op: Operator)
    requires SelfContained(a) && SelfContained(b)
    ensures var fetch := Three(Push(RAX), LoadRax(ty), Push(RAX));
            var operate := Cat(OperatorCode(op, ty.signed), Normalize(ty));
            SelfContained(Cat(Cat(a, fetch), Cat(Cat(b, TakeOperands()), Cat(operate, WriteBack(ty)))))
  {
    hide SelfContained;
    var fetch, operate := Three(Push(RAX), LoadRax(ty), Push(RAX)), Cat(OperatorCode(op, ty.signed), Normalize(ty));
    StraightPair(Pop(R11), StoreReg(ty.width, RAX, R11));
    StraightThree(Push(RAX), LoadRax(ty), Push(RAX));
    StraightPair(MovReg(RCX, RAX), Pop(RAX));
    StraightOperator(op, ty);
    StraightCat(operate, WriteBack(ty));
    ThenStraight(a, fetch);
    ThenStraight(b, TakeOperands());
    ThenStraight(Cat(b, TakeOperands()), Cat(operate, WriteBack(ty)));
    CatContained(Cat(a, fetch), Cat(Cat(b, TakeOperands()), Cat(operate, WriteBack(ty))));
  }

  lemma {:induction false} IncrementContained(a: Code, ty: Ty, step: int, post: bool)
    requires SelfContained(a)
    ensures var fetch, add := Three(Push(RAX), LoadRax(ty), MovReg(R10, RAX)), Cat(AddImmediate(step), Normalize(ty));
            var last := Cat(WriteBack(ty), if post then One(MovReg(RAX, R10)) else Empty);
            SelfContained(Cat(Cat(a, fetch), Cat(add, last)))
  {
    hide SelfContained;
    var fetch, add := Three(Push(RAX), LoadRax(ty), MovReg(R10, RAX)), Cat(AddImmediate(step), Normalize(ty));
    var last := Cat(WriteBack(ty), if post then One(MovReg(RAX, R10)) else Empty);
    StraightPair(Pop(R11), StoreReg(ty.width, RAX, R11));
    StraightThree(Push(RAX), LoadRax(ty), MovReg(R10, RAX));
    StraightPair(MovImm64(RCX, step), AddRcx);
    StraightOperator(Add, ty);
    StraightCat(AddImmediate(step), Normalize(ty));
    StraightCat(WriteBack(ty), if post then One(MovReg(RAX, R10)) else Empty);
    StraightCat(add, last);
    ThenStraight(a, fetch);
    ThenStraight(Cat(a, fetch), Cat(add, last));
  }

  lemma {:induction false} StackArgsContained(args: List<Expr>, env: Env, i: nat, depth: nat)
    ensures SelfContained(GenStackArgs(args, env, i, depth))
    decreases args, 0
  {
    hide SelfContained;
    match args {
      case Nil => StraightContained(Empty);
      case Cons(head, tail) =>
        StackArgsContained(tail, env, i + 1, depth);
        var ct := GenStackArgs(tail, env, i + 1, depth);
        if i < REGISTER_ARGS {
          ThenStraight(ct, Empty);
        } else {
          GenContained(head, env, depth + Len(tail));
          ThenStraight(Gen(head, env, depth + Len(tail)), One(Push(RAX)));
          CatContained(ct, Cat(Gen(head, env, depth + Len(tail)), One(Push(RAX))));
        }
    }
  }

  lemma {:induction false} RegisterArgsContained(args: List<Expr>, env: Env, i: nat, depth: nat)
    ensures SelfContained(GenRegisterArgs(args, env, i, depth))
    decreases args, 0
  {
    hide SelfContained;
    StraightContained(Empty);
    match args {
      case Nil =>
      case Cons(head, tail) =>
        if i < REGISTER_ARGS {
          GenContained(head, env, depth);
          RegisterArgsContained(tail, env, i + 1, depth + 1);
          ThenStraight(Gen(head, env, depth), One(Push(RAX)));
          CatContained(Cat(Gen(head, env, depth), One(Push(RAX))), GenRegisterArgs(tail, env, i + 1, depth + 1));
        }
    }
  }

  lemma {:induction false} CallContained(e: Expr, env: Env, depth: nat)
    requires e.Call?
    ensures SelfContained(Gen(e, env, depth))
    decreases e, 1
  {
    hide SelfContained, Gen, GenStackArgs, GenRegisterArgs, CallTail, Straight;
    var callee, args, padding := e.callee, e.args, Padding(e.args, depth);
    var base := depth + padding;
    var ct, tail := GenTarget(callee, env, base + Len(args)), CallTail(e.ty, callee, args, padding);
    var cs, cr := GenStackArgs(args, env, 0, base), GenRegisterArgs(args, env, 0, base + StackUnits(args));
    StraightTail(e.ty, callee, args, padding);
    StackArgsContained(args, env, 0, base);
    RegisterArgsContained(args, env, 0, base + StackUnits(args));
    if callee.Indirect? {
      GenContained(callee.target, env, base + Len(args));
      StraightPair(Push(RAX), Pop(R11));
      ThenStraight(Gen(callee.target, env, base + Len(args)), Two(Push(RAX), Pop(R11)));
    } else {
      StraightContained(Empty);
    }
    StraightContained(Pad(padding));
    CatContained(cs, cr);
    ThenStraight(ct, tail);
    CatContained(Cat(cs, cr), Cat(ct, tail));
    CatContained(Pad(padding), Cat(Cat(cs, cr), Cat(ct, tail)));
    CallShape(e, env, depth);
  }

  lemma {:induction false} TableJumps(table: List<F.CaseTarget>, default: Label, l: Label)
    ensures JumpsTo(TableCode(table, default), l) <==> default == l || R.InTable(table, l)
    decreases table
  {
    match table
    case Nil =>
    case Cons(c, rest) =>
      PairJumps(CmpRcx, Jcc(4, c.goal), l);
      JumpsCat(One(MovImm64(RCX, c.value)), Two(CmpRcx, Jcc(4, c.goal)), l);
      TableJumps(rest, default, l);
  }

  // A jump in an instruction's code is the instruction's own or has its label there.
  lemma {:induction false} InstJumps(i: F.Inst, env: Env, l: Label)
    requires JumpsTo(InstCode(i, env), l)
    ensures R.Jumps(One(i), l) || Count(InstCode(i, env), l) > 0
  {
    hide Gen, Two, Reextend, TableCode, Normalize, Epilogue;
    match i {
      case Evaluate(e) => GenContained(e, env, 0);
      case Mark(_) =>
      case Goto(_) =>
      case Branch(e, m) =>
        GenContained(e, env, 0);
        PairJumps(TestRax, Jcc(4, m), l);
      case Dispatch(e, table, default) =>
        GenContained(e, env, 0);
        TableJumps(table, default, l);
        ReextendJumps(TypeOf(e), l);
        JumpsCat(Reextend(TypeOf(e)), TableCode(table, default), l);
      case Return(value, ty) =>
        StraightEpilogue(ty);
        StraightJumps(Epilogue(), l);
        if value.Some? {
          GenContained(value.value, env, 0);
          StraightJumps(Cat(Normalize(ty), Epilogue()), l);
        }
    }
  }

  lemma {:induction false} ReextendJumps(ty: Ty, l: Label)
    ensures !JumpsTo(Reextend(ty), l)
  {
  }

  lemma {:induction false} StraightEpilogue(ty: Ty)
    ensures Straight(Epilogue()) && Straight(Cat(Normalize(ty), Epilogue()))
  {
    StraightPair(Leave, Ret);
    StraightOperator(Add, ty);
  }

  lemma {:induction false} ListJumps(r: Rope<F.Inst>, env: Env, l: Label)
    requires JumpsTo(ListCode(r, env), l)
    ensures R.Jumps(r, l) || Count(ListCode(r, env), l) > 0
    decreases r
  {
    match r
    case Empty =>
    case One(i) => InstJumps(i, env, l);
    case Cat(a, b) => if JumpsTo(ListCode(a, env), l) { ListJumps(a, env, l); } else { ListJumps(b, env, l); }
  }

  lemma {:induction false} MarkedIsCounted(r: Rope<F.Inst>, l: Label)
    requires R.Marks(r, l)
    ensures ListCount(r, l) > 0
    decreases r
  {
    match r
    case One(_) =>
    case Cat(a, b) => if R.Marks(a, l) { MarkedIsCounted(a, l); } else { MarkedIsCounted(b, l); }
  }

  // Every jump in a function's code goes to a label the code defines exactly once.
  lemma {:induction false} JumpsHaveOneLabel(body: List<Stmt>, ret: Ty, env: Env, l: Label)
    requires Accepted(body) && JumpsTo(FunctionCode(FunctionList(body, ret).0, env), l)
    ensures Count(FunctionCode(FunctionList(body, ret).0, env), l) == 1
  {
    hide LowerList, ListCode, ListCount;
    var r := FunctionList(body, ret).0;
    StraightEpilogue(ret);
    StraightJumps(Epilogue(), l);
    JumpsCat(ListCode(r, env), Epilogue(), l);
    ListJumps(r, env, l);
    if R.Jumps(r, l) {
      R.ListJumpsLand(body, ret, l);
      MarkedIsCounted(r, l);
    }
    ListCountIs(r, env, l);
    FunctionLabelsUnique(body, ret, l);
    PairCount(Leave, Ret, l);
    CatCount(ListCode(r, env), Epilogue(), l);
  }
}
