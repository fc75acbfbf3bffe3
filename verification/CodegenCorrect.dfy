// The code generated for an expression computes it: RAX ends as the value
// extended to 64 bits, memory as the meaning says, the stack as it was.
module CodegenCorrect {
  import opened Words
  import opened Options
  import opened Ir
  import opened Lists
  import opened Machine
  import opened Ropes
  import opened Flow
  import opened Codegen
  import opened CodegenSteps

  ghost predicate Delivers(d: Data, o: Outcome<int>, f: Flow) {
    match o
    case Ok(v, m) => Yields(f, v, d.stack, m)
    case Trap => f == Faulted
    case Undefined => true
  }

  function Pushed(d: Data): Data { d.(stack := Cons(d.r.rax, d.stack)) }

  lemma {:induction false} GenCorrect(h: Host, e: Expr, d: Data, depth: nat)
    requires WellFormed(e) && Unique(Gen(e, h.env, depth)) && Len(d.stack) == depth
    ensures Delivers(d, Eval(e, h.env, d.mem), Pass(h, Gen(e, h.env, depth), Going(d)))
    decreases e, 5
  {
    match e {
      case Const(_, imm) => SmallWord(imm);
      case LoadSym(_, _) => LeafCorrect(h, e, d);
      case AddrSym(_) => LeafCorrect(h, e, d);
      case Load(_, _) => LoadCorrect(h, e, d, depth);
      case Store(_, _, _) => StoreCorrect(h, e, d, depth);
      case AddrOf(place) => GenCorrect(h, place, d, depth);
      case Member(_, _) => MemberCorrect(h, e, d, depth);
      case Binary(_, _, _, _) => BinaryCorrect(h, e, d, depth);
      case Compare(_, _, _) => CompareCorrect(h, e, d, depth);
      case Unary(_, _, _) => UnaryCorrect(h, e, d, depth);
      case LogicalNot(_) => UnaryCorrect(h, e, d, depth);
      case Logical(_, _, _, _, _, _) => LogicalCorrect(h, e, d, depth);
      case Conditional(_, _, _, _, _, _, _) => ConditionalCorrect(h, e, d, depth);
      case Comma(_, _) => CommaCorrect(h, e, d, depth);
      case Cast(_, _) => UnaryCorrect(h, e, d, depth);
      case Compound(_, _, _, _) => CompoundCorrect(h, e, d, depth);
      case Increment(_, _, _, _) => IncrementCorrect(h, e, d, depth);
      case Call(_, _, _) => CallCorrect(h, e, d, depth);
    }
  }

  lemma {:induction false} LeafCorrect(h: Host, e: Expr, d: Data)
    requires e.LoadSym? || e.AddrSym?
    ensures Delivers(d, Eval(e, h.env, d.mem), Pass(h, Gen(e, h.env, Len(d.stack)), Going(d)))
  {
    var place := if e.sym in h.env.locals then h.env.rbp + h.env.locals[e.sym] else h.env.globals(e.sym);
    U64Twice(place);
  }

  // A part evaluated first, on the same stack.
  lemma {:induction false} FirstCorrect(h: Host, e: Expr, a: Expr, rest: Code, d: Data, depth: nat)
    returns (d': Data)
    requires a < e && WellFormed(a) && Len(d.stack) == depth
    requires Unique(Cat(Gen(a, h.env, depth), rest))
    ensures var f := Pass(h, Cat(Gen(a, h.env, depth), rest), Going(d));
            match Eval(a, h.env, d.mem)
            case Ok(x, m) => f == Pass(h, rest, Going(d'))
                             && d'.r.rax == U64(x) && d'.stack == d.stack && d'.mem == m
            case Trap => f == Faulted
            case Undefined => true
    decreases e, 0
  {
    var ca := Gen(a, h.env, depth);
    UniqueParts(ca, rest);
    GenCorrect(h, a, d, depth);
    var f := Pass(h, ca, Going(d));
    d' := if f.Going? then f.d else d;
    if f == Faulted { PassStopped(h, rest, Faulted); }
  }

  lemma {:induction false} PushPass(h: Host, d: Data)
    ensures Pass(h, One(Push(RAX)), Going(d)) == Going(Pushed(d))
  {
  }

  // Two operands: the first kept on the stack while the second is computed.
  lemma {:induction false} OperandsCorrect(h: Host, e: Expr, a: Expr, b: Expr, rest: Code, d: Data, depth: nat)
    returns (d': Data)
    requires a < e && b < e && WellFormed(a) && WellFormed(b) && Len(d.stack) == depth
    requires Unique(Operands(Gen(a, h.env, depth), Gen(b, h.env, depth + 1), rest))
    ensures var f := Pass(h, Operands(Gen(a, h.env, depth), Gen(b, h.env, depth + 1), rest), Going(d));
            match Eval(a, h.env, d.mem)
            case Ok(x, m1) =>
              (match Eval(b, h.env, m1)
               case Ok(y, m2) => f == Pass(h, rest, Going(d')) && d'.r.rax == U64(x)
                                 && d'.r.rcx == U64(y) && d'.stack == d.stack && d'.mem == m2
               case Trap => f == Faulted
               case Undefined => true)
            case Trap => f == Faulted
            case Undefined => true
    decreases e, 1
  {
    hide Gen, Eval, WellFormed, Count, Through, U64;
    var ca, cb := Gen(a, h.env, depth), Gen(b, h.env, depth + 1);
    var keep, second := Cat(ca, One(Push(RAX))), Cat(Cat(cb, TakeOperands()), rest);
    UniqueParts(keep, second);
    UniqueParts(Cat(cb, TakeOperands()), rest);
    d' := FirstCorrect(h, e, a, One(Push(RAX)), d, depth);
    var oa := Eval(a, h.env, d.mem);
    if oa.Trap? { PassStopped(h, second, Faulted); }
    if oa.Ok? {
      var d1 := Pushed(d');
      PushPass(h, d');
      assert Pass(h, keep, Going(d)) == Going(d1);
      d' := FirstCorrect(h, e, b, TakeOperands(), d1, depth + 1);
      var ob := Eval(b, h.env, oa.mem);
      if ob.Trap? { PassStopped(h, rest, Faulted); }
      if ob.Ok? {
        TakePass(h, d', d.stack, d1.r.rax);
        d' := Pass(h, TakeOperands(), Going(d')).d;
      }
    }
  }

  lemma {:induction false} LoadCorrect(h: Host, e: Expr, d: Data, depth: nat)
    requires e.Load? && WellFormed(e) && Unique(Gen(e, h.env, depth)) && Len(d.stack) == depth
    ensures Delivers(d, Eval(e, h.env, d.mem), Pass(h, Gen(e, h.env, depth), Going(d)))
    decreases e, 2
  {
    var d1 := FirstCorrect(h, e, e.addr, One(LoadRax(e.ty)), d, depth);
    var o := Eval(e.addr, h.env, d.mem);
    if o.Ok? { U64Twice(o.value); }
  }

  lemma {:induction false} StoreCorrect(h: Host, e: Expr, d: Data, depth: nat)
    requires e.Store? && WellFormed(e) && Unique(Gen(e, h.env, depth)) && Len(d.stack) == depth
    ensures Delivers(d, Eval(e, h.env, d.mem), Pass(h, Gen(e, h.env, depth), Going(d)))
    decreases e, 2
  {
    var write := Two(StoreReg(e.ty.width, RCX, RAX), MovReg(RAX, RCX));
    var d1 := OperandsCorrect(h, e, e.addr, e.value, write, d, depth);
    var oa := Eval(e.addr, h.env, d.mem);
    if oa.Ok? {
      var ob := Eval(e.value, h.env, oa.mem);
      if ob.Ok? { StorePass(h, d1, e.ty, oa.value, ob.value); }
    }
  }

  lemma {:induction false} MemberCorrect(h: Host, e: Expr, d: Data, depth: nat)
    requires e.Member? && WellFormed(e) && Unique(Gen(e, h.env, depth)) && Len(d.stack) == depth
    ensures Delivers(d, Eval(e, h.env, d.mem), Pass(h, Gen(e, h.env, depth), Going(d)))
    decreases e, 2
  {
    hide LoadBytes, StoreBytes, Wrap, Holds;
    var rest := if e.offset == 0 then Empty else One(AddImm(e.offset));
    var d1 := FirstCorrect(h, e, e.base, rest, d, depth);
    var o := Eval(e.base, h.env, d.mem);
    if o.Ok? {
      U64Twice(o.value + e.offset);
      U64AddRight(o.value, e.offset);
    }
  }

  lemma {:induction false} BinaryCorrect(h: Host, e: Expr, d: Data, depth: nat)
    requires e.Binary? && WellFormed(e) && Unique(Gen(e, h.env, depth)) && Len(d.stack) == depth
    ensures Delivers(d, Eval(e, h.env, d.mem), Pass(h, Gen(e, h.env, depth), Going(d)))
    decreases e, 2
  {
    var rest := Cat(OperatorCode(e.op, e.ty.signed), Normalize(e.ty));
    var d1 := OperandsCorrect(h, e, e.a, e.b, rest, d, depth);
    var oa := Eval(e.a, h.env, d.mem);
    if oa.Ok? {
      var ob := Eval(e.b, h.env, oa.mem);
      if ob.Ok? { OperatorPass(h, d1, e.ty, e.op, oa.value, ob.value); }
    }
  }

  lemma {:induction false} CompareCorrect(h: Host, e: Expr, d: Data, depth: nat)
    requires e.Compare? && WellFormed(e) && Unique(Gen(e, h.env, depth)) && Len(d.stack) == depth
    ensures Delivers(d, Eval(e, h.env, d.mem), Pass(h, Gen(e, h.env, depth), Going(d)))
    decreases e, 2
  {
    var signed := TypeOf(e.a).signed;
    var rest := Three(CmpRcx, SetCond(ConditionCode(e.cmp, signed)), MovzxAl);
    var d1 := OperandsCorrect(h, e, e.a, e.b, rest, d, depth);
    var oa := Eval(e.a, h.env, d.mem);
    if oa.Ok? {
      var ob := Eval(e.b, h.env, oa.mem);
      if ob.Ok? { ComparePass(h, d1, e.cmp, signed, oa.value, ob.value); }
    }
  }

  lemma {:induction false} UnaryCorrect(h: Host, e: Expr, d: Data, depth: nat)
    requires (e.Unary? || e.LogicalNot? || e.Cast?) && WellFormed(e)
    requires Unique(Gen(e, h.env, depth)) && Len(d.stack) == depth
    ensures Delivers(d, Eval(e, h.env, d.mem), Pass(h, Gen(e, h.env, depth), Going(d)))
    decreases e, 2
  {
    hide U64, Wrap, Through, Normalize, SetTruth;
    var rest := if e.Unary? then Cat(One(if e.uop == Neg then NegRax else NotRax), Normalize(e.ty))
                else if e.LogicalNot? then SetTruth(4) else Normalize(e.ty);
    var d1 := FirstCorrect(h, e, e.a, rest, d, depth);
    var o := Eval(e.a, h.env, d.mem);
    if o.Ok? {
      if e.Unary? { UnaryPass(h, d1, e.ty, e.uop, o.value); }
      else if e.LogicalNot? { TruthPass(h, d1, 4, o.value); }
      else { NormalizePass(h, e.ty, d1, o.value); }
    }
  }

  lemma {:induction false} CommaCorrect(h: Host, e: Expr, d: Data, depth: nat)
    requires e.Comma? && WellFormed(e) && Unique(Gen(e, h.env, depth)) && Len(d.stack) == depth
    ensures Delivers(d, Eval(e, h.env, d.mem), Pass(h, Gen(e, h.env, depth), Going(d)))
    decreases e, 2
  {
    var cb := Gen(e.b, h.env, depth);
    UniqueParts(Gen(e.a, h.env, depth), cb);
    var d1 := FirstCorrect(h, e, e.a, cb, d, depth);
    if Eval(e.a, h.env, d.mem).Ok? { GenCorrect(h, e.b, d1, depth); }
  }

  function LogicalEnd(isAnd: bool, skip: Label, end: Label): Code {
    Three(Lab(skip), if isAnd then ZeroEax else MovImm32(RAX, 1), Lab(end))
  }

  lemma {:induction false} LogicalEndLabels(isAnd: bool, skip: Label, end: Label)
    ensures Count(LogicalEnd(isAnd, skip, end), skip) > 0 && Count(LogicalEnd(isAnd, skip, end), end) > 0
    ensures Unique(LogicalEnd(isAnd, skip, end)) ==> skip != end
  {
    var last := Two(if isAnd then ZeroEax else MovImm32(RAX, 1), Lab(end));
    assert Count(last, end) == 1;
    if skip == end { assert Count(LogicalEnd(isAnd, skip, end), end) == 2; }
  }

  lemma {:induction false} LogicalEndPass(h: Host, isAnd: bool, skip: Label, end: Label, d: Data)
    requires skip != end
    ensures Pass(h, LogicalEnd(isAnd, skip, end), Seeking(end, d)) == Going(d)
    ensures Yields(Pass(h, LogicalEnd(isAnd, skip, end), Seeking(skip, d)), Bool(!isAnd), d.stack, d.mem)
  {
    var last := if isAnd then ZeroEax else MovImm32(RAX, 1);
    Pass3(h, Lab(skip), last, Lab(end), Seeking(end, d));
    Pass3(h, Lab(skip), last, Lab(end), Seeking(skip, d));
  }

  lemma {:induction false} LogicalSecondPass(h: Host, cb: Code, end: Label, d: Data, ob: Outcome<int>)
    requires Delivers(d, ob, Pass(h, cb, Going(d)))
    ensures var f := Pass(h, Cat(cb, Cat(SetTruth(5), One(Jmp(end)))), Going(d));
            match ob
            case Ok(y, m) => f.Seeking? && f.l == end && Yields(Going(f.d), Bool(Truth(y)), d.stack, m)
            case Trap => f == Faulted
            case Undefined => true
  {
    var last := Cat(SetTruth(5), One(Jmp(end)));
    if ob.Trap? { PassStopped(h, last, Faulted); }
    if ob.Ok? {
      var d2 := Pass(h, cb, Going(d)).d;
      TruthPass(h, d2, 5, ob.value);
      assert Pass(h, last, Going(d2)) == Seeking(end, Pass(h, SetTruth(5), Going(d2)).d);
    }
  }

  // The short-circuit operators, given what their operands' code does.
  lemma {:induction false} LogicalPass(h: Host, isAnd: bool, ca: Code, cb: Code, skip: Label, end: Label,
                                       d: Data, oa: Outcome<int>, d1: Data, ob: Outcome<int>)
    requires oa.Ok? && Pass(h, ca, Going(d)) == Going(d1) && d1.r.rax == U64(oa.value)
    requires d1.stack == d.stack && d1.mem == oa.mem
    requires var tested := d1.(flags := Some((d1.r.rax, 0)));
             Truth(oa.value) == isAnd ==> Delivers(tested, ob, Pass(h, cb, Going(tested)))
    requires Unique(LogicalCode(isAnd, ca, cb, skip, end))
    ensures Delivers(d, if Truth(oa.value) != isAnd then Ok(Bool(!isAnd), oa.mem)
                        else match ob case Ok(y, m) => Ok(Bool(Truth(y)), m) case other => other,
                     Pass(h, LogicalCode(isAnd, ca, cb, skip, end), Going(d)))
  {
    hide Through, U64, Count, Do, Holds;
    var cond: Condition := if isAnd then 4 else 5;
    var first, finish := Two(TestRax, Jcc(cond, skip)), LogicalEnd(isAnd, skip, end);
    var middle := Cat(cb, Cat(SetTruth(5), One(Jmp(end))));
    UniqueParts(Cat(ca, first), Cat(middle, finish));
    UniqueParts(middle, finish);
    LogicalEndLabels(isAnd, skip, end);
    TestBranchPass(h, d1, cond, skip, oa.value);
    var tested := d1.(flags := Some((d1.r.rax, 0)));
    var entered := Pass(h, first, Going(d1));
    assert Pass(h, Cat(ca, first), Going(d)) == entered;
    assert Pass(h, LogicalCode(isAnd, ca, cb, skip, end), Going(d)) == Pass(h, finish, Pass(h, middle, entered));
    if Truth(oa.value) != isAnd {
      PassOver(h, middle, skip, tested);
      LogicalEndPass(h, isAnd, skip, end, tested);
    } else {
      LogicalSecondPass(h, cb, end, tested, ob);
      var f := Pass(h, middle, Going(tested));
      if f.Seeking? { LogicalEndPass(h, isAnd, skip, end, f.d); }
      if f == Faulted { PassStopped(h, finish, Faulted); }
    }
  }

  lemma {:induction false} LogicalCorrect(h: Host, e: Expr, d: Data, depth: nat)
    requires e.Logical? && WellFormed(e) && Unique(Gen(e, h.env, depth)) && Len(d.stack) == depth
    ensures Delivers(d, Eval(e, h.env, d.mem), Pass(h, Gen(e, h.env, depth), Going(d)))
    decreases e, 2
  {
    var ca, cb := Gen(e.a, h.env, depth), Gen(e.b, h.env, depth);
    var skip := if e.isAnd then e.falseLabel else e.trueLabel;
    var branch := Two(TestRax, Jcc(if e.isAnd then 4 else 5, skip));
    var finish := Three(Lab(skip), if e.isAnd then ZeroEax else MovImm32(RAX, 1), Lab(e.endLabel));
    var middle := Cat(cb, Cat(SetTruth(5), One(Jmp(e.endLabel))));
    UniqueParts(Cat(ca, branch), Cat(middle, finish));
    UniqueParts(middle, finish);
    UniqueParts(ca, branch);
    UniqueParts(cb, Cat(SetTruth(5), One(Jmp(e.endLabel))));
    GenCorrect(h, e.a, d, depth);
    var oa := Eval(e.a, h.env, d.mem);
    if oa.Trap? {
      PassStopped(h, branch, Faulted);
      PassStopped(h, Cat(middle, finish), Faulted);
    }
    if oa.Ok? {
      var d1 := Pass(h, ca, Going(d)).d;
      var tested := d1.(flags := Some((d1.r.rax, 0)));
      GenCorrect(h, e.b, tested, depth);
      LogicalPass(h, e.isAnd, ca, cb, skip, e.endLabel, d, oa, d1, Eval(e.b, h.env, oa.mem));
    }
  }

  function ConditionalEnd(cc: Code, otherwise: Label, end: Label): Code {
    Cat(One(Lab(otherwise)), Cat(cc, One(Lab(end))))
  }

  lemma {:induction false} JumpPass(h: Host, l: Label, f: Flow)
    ensures Pass(h, One(Jmp(l)), f) == if f.Going? then Seeking(l, f.d) else f
  {
  }

  lemma {:induction false} LabelPass(h: Host, l: Label, f: Flow)
    ensures f.Going? || f == Faulted ==> Pass(h, One(Lab(l)), f) == f
  {
  }

  lemma {:induction false} ConditionalEndLabels(cc: Code, otherwise: Label, end: Label)
    ensures Count(ConditionalEnd(cc, otherwise, end), otherwise) > 0
    ensures Unique(ConditionalEnd(cc, otherwise, end)) ==> otherwise != end && Count(cc, end) == 0
  {
    var last := Cat(cc, One(Lab(end)));
    assert Count(last, end) == Count(cc, end) + 1;
    if Unique(ConditionalEnd(cc, otherwise, end)) { assert Count(ConditionalEnd(cc, otherwise, end), end) <= 1; }
  }

  lemma {:induction false} ConditionalEndPass(h: Host, cc: Code, otherwise: Label, end: Label, d: Data)
    requires otherwise != end && Count(cc, end) == 0
    ensures Pass(h, ConditionalEnd(cc, otherwise, end), Seeking(end, d)) == Going(d)
    ensures Pass(h, ConditionalEnd(cc, otherwise, end), Seeking(otherwise, d))
         == Pass(h, One(Lab(end)), Pass(h, cc, Going(d)))
  {
    PassOver(h, cc, end, d);
    var last := Cat(cc, One(Lab(end)));
    assert Pass(h, last, Seeking(end, d)) == Going(d);
    assert Pass(h, last, Going(d)) == Pass(h, One(Lab(end)), Pass(h, cc, Going(d)));
    assert Pass(h, One(Lab(otherwise)), Seeking(otherwise, d)) == Going(d);
  }

  lemma {:induction false} ConditionalPass(h: Host, ca: Code, cb: Code, cc: Code, otherwise: Label, end: Label,
                                           d: Data, x: int, d1: Data, o: Outcome<int>)
    requires Pass(h, ca, Going(d)) == Going(d1) && d1.r.rax == U64(x) && d1.stack == d.stack
    requires var tested := d1.(flags := Some((d1.r.rax, 0)));
             Delivers(d, o, Pass(h, if Truth(x) then cb else cc, Going(tested)))
    requires Unique(ConditionalCode(ca, cb, cc, otherwise, end))
    ensures Delivers(d, o, Pass(h, ConditionalCode(ca, cb, cc, otherwise, end), Going(d)))
  {
    hide U64, Through, Do, Holds, Count;
    var first, middle := Two(TestRax, Jcc(4, otherwise)), Cat(cb, One(Jmp(end)));
    var finish := ConditionalEnd(cc, otherwise, end);
    UniqueParts(Cat(ca, first), Cat(middle, finish));
    UniqueParts(middle, finish);
    ConditionalEndLabels(cc, otherwise, end);
    TestBranchPass(h, d1, 4, otherwise, x);
    var tested := d1.(flags := Some((d1.r.rax, 0)));
    var entered := Pass(h, first, Going(d1));
    assert Pass(h, Cat(ca, first), Going(d)) == entered;
    assert Pass(h, ConditionalCode(ca, cb, cc, otherwise, end), Going(d)) == Pass(h, finish, Pass(h, middle, entered));
    if Truth(x) {
      var f := Pass(h, cb, Going(tested));
      JumpPass(h, end, f);
      if f.Going? { ConditionalEndPass(h, cc, otherwise, end, f.d); }
      if f == Faulted { PassStopped(h, finish, Faulted); }
    } else {
      PassOver(h, middle, otherwise, tested);
      ConditionalEndPass(h, cc, otherwise, end, tested);
      LabelPass(h, end, Pass(h, cc, Going(tested)));
    }
  }

  lemma {:induction false} ConditionalCorrect(h: Host, e: Expr, d: Data, depth: nat)
    requires e.Conditional? && WellFormed(e) && Unique(Gen(e, h.env, depth)) && Len(d.stack) == depth
    ensures Delivers(d, Eval(e, h.env, d.mem), Pass(h, Gen(e, h.env, depth), Going(d)))
    decreases e, 2
  {
    var ca, cb, cc := Gen(e.a, h.env, depth), Gen(e.b, h.env, depth), Gen(e.c, h.env, depth);
    var branch, middle := Two(TestRax, Jcc(4, e.falseLabel)), Cat(cb, One(Jmp(e.endLabel)));
    var last := Cat(cc, One(Lab(e.endLabel)));
    var finish := Cat(One(Lab(e.falseLabel)), last);
    UniqueParts(Cat(ca, branch), Cat(middle, finish));
    UniqueParts(middle, finish);
    UniqueParts(One(Lab(e.falseLabel)), last);
    UniqueParts(ca, branch);
    UniqueParts(cb, One(Jmp(e.endLabel)));
    UniqueParts(cc, One(Lab(e.endLabel)));
    GenCorrect(h, e.a, d, depth);
    var oa := Eval(e.a, h.env, d.mem);
    if oa.Trap? {
      PassStopped(h, branch, Faulted);
      PassStopped(h, Cat(middle, finish), Faulted);
    }
    if oa.Ok? {
      var d1 := Pass(h, ca, Going(d)).d;
      var tested := d1.(flags := Some((d1.r.rax, 0)));
      GenCorrect(h, if Truth(oa.value) then e.b else e.c, tested, depth);
      ConditionalPass(h, ca, cb, cc, e.falseLabel, e.endLabel, d, oa.value, d1,
                      Eval(if Truth(oa.value) then e.b else e.c, h.env, oa.mem));
    }
  }

  lemma {:induction false} CompoundCorrect(h: Host, e: Expr, d: Data, depth: nat)
    requires e.Compound? && WellFormed(e) && Unique(Gen(e, h.env, depth)) && Len(d.stack) == depth
    ensures Delivers(d, Eval(e, h.env, d.mem), Pass(h, Gen(e, h.env, depth), Going(d)))
    decreases e, 2
  {
    hide StoreBytes, LoadBytes, Through, OperatorCode, WriteBack, Normalize, Operate, U64;
    var ca, cb := Gen(e.addr, h.env, depth), Gen(e.value, h.env, depth + 2);
    var fetch := Three(Push(RAX), LoadRax(e.ty), Push(RAX));
    var operate := Cat(OperatorCode(e.op, e.ty.signed), Normalize(e.ty));
    var last := Cat(operate, WriteBack(e.ty));
    var second := Cat(Cat(cb, TakeOperands()), last);
    UniqueParts(Cat(ca, fetch), second);
    UniqueParts(Cat(cb, TakeOperands()), last);
    var d1 := FirstCorrect(h, e, e.addr, fetch, d, depth);
    var oa := Eval(e.addr, h.env, d.mem);
    if oa.Trap? { PassStopped(h, second, Faulted); }
    if !oa.Ok? { return; }
    FetchPass(h, d1, e.ty, oa.value);
    var x := LoadValue(oa.mem, e.ty, oa.value);
    d1 := Pass(h, fetch, Going(d1)).d;
    var d2 := FirstCorrect(h, e, e.value, TakeOperands(), d1, depth + 2);
    var ob := Eval(e.value, h.env, oa.mem);
    if ob.Trap? { PassStopped(h, last, Faulted); }
    if !ob.Ok? { return; }
    TakePass(h, d2, Cons(U64(oa.value), d.stack), U64(x));
    d2 := Pass(h, TakeOperands(), Going(d2)).d;
    OperateAndWriteBack(h, d2, e.ty, e.op, x, ob.value, d.stack, oa.value);
  }

  // Keep an address, load what it points to, keep that too.
  lemma {:induction false} FetchPass(h: Host, d: Data, ty: Ty, p: int)
    requires d.r.rax == U64(p)
    ensures var f := Pass(h, Three(Push(RAX), LoadRax(ty), Push(RAX)), Going(d));
            && f.Going? && f.d.stack == Cons(U64(LoadValue(d.mem, ty, p)), Cons(U64(p), d.stack))
            && f.d.mem == d.mem
  {
    U64Twice(p);
    Pass3(h, Push(RAX), LoadRax(ty), Push(RAX), Going(d));
  }

  lemma {:induction false} OperateAndWriteBack(h: Host, d: Data, ty: Ty, op: Operator, x: int, y: int,
                                               below: List<int>, p: int)
    requires d.r.rax == U64(x) && d.r.rcx == U64(y) && d.stack == Cons(U64(p), below)
    ensures var f := Pass(h, Cat(Cat(OperatorCode(op, ty.signed), Normalize(ty)), WriteBack(ty)), Going(d));
            match Operate(ty, op, x, y)
            case Some(v) => Yields(f, v, below, StoreValue(d.mem, ty, p, v))
            case None => f == Faulted
  {
    OperatorPass(h, d, ty, op, x, y);
    var o := Operate(ty, op, x, y);
    if o.Some? {
      U64Twice(o.value);
      var d1 := Pass(h, Cat(OperatorCode(op, ty.signed), Normalize(ty)), Going(d)).d;
      WriteBackPass(h, d1, ty, below, p);
    } else {
      PassStopped(h, WriteBack(ty), Faulted);
    }
  }

  lemma {:induction false} IncrementCorrect(h: Host, e: Expr, d: Data, depth: nat)
    requires e.Increment? && WellFormed(e) && Unique(Gen(e, h.env, depth)) && Len(d.stack) == depth
    ensures Delivers(d, Eval(e, h.env, d.mem), Pass(h, Gen(e, h.env, depth), Going(d)))
    decreases e, 2
  {
    hide StoreBytes, LoadBytes, Through, AddImmediate, WriteBack, Normalize, Wrap, U64;
    var ca := Gen(e.addr, h.env, depth);
    var fetch := Three(Push(RAX), LoadRax(e.ty), MovReg(R10, RAX));
    var add := Cat(AddImmediate(e.step), Normalize(e.ty));
    var last := Cat(WriteBack(e.ty), if e.post then One(MovReg(RAX, R10)) else Empty);
    UniqueParts(Cat(ca, fetch), Cat(add, last));
    var d1 := FirstCorrect(h, e, e.addr, fetch, d, depth);
    var oa := Eval(e.addr, h.env, d.mem);
    if oa.Trap? { PassStopped(h, Cat(add, last), Faulted); }
    if oa.Ok? { StepAndWriteBack(h, d1, e.ty, e.step, e.post, oa.value); }
  }

  lemma {:induction false} StepAndWriteBack(h: Host, d: Data, ty: Ty, step: int, post: bool, p: int)
    requires d.r.rax == U64(p)
    ensures var fetch, add := Three(Push(RAX), LoadRax(ty), MovReg(R10, RAX)), Cat(AddImmediate(step), Normalize(ty));
            var last := Cat(WriteBack(ty), if post then One(MovReg(RAX, R10)) else Empty);
            var x := LoadValue(d.mem, ty, p);
            Yields(Pass(h, last, Pass(h, add, Pass(h, fetch, Going(d)))),
                   if post then x else Wrap(ty, x + step), d.stack,
                   StoreValue(d.mem, ty, p, Wrap(ty, x + step)))
  {
    hide StoreBytes, LoadBytes, AddImmediate, WriteBack, Normalize;
    var x := LoadValue(d.mem, ty, p);
    U64Twice(p);
    U64Twice(Wrap(ty, x + step));
    Pass3(h, Push(RAX), LoadRax(ty), MovReg(R10, RAX), Going(d));
    var d1 := Pass(h, Three(Push(RAX), LoadRax(ty), MovReg(R10, RAX)), Going(d)).d;
    AddImmediatePass(h, d1, step, x);
    var d2 := Pass(h, AddImmediate(step), Going(d1)).d;
    NormalizePass(h, ty, d2, x + step);
    var d3 := Pass(h, Normalize(ty), Going(d2)).d;
    WriteBackPass(h, d3, ty, d.stack, p);
  }

  lemma {:induction false} CallCorrect(h: Host, e: Expr, d: Data, depth: nat)
    requires e.Call? && WellFormed(e) && Unique(Gen(e, h.env, depth)) && Len(d.stack) == depth
    ensures Delivers(d, Eval(e, h.env, d.mem), Pass(h, Gen(e, h.env, depth), Going(d)))
    decreases e, 4
  {
    var padding := Padding(e.args, depth);
    var body := CallBody(e, h.env, depth);
    UniqueParts(Pad(padding), body);
    var d1 := if padding == 0 then d else d.(flags := None, stack := Cons(h.stale(0), d.stack));
    assert Pass(h, Pad(padding), Going(d)) == Going(d1);
    CallBodyCorrect(h, e, d1, depth, d.stack);
  }

  function CallBody(e: Expr, env: Env, depth: nat): Code
    requires e.Call?
  {
    var padding := Padding(e.args, depth);
    var base := depth + padding;
    Cat(Cat(GenStackArgs(e.args, env, 0, base), GenRegisterArgs(e.args, env, 0, base + StackUnits(e.args))),
        Cat(GenTarget(e.callee, env, base + Len(e.args)), CallTail(e.ty, e.callee, e.args, padding)))
  }

  lemma {:induction false} PaddingAligns(args: List<Expr>, depth: nat)
    ensures (StackUnits(args) + (depth + Padding(args, depth))) % 2 == 0 && Padding(args, depth) <= 1
  {
  }

  lemma {:induction false} CallBodyCorrect(h: Host, e: Expr, d: Data, depth: nat, below: List<int>)
    requires e.Call? && WellFormed(e) && Unique(CallBody(e, h.env, depth)) && Len(below) == depth
    requires d.stack == if Padding(e.args, depth) == 0 then below else Cons(h.stale(0), below)
    ensures Delivers(d.(stack := below), Eval(e, h.env, d.mem), Pass(h, CallBody(e, h.env, depth), Going(d)))
    decreases e, 3
  {
    var args := e.args;
    var base := depth + Padding(args, depth);
    var place := Cat(GenStackArgs(args, h.env, 0, base), GenRegisterArgs(args, h.env, 0, base + StackUnits(args)));
    var finish := Cat(GenTarget(e.callee, h.env, base + Len(args)), CallTail(e.ty, e.callee, args, Padding(args, depth)));
    UniqueParts(place, finish);
    PaddingAligns(args, depth);
    ArgumentsCorrect(h, e, args, d, base);
    var os := EvalStackArgs(args, 0, h.env, d.mem);
    if os.Trap? { PassStopped(h, finish, Faulted); }
    if !os.Ok? { return; }
    var or := EvalRegisterArgs(args, 0, h.env, os.mem);
    if or.Trap? { PassStopped(h, finish, Faulted); }
    if !or.Ok? { return; }
    StackArgCount(args, 0, h.env, d.mem);
    RegisterArgCount(args, 0, h.env, os.mem);
    FinishCall(h, e, Pass(h, place, Going(d)).d, depth, below, d.stack, or.value, os.value);
  }

  // From the arguments waiting on the stack to the end of the call.
  lemma {:induction false} FinishCall(h: Host, e: Expr, d: Data, depth: nat, below: List<int>,
                                      padded: List<int>, rs: List<int>, os: List<int>)
    requires e.Call? && WellFormed(e) && Len(below) == depth
    requires var padding := Padding(e.args, depth);
             && Unique(Cat(GenTarget(e.callee, h.env, depth + padding + Len(e.args)),
                           CallTail(e.ty, e.callee, e.args, padding)))
             && padded == if padding == 0 then below else Cons(h.stale(0), below)
    requires Len(os) == StackUnits(e.args) && Len(rs) == RegisterCount(e.args)
    requires d.stack == PushAll(rs, Append(os, padded))
    ensures var padding := Padding(e.args, depth);
            var f := Pass(h, Cat(GenTarget(e.callee, h.env, depth + padding + Len(e.args)),
                                 CallTail(e.ty, e.callee, e.args, padding)), Going(d));
            match EvalTarget(e.callee, h.env, d.mem)
            case Ok(p, m) => Delivers(d.(stack := below), Invoke(e.ty, h.env, p, Append(rs, os), m), f)
            case Trap => f == Faulted
            case Undefined => true
    decreases e, 2
  {
    hide CallTail, EvalTarget, Padding, StackUnits;
    var padding := Padding(e.args, depth);
    var ct := GenTarget(e.callee, h.env, depth + padding + Len(e.args));
    var tail := CallTail(e.ty, e.callee, e.args, padding);
    UniqueParts(ct, tail);
    PaddingAligns(e.args, depth);
    PushAllLen(rs, Append(os, padded));
    AppendLen(os, padded);
    AppendLen(rs, os);
    TargetCorrect(h, e, e.callee, d, depth + padding + Len(e.args));
    var o := EvalTarget(e.callee, h.env, d.mem);
    if o.Trap? { PassStopped(h, tail, Faulted); }
    if o.Ok? && h.env.arity(o.value) == Len(Append(rs, os)) {
      CallTailPass(h, Pass(h, ct, Going(d)).d, e.ty, e.callee, e.args, padding, o.value, below, padded, rs, os);
    }
  }

  lemma {:induction false} StackArgCount(args: List<Expr>, i: nat, env: Env, m: Mem)
    ensures var o := EvalStackArgs(args, i, env, m);
            o.Ok? ==> Len(o.value) == if i >= REGISTER_ARGS then Len(args)
                                      else if i + Len(args) > REGISTER_ARGS then i + Len(args) - REGISTER_ARGS else 0
  {
    match args
    case Nil =>
    case Cons(_, tail) => StackArgCount(tail, i + 1, env, m);
  }

  lemma {:induction false} RegisterArgCount(args: List<Expr>, i: nat, env: Env, m: Mem)
    requires i <= REGISTER_ARGS
    ensures var o := EvalRegisterArgs(args, i, env, m);
            o.Ok? ==> Len(o.value) == if i + Len(args) <= REGISTER_ARGS then Len(args) else REGISTER_ARGS - i
  {
    match args
    case Nil =>
    case Cons(head, tail) =>
      if i < REGISTER_ARGS {
        var o := Eval(head, env, m);
        if o.Ok? { RegisterArgCount(tail, i + 1, env, o.mem); }
      }
  }

  // Stack arguments end up with the first of them on top.
  lemma {:induction false} StackArgsCorrect(h: Host, e: Expr, args: List<Expr>, i: nat, d: Data, base: nat)
    requires args < e && WellFormedArgs(args) && Len(d.stack) == base
    requires Unique(GenStackArgs(args, h.env, i, base))
    ensures var f := Pass(h, GenStackArgs(args, h.env, i, base), Going(d));
            match EvalStackArgs(args, i, h.env, d.mem)
            case Ok(vs, m) => f.Going? && f.d.stack == Append(vs, d.stack) && f.d.mem == m
            case Trap => f == Faulted
            case Undefined => true
    decreases e, 1, args
  {
    match args {
      case Nil =>
      case Cons(head, tail) =>
        var rest := if i < REGISTER_ARGS then Empty
                    else Cat(Gen(head, h.env, base + Len(tail)), One(Push(RAX)));
        UniqueParts(GenStackArgs(tail, h.env, i + 1, base), rest);
        StackArgsCorrect(h, e, tail, i + 1, d, base);
        var o := EvalStackArgs(tail, i + 1, h.env, d.mem);
        if o.Trap? { PassStopped(h, rest, Faulted); }
        if o.Ok? && i >= REGISTER_ARGS {
          var d1 := Pass(h, GenStackArgs(tail, h.env, i + 1, base), Going(d)).d;
          AppendLen(o.value, d.stack);
          StackArgCount(tail, i + 1, h.env, d.mem);
          var d2 := FirstCorrect(h, e, head, One(Push(RAX)), d1, base + Len(tail));
        }
    }
  }

  // Register arguments wait with the last of them on top.
  lemma {:induction false} RegisterArgsCorrect(h: Host, e: Expr, args: List<Expr>, i: nat, d: Data, depth: nat)
    requires args < e && WellFormedArgs(args) && Len(d.stack) == depth
    requires Unique(GenRegisterArgs(args, h.env, i, depth))
    ensures var f := Pass(h, GenRegisterArgs(args, h.env, i, depth), Going(d));
            match EvalRegisterArgs(args, i, h.env, d.mem)
            case Ok(vs, m) => f.Going? && f.d.stack == PushAll(vs, d.stack) && f.d.mem == m
            case Trap => f == Faulted
            case Undefined => true
    decreases e, 1, args
  {
    match args {
      case Nil =>
      case Cons(head, tail) =>
        if i < REGISTER_ARGS {
          var first := Cat(Gen(head, h.env, depth), One(Push(RAX)));
          var rest := GenRegisterArgs(tail, h.env, i + 1, depth + 1);
          UniqueParts(first, rest);
          var d1 := FirstCorrect(h, e, head, One(Push(RAX)), d, depth);
          var o := Eval(head, h.env, d.mem);
          if o.Trap? { PassStopped(h, rest, Faulted); }
          if o.Ok? { RegisterArgsCorrect(h, e, tail, i + 1, Pushed(d1), depth + 1); }
        }
    }
  }

  lemma {:induction false} ArgumentsCorrect(h: Host, e: Expr, args: List<Expr>, d: Data, base: nat)
    requires args < e && WellFormedArgs(args) && Len(d.stack) == base
    requires Unique(Cat(GenStackArgs(args, h.env, 0, base), GenRegisterArgs(args, h.env, 0, base + StackUnits(args))))
    ensures
      var f := Pass(h, Cat(GenStackArgs(args, h.env, 0, base),
                           GenRegisterArgs(args, h.env, 0, base + StackUnits(args))), Going(d));
      match EvalStackArgs(args, 0, h.env, d.mem)
      case Ok(os, m1) =>
        (match EvalRegisterArgs(args, 0, h.env, m1)
         case Ok(rs, m2) => f.Going? && f.d.stack == PushAll(rs, Append(os, d.stack)) && f.d.mem == m2
         case Trap => f == Faulted
         case Undefined => true)
      case Trap => f == Faulted
      case Undefined => true
    decreases e, 2
  {
    var cs, cr := GenStackArgs(args, h.env, 0, base), GenRegisterArgs(args, h.env, 0, base + StackUnits(args));
    UniqueParts(cs, cr);
    StackArgsCorrect(h, e, args, 0, d, base);
    var os := EvalStackArgs(args, 0, h.env, d.mem);
    if os.Trap? { PassStopped(h, cr, Faulted); }
    if os.Ok? {
      var d1 := Pass(h, cs, Going(d)).d;
      StackArgCount(args, 0, h.env, d.mem);
      AppendLen(os.value, d.stack);
      RegisterArgsCorrect(h, e, args, 0, d1, base + StackUnits(args));
    }
  }

  ghost predicate TargetReady(h: Host, callee: Callee, d: Data, target: int) {
    target == if callee.Direct? then U64(h.env.globals(callee.sym)) else U64(d.r.r11)
  }

  lemma {:induction false} TargetCorrect(h: Host, e: Expr, callee: Callee, d: Data, depth: nat)
    requires callee < e && (callee.Indirect? ==> WellFormed(callee.target))
    requires Unique(GenTarget(callee, h.env, depth)) && Len(d.stack) == depth
    ensures var f := Pass(h, GenTarget(callee, h.env, depth), Going(d));
            match EvalTarget(callee, h.env, d.mem)
            case Ok(p, m) => f.Going? && TargetReady(h, callee, f.d, p) && f.d.stack == d.stack && f.d.mem == m
            case Trap => f == Faulted
            case Undefined => true
    decreases e, 1
  {
    match callee {
      case Direct(_, _) =>
      case Indirect(target) =>
        var d1 := FirstCorrect(h, e, target, Two(Push(RAX), Pop(R11)), d, depth);
        var o := Eval(target, h.env, d.mem);
        if o.Ok? {
          U64Twice(o.value);
          Pass2(h, Push(RAX), Pop(R11), Going(d1));
        }
    }
  }

  // Registers i and up hold vs.
  ghost predicate Holding(r: Regs, i: nat, vs: List<int>)
    decreases vs
  {
    vs.Nil? || (i < REGISTER_ARGS && r.Get(ArgumentRegister(i)) == vs.head && Holding(r, i + 1, vs.tail))
  }

  lemma {:induction false} HoldingLower(r: Regs, i: nat, vs: List<int>, j: nat, x: int)
    requires j < i <= REGISTER_ARGS && Holding(r, i, vs)
    ensures Holding(r.Set(ArgumentRegister(j), x), i, vs)
    decreases vs
  {
    if vs.Cons? { HoldingLower(r, i + 1, vs.tail, j, x); }
  }

  lemma {:induction false} PopArgumentsPass(h: Host, i: nat, vs: List<int>, d: Data, below: List<int>)
    requires i + Len(vs) <= REGISTER_ARGS && d.stack == PushAll(vs, below)
    ensures var f := Pass(h, PopArguments(i, i + Len(vs)), Going(d));
            && f.Going? && f.d.stack == below && f.d.mem == d.mem && f.d.r.r11 == d.r.r11
            && Holding(f.d.r, i, vs)
    decreases vs
  {
    match vs {
      case Nil =>
      case Cons(v, rest) =>
        PopArgumentsPass(h, i + 1, rest, d, Cons(v, below));
        var d1 := Pass(h, PopArguments(i + 1, i + Len(vs)), Going(d)).d;
        HoldingLower(d1.r, i + 1, rest, i, v);
    }
  }

  // AL reports the number of vector registers; RAX carries no argument.
  lemma {:induction false} HoldingThroughRax(r: Regs, i: nat, vs: List<int>, x: int)
    requires Holding(r, i, vs)
    ensures Holding(r.(rax := x), i, vs)
    decreases vs
  {
    if vs.Cons? { HoldingThroughRax(r, i + 1, vs.tail, x); }
  }

  lemma {:induction false} RegistersHeld(r: Regs, i: nat, vs: List<int>)
    requires Holding(r, i, vs) && i + Len(vs) <= REGISTER_ARGS
    ensures Registers(r, i, i + Len(vs)) == vs
    decreases vs
  {
    if vs.Cons? { RegistersHeld(r, i + 1, vs.tail); }
  }

  lemma {:induction false} DropWithin(xs: List<int>, vs: List<int>, below: List<int>, i: nat)
    requires Drop(xs, i) == Append(vs, below) && vs.Cons?
    ensures Drop(xs, i + 1) == Append(vs.tail, below)
    decreases i
  {
    if i > 0 && xs.Cons? { DropWithin(xs.tail, vs, below, i - 1); }
  }

  // The callee reads the stack arguments at rbp + 16, rbp + 24, ...
  lemma {:induction false} StackParametersFound(inCallee: List<int>, i: nat, vs: List<int>, below: List<int>)
    requires Drop(inCallee, SAVED_BYTES / 8 + i) == Append(vs, below)
    ensures StackParameters(inCallee, i, i + Len(vs)) == vs
    decreases vs
  {
    match vs {
      case Nil =>
      case Cons(v, rest) =>
        assert (SAVED_BYTES + 8 * i) / 8 == SAVED_BYTES / 8 + i;
        DropWithin(inCallee, vs, below, SAVED_BYTES / 8 + i);
        StackParametersFound(inCallee, i + 1, rest, below);
    }
  }

  // The call instruction itself: aligned, with the arguments where the callee
  // reads them; afterwards only what lies above the stack arguments is kept.
  lemma {:induction false} DoCallDoes(h: Host, d: Data, target: int, below: List<int>, rs: List<int>, os: List<int>)
    requires Holding(d.r, 0, rs) && Len(rs) <= REGISTER_ARGS && (os.Cons? ==> Len(rs) == REGISTER_ARGS)
    requires d.stack == Append(os, below) && (Len(os) + Len(below)) % 2 == 0
    requires h.env.arity(target) == Len(rs) + Len(os)
    ensures var o := DoCall(h, target, d);
            var (v, m) := h.env.call(target, Append(rs, os), d.mem);
            && o.Some? && o.value.r.rax == U64(v) && o.value.mem == m
            && o.value.stack == Append(Stale(h, Len(os)), below)
  {
    hide StackParameters, Registers, Append, Holding, U64;
    AppendLen(os, below);
    RegistersHeld(d.r, 0, rs);
    var inCallee := Cons(h.stale(0), Cons(h.stale(1), d.stack));
    assert Drop(inCallee, 2) == Drop(inCallee.tail, 1) == d.stack;
    StackParametersFound(inCallee, 0, os, below);
    SplitAppend(os, below);
  }

  lemma {:induction false} ReleasePass(h: Host, d: Data, words: List<int>, below: List<int>)
    requires d.stack == Append(words, below)
    ensures var f := Pass(h, Release(Len(words)), Going(d));
            f.Going? && f.d.stack == below && f.d.r == d.r && f.d.mem == d.mem
  {
    var n := Len(words);
    AppendLen(words, below);
    SplitAppend(words, below);
    assert 8 * n % 8 == 0 && 8 * n / 8 == n;
    if n > 0 { assert Do(h, AddRsp(8 * n), d) == Some(d.(flags := None, stack := below)); }
  }

  // Stack arguments, padding and an over-wide result are undone.
  lemma {:induction false} CleanupPass(h: Host, d: Data, ty: Ty, args: List<Expr>, words: List<int>,
                                       pad: List<int>, below: List<int>, v: int)
    requires d.r.rax == U64(v) && d.stack == Append(words, Append(pad, below)) && Len(words) == StackUnits(args)
    ensures Yields(Pass(h, Cleanup(ty, args, Len(pad)), Going(d)), Wrap(ty, v), below, d.mem)
  {
    ReleasePass(h, d, words, Append(pad, below));
    var d1 := Pass(h, Release(StackUnits(args)), Going(d)).d;
    ReleasePass(h, d1, pad, below);
    var d2 := Pass(h, Release(Len(pad)), Going(d1)).d;
    NormalizePass(h, ty, d2, v);
  }

  lemma {:induction false} LoadBackPass(h: Host, d: Data, callee: Callee, rs: List<int>, below: List<int>)
    requires Len(rs) <= REGISTER_ARGS && d.stack == PushAll(rs, below)
    ensures var f := Pass(h, VectorCount(callee), Pass(h, PopArguments(0, Len(rs)), Going(d)));
            && f.Going? && f.d.stack == below && f.d.mem == d.mem && f.d.r.r11 == d.r.r11
            && Holding(f.d.r, 0, rs)
  {
    PopArgumentsPass(h, 0, rs, d, below);
    HoldingThroughRax(Pass(h, PopArguments(0, Len(rs)), Going(d)).d.r, 0, rs, 0);
  }

  lemma {:induction false} CallTailPass(h: Host, d: Data, ty: Ty, callee: Callee, args: List<Expr>, padding: nat,
    target: int, below: List<int>, padded: List<int>, rs: List<int>, os: List<int>)
    requires Len(os) == StackUnits(args) && Len(rs) == RegisterCount(args)
    requires padding <= 1 && padded == if padding == 0 then below else Cons(h.stale(0), below)
    requires d.stack == PushAll(rs, Append(os, padded)) && (Len(os) + Len(padded)) % 2 == 0
    requires TargetReady(h, callee, d, target) && h.env.arity(target) == Len(rs) + Len(os)
    ensures var (v, m) := h.env.call(target, Append(rs, os), d.mem);
            Yields(Pass(h, CallTail(ty, callee, args, padding), Going(d)), Wrap(ty, v), below, m)
  {
    LoadBackPass(h, d, callee, rs, Append(os, padded));
    var d1 := Pass(h, VectorCount(callee), Pass(h, PopArguments(0, Len(rs)), Going(d))).d;
    DoCallDoes(h, d1, target, padded, rs, os);
    CallInstrPass(h, d1, callee, target);
    var d2 := DoCall(h, target, d1).value;
    var pad := Stale0(h, padding);
    assert Append(pad, below) == padded;
    CleanupPass(h, d2, ty, args, Stale(h, Len(os)), pad, below, h.env.call(target, Append(rs, os), d.mem).0);
    CallTailUnfolds(h, d, ty, callee, args, padding);
    assert Pass(h, CallTail(ty, callee, args, padding), Going(d)) == Pass(h, Cleanup(ty, args, padding), Going(d2));
  }

  // The word of padding, if there is one.
  function Stale0(h: Host, padding: nat): (pad: List<int>)
    requires padding <= 1
    ensures Len(pad) == padding
  {
    if padding == 0 then Nil else Cons(h.stale(0), Nil)
  }

  lemma {:induction false} CallTailUnfolds(h: Host, d: Data, ty: Ty, callee: Callee, args: List<Expr>, padding: nat)
    ensures Pass(h, CallTail(ty, callee, args, padding), Going(d))
         == Pass(h, Cleanup(ty, args, padding),
              Through(h, CallInstr(callee),
                Pass(h, VectorCount(callee), Pass(h, PopArguments(0, RegisterCount(args)), Going(d)))))
  {
    var f := Pass(h, PopArguments(0, RegisterCount(args)), Going(d));
    var last := Cat(One(CallInstr(callee)), Cleanup(ty, args, padding));
    assert Pass(h, Cat(VectorCount(callee), last), f) == Pass(h, last, Pass(h, VectorCount(callee), f));
  }

  lemma {:induction false} CallInstrPass(h: Host, d: Data, callee: Callee, target: int)
    requires TargetReady(h, callee, d, target) && DoCall(h, target, d).Some?
    ensures Through(h, CallInstr(callee), Going(d)) == Going(DoCall(h, target, d).value)
  {
  }
}
