// From the meaning of a function body to the machine that runs its code.
module EndToEnd {
  import opened Words
  import opened Lists
  import opened Ropes
  import opened Options
  import opened Ir
  import opened Ast
  import opened LowerNode
  import opened NodeCorrect
  import opened Statements
  import opened LowerStmt
  import opened StmtCorrect
  import opened LabelCounts
  import opened StmtCounts
  import opened Functions
  import opened Resolved
  import opened Flow
  import opened GenFlat
  import opened Compiled
  import M = Machine
  import F = FlatIr

  lemma {:induction false} NodeWellFormed(n: Node, k: nat)
    requires WellTyped(n)
    ensures WellFormed(Lower(n, k).0)
    decreases n, 1
  {
    if n.Arith? || n.Advance? || n.Distance? || n.Test? || n.AndOr? || n.Sequence? || n.Choose? || n.Apply? {
      OperandsWellFormed(n, k);
      return;
    }
    match n {
      case Number(ty, value) => NumberFits(ty, value);
      case Name(_, _) =>
      case Read(_, place) => PlaceWellFormed(place, k);
      case AddressOf(place) => PlaceWellFormed(place, k);
      case Decay(place) => PlaceWellFormed(place, k);
      case StepBy(_, _, _, _, place) => PlaceWellFormed(place, k);
      case Sign(_, _, a) => NodeWellFormed(a, k);
      case Complement(_, a) => NodeWellFormed(a, k);
      case Not(a) => NodeWellFormed(a, k);
      case Convert(_, a) => NodeWellFormed(a, k);
      case Assign(_, place, right) => PlaceWellFormed(place, k); NodeWellFormed(right, LowerPlace(place, k).1);
      case Update(_, _, _, place, right) => PlaceWellFormed(place, k); NodeWellFormed(right, LowerPlace(place, k).1);
      case UpdatePointer(_, size, place, right) =>
        PlaceWellFormed(place, k);
        NodeWellFormed(right, LowerPlace(place, k).1);
        ScaledWellFormed(Lower(right, LowerPlace(place, k).1).0, size);
    }
  }

  lemma {:induction false} OperandsWellFormed(n: Node, k: nat)
    requires n.Arith? || n.Advance? || n.Distance? || n.Test? || n.AndOr? || n.Sequence? || n.Choose? || n.Apply?
    requires WellTyped(n)
    ensures WellFormed(Lower(n, k).0)
    decreases n, 0
  {
    match n {
      case Arith(_, _, _, _) => PairWellFormed(n, k);
      case Test(_, _, _) => PairWellFormed(n, k);
      case AndOr(_, _, _) => PairWellFormed(n, k);
      case Sequence(_, _) => PairWellFormed(n, k);
      case Advance(_, a, b, size) =>
        NodeWellFormed(a, k);
        NodeWellFormed(b, Lower(a, k).1);
        ScaledWellFormed(Lower(b, Lower(a, k).1).0, size);
      case Distance(a, b, size) =>
        NodeWellFormed(a, k);
        NodeWellFormed(b, Lower(a, k).1);
        DistanceWellFormed(Lower(a, k).0, Lower(b, Lower(a, k).1).0, size);
      case Choose(_, a, b, c) =>
        NodeWellFormed(a, k + 3);
        NodeWellFormed(b, Lower(a, k + 3).1);
        NodeWellFormed(c, Lower(b, Lower(a, k + 3).1).1);
      case Apply(_, target, args) =>
        if target.Through? { NodeWellFormed(target.pointer, k); }
        ArgsWellFormed(args, LowerFunction(target, k).1);
    }
  }

  lemma {:induction false} PairWellFormed(n: Node, k: nat)
    requires (n.Arith? || n.Test? || n.AndOr? || n.Sequence?) && WellTyped(n)
    ensures WellFormed(Lower(n, k).0)
    decreases n, 0, 0
  {
    match n {
      case Arith(_, _, a, b) => NodeWellFormed(a, k); NodeWellFormed(b, Lower(a, k).1);
      case Test(_, a, b) => NodeWellFormed(a, k); NodeWellFormed(b, Lower(a, k).1);
      case AndOr(_, a, b) => NodeWellFormed(a, k); NodeWellFormed(b, Lower(a, k).1);
      case Sequence(a, b) => NodeWellFormed(a, k); NodeWellFormed(b, Lower(a, k).1);
    }
  }

  lemma {:induction false} NumberFits(ty: Ty, value: int)
    requires InRange(ty, value)
    ensures U64(value) == U64(Wrap(ty, U64(value)))
  {
    WrapOfRegister(ty, value);
    WrapInRange(ty, value);
  }

  lemma {:induction false} ScaledWellFormed(e: Expr, size: nat)
    requires WellFormed(e) && size < 0x8000_0000
    ensures WellFormed(Scaled(e, size))
  {
    SmallLong(size);
  }

  lemma {:induction false} DistanceWellFormed(a: Expr, b: Expr, size: nat)
    requires WellFormed(a) && WellFormed(b) && size < 0x8000_0000
    ensures WellFormed(Binary(LONG, Div, Binary(LONG, Sub, a, b), Const(LONG, size)))
  {
    SmallLong(size);
  }

  lemma {:induction false} PlaceWellFormed(p: Place, k: nat)
    requires WellTypedPlace(p)
    ensures WellFormed(LowerPlace(p, k).0)
    decreases p, 1
  {
    match p {
      case Variable(_) =>
      case Pointee(pointer) => NodeWellFormed(pointer, k);
      case Indexed(pointer, index, size) =>
        NodeWellFormed(pointer, k);
        NodeWellFormed(index, Lower(pointer, k).1);
        ScaledWellFormed(Lower(index, Lower(pointer, k).1).0, size);
      case Element(whole, index, size) =>
        PlaceWellFormed(whole, k);
        NodeWellFormed(index, LowerPlace(whole, k).1);
        ScaledWellFormed(Lower(index, LowerPlace(whole, k).1).0, size);
      case Field(record, _) => PlaceWellFormed(record, k);
      case Arrow(pointer, _) => NodeWellFormed(pointer, k);
    }
  }

  lemma {:induction false} ArgsWellFormed(args: List<Node>, k: nat)
    requires WellTypedArgs(args)
    ensures WellFormedArgs(LowerArgs(args, k).0) && Len(LowerArgs(args, k).0) == Len(args)
    decreases args
  {
    match args
    case Nil =>
    case Cons(head, tail) => NodeWellFormed(head, k); ArgsWellFormed(tail, Lower(head, k).1);
  }

  lemma {:induction false} StmtsWellFormed(ss: List<Stmt>, cx: Context, ls: Labels)
    requires WellTypedStmts(ss)
    ensures WellFormedList(LowerList(ss, cx, ls).0)
    decreases ss
  {
    match ss
    case Nil =>
    case Cons(s, rest) => StmtWellFormed(s, cx, ls); StmtsWellFormed(rest, cx, LowerOne(s, cx, ls).1);
  }

  lemma {:induction false} StmtWellFormed(s: Stmt, cx: Context, ls: Labels)
    requires WellTypedStmt(s)
    ensures WellFormedList(LowerOne(s, cx, ls).0)
    decreases s, 1
  {
    hide Lower, LowerList, WellTyped, WellFormed;
    match s {
      case Block(body) => StmtsWellFormed(body, cx, ls);
      case Declare(ty, sym, init) =>
        if init.Some? { DeclareWellTyped(ty, sym, init.value); NodeWellFormed(Assign(ty, Variable(sym), init.value), ls.next); }
      case Expression(e) => NodeWellFormed(e, ls.next);
      case If(_, _, _) => IfWellFormed(s, cx, ls);
      case While(cond, body) =>
        var p := PartsOfWhile(s, cx, ls);
        NodeWellFormed(cond, ls.next + 2);
        StmtsWellFormed(body, cx.(brk := ls.next + 2, cont := ls.next + 1), p.ls1);
        assert WellFormedList(WhileTail(ls.next));
        assert WellFormedList(WhileHead(ls.next, p.test));
        assert WellFormedList(Cat(p.body, WhileTail(ls.next)));
      case DoWhile(body, cond) =>
        var (c, ls1) := LowerList(body, cx.(brk := ls.next + 3, cont := ls.next + 2), Reserve(ls, 3));
        StmtsWellFormed(body, cx.(brk := ls.next + 3, cont := ls.next + 2), Reserve(ls, 3));
        NodeWellFormed(cond, ls1.next);
        var test := Tested(cond, ls.next + 3, ls1).0;
        assert WellFormedList(LoopEnd(ls.next));
        assert WellFormedList(Cat(One(F.Mark(ls.next + 2)), test));
        assert WellFormedList(DoTail(ls.next, test));
        assert WellFormedList(Cat(One(F.Mark(ls.next + 1)), c));
      case For(_, _, _, _) => ForWellFormed(s, cx, ls);
      case Switch(cond, body) =>
        var p := PartsOfSwitch(s, cx, ls);
        NodeWellFormed(cond, p.ls1.next);
        StmtsWellFormed(body, cx.(brk := ls.next + 1), p.ls2);
        assert WellFormedList(Cat(p.body, One(F.Mark(ls.next + 1))));
      case Return(result) =>
        if result.Some? {
          NodeWellFormed(result.value, ls.next);
          ConvertedWellFormed(result.value, Lower(result.value, ls.next).0, cx.ret);
        }
      case _ =>
    }
  }

  lemma {:induction false} DeclareWellTyped(ty: Ty, sym: Symbol, init: Node)
    requires WellTyped(init)
    ensures WellTyped(Assign(ty, Variable(sym), init))
  {
  }

  lemma {:induction false} ConvertedWellFormed(n: Node, e: Expr, ret: Ty)
    requires WellFormed(e)
    ensures WellFormed(Converted(n, e, ret))
  {
  }

  lemma {:induction false} IfWellFormed(s: Stmt, cx: Context, ls: Labels)
    requires s.If? && WellTypedStmt(s)
    ensures WellFormedList(LowerOne(s, cx, ls).0)
    decreases s, 0
  {
    hide Lower, LowerList, WellTyped, WellFormed;
    var k := ls.next;
    NodeWellFormed(s.cond, k + 3);
    var (test, ls1) := Tested(s.cond, if s.no.None? then k + 3 else k + 2, Reserve(ls, 3));
    StmtsWellFormed(s.yes, cx, ls1);
    var (c1, ls2) := LowerList(s.yes, cx, ls1);
    assert WellFormedList(Cat(test, One(F.Mark(k + 1))));
    if s.no.None? {
      assert WellFormedList(Cat(c1, One(F.Mark(k + 3))));
    } else {
      StmtsWellFormed(s.no.value, cx, ls2);
      assert WellFormedList(Between(k));
      assert WellFormedList(Cat(c1, Between(k)));
      assert WellFormedList(Cat(LowerList(s.no.value, cx, ls2).0, One(F.Mark(k + 3))));
    }
  }

  lemma {:induction false} ForWellFormed(s: Stmt, cx: Context, ls: Labels)
    requires s.For? && WellTypedStmt(s)
    ensures WellFormedList(LowerOne(s, cx, ls).0)
    decreases s, 0
  {
    hide Lower, LowerList, WellTyped, WellFormed, LowerOne, Parts;
    var k, p := ls.next, Parts(s, cx, ls);
    ForFirst(s, cx, ls);
    ForShape(s, cx, ls);
    StmtsWellFormed(s.first, cx, Reserve(ls, 3));
    if s.test.Some? { NodeWellFormed(s.test.value, p.ls1.next); }
    StmtsWellFormed(s.body, Inside(cx, k), p.ls2);
    if s.step.Some? { NodeWellFormed(s.step.value, p.ls3.next); }
    assert WellFormedList(LoopEnd(k));
    assert WellFormedList(Cat(One(F.Mark(k + 2)), p.step));
    assert WellFormedList(ForTail(k, p.step));
    assert WellFormedList(Cat(p.body, ForTail(k, p.step)));
    assert WellFormedList(ForHead(k, p.test));
    assert WellFormedList(Cat(ForHead(k, p.test), Cat(p.body, ForTail(k, p.step))));
  }

  // What lowering a whole function sets up.
  lemma {:induction false} FunctionReady(body: List<Stmt>, ret: Ty, env: Env)
    requires Accepted(body)
    ensures var (r, fin) := FunctionList(body, ret);
            Ready(r, env) && Set(Flat(r), 0, r, fin, fin) && UniqueLabels(Flat(FunctionCode(r, env)))
  {
    hide LowerList, Extends, ListCount, F.UniqueMarks;
    AcceptedLowers(body, ret);
    var (r, fin) := FunctionList(body, ret);
    forall l ensures ListCount(r, l) <= 1 { FunctionLabelsUnique(body, ret, l); }
    UniqueByCount(r, env);
    UniqueIsUnique(FunctionCode(r, env));
    StmtsWellFormed(body, Context(0, 0, ret), Labels(0, map[], true));
    AtAll(r);
    ExtendsNext(fin, fin);
  }

  // The list runs the whole body: it leaves with the value the body returns, and
  // runs for as long as the body does.
  lemma {:induction false} ListRuns(body: List<Stmt>, ret: Ty, env: Env, mode: Mode, fuel: nat) returns (k: nat)
    requires Accepted(body) && (mode.Seek? ==> Contains(body, mode.to))
    ensures
      var (r, fin) := FunctionList(body, ret);
      var from := F.Place(Flat(r), 0, ThreadOf(mode, fin));
      match ExecFunction(body, mode, env, ret, fuel)
      case Returned(v, m) => F.Run(Flat(r), env, from, k) == F.Left(v, m)
      case OutOfFuel => F.Run(Flat(r), env, from, k).At? && k + (if mode.Run? then 1 else 0) >= fuel
      case Unspecified => true
      case _ => false
    decreases fuel
  {
    hide LowerList, ExecList, F.Run, WellTypedStmts, Contains, LabelOf, F.Find;
    var (r, fin) := FunctionList(body, ret);
    var cx, from := Context(0, 0, ret), F.Place(Flat(r), 0, ThreadOf(mode, fin));
    FunctionReady(body, ret, env);
    k := ListCorrect(Flat(r), env, body, cx, Labels(0, map[], true), fin, 0, mode, fuel);
    ListSignals(body, mode, env, ret, fuel, false, false);
    var sig := ExecList(body, mode, env, ret, fuel);
    if sig.Done? {
      F.RunOne(Flat(r), env, F.At(Size(r), sig.m));
      F.RunAdd(Flat(r), env, from, k, 1);
      k := k + 1;
    } else if sig.Jumping? && fuel > 0 {
      var j := ListRuns(body, ret, env, Seek(sig.to, sig.m), fuel - 1);
      F.RunAdd(Flat(r), env, from, k, j);
      k := k + j;
    } else if sig.Jumping? {
      FoundSomewhere(body, ret, sig.to, sig.m);
    }
  }

  // The code of a function, after its prologue.
  function CompiledFunction(body: List<Stmt>, ret: Ty, env: Env): seq<M.Instr> {
    Flat(FunctionCode(FunctionList(body, ret).0, env))
  }

  lemma {:induction false} BothStart(body: List<Stmt>, ret: Ty, env: Env, d: M.Data)
    requires d.stack == Nil
    ensures Same(FunctionList(body, ret).0, env, F.At(0, d.mem), M.Running(0, d))
  {
    OffsetStart(FunctionList(body, ret).0, env);
  }

  // When the body returns, so does the machine: the value, if there is one, is in
  // RAX as the return type extends it, and memory is what the body left.
  lemma {:induction false} FunctionReturns(body: List<Stmt>, ret: Ty, h: M.Host, d: M.Data, fuel: nat) returns (n: nat)
    requires Accepted(body) && d.stack == Nil
    requires ExecFunction(body, Run(d.mem), h.env, ret, fuel).Returned?
    ensures var sig := ExecFunction(body, Run(d.mem), h.env, ret, fuel);
            var s := M.Run(CompiledFunction(body, ret, h.env), h, M.Running(0, d), n);
            && s.Returned? && s.mem == sig.m
            && (sig.result.Some? ==> s.rax == U64(sig.result.value))
  {
    hide LowerList, F.Run, M.Run, ExecFunction, FunctionCode, Ready, UniqueLabels;
    var r, fin := FunctionList(body, ret).0, FunctionList(body, ret).1;
    var sig := ExecFunction(body, Run(d.mem), h.env, ret, fuel);
    FunctionReady(body, ret, h.env);
    var k := ListRuns(body, ret, h.env, Run(d.mem), fuel);
    BothStart(body, ret, h.env, d);
    n := RunMirrored(CompiledFunction(body, ret, h.env), h, r, F.At(0, d.mem), M.Running(0, d), k);
  }

  // When no amount of fuel is enough for the body, the machine never stops.
  lemma {:induction false} FunctionDiverges(body: List<Stmt>, ret: Ty, h: M.Host, d: M.Data, n: nat)
    requires Accepted(body) && d.stack == Nil
    requires forall fuel :: ExecFunction(body, Run(d.mem), h.env, ret, fuel).OutOfFuel?
    ensures M.Run(CompiledFunction(body, ret, h.env), h, M.Running(0, d), n).Running?
  {
    hide LowerList, F.Run, M.Run, FunctionCode, Ready, UniqueLabels;
    var r := FunctionList(body, ret).0;
    var code := CompiledFunction(body, ret, h.env);
    FunctionReady(body, ret, h.env);
    assert ExecFunction(body, Run(d.mem), h.env, ret, n + 1).OutOfFuel?;
    var k := ListRuns(body, ret, h.env, Run(d.mem), n + 1);
    BothStart(body, ret, h.env, d);
    var j := RunMirrored(code, h, r, F.At(0, d.mem), M.Running(0, d), k);
    M.RunAdd(code, h, M.Running(0, d), n, j - n);
    var s := M.Run(code, h, M.Running(0, d), n);
    if !s.Running? { M.StoppedForGood(code, h, s, j - n); }
  }
}
