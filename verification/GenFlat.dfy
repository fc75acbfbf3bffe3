// Machine code for the flat list: one stretch per instruction, and the
// epilogue.
module GenFlat {
  import opened Words
  import opened Lists
  import opened Ropes
  import opened Options
  import opened Ir
  import opened Machine
  import opened Flow
  import opened Codegen
  import opened CodegenSteps
  import opened CodegenCorrect
  import F = FlatIr

  function Epilogue(): Code { Two(Leave, Ret) }

  // Each case compares the value, in RAX, with a constant.
  function CaseCode(c: F.CaseTarget): Code {
    Three(MovImm64(RCX, c.value), CmpRcx, Jcc(4, c.goal))
  }

  function TableCode(table: List<F.CaseTarget>, default: Label): Code {
    match table
    case Nil => One(Jmp(default))
    case Cons(c, rest) => Cat(CaseCode(c), TableCode(rest, default))
  }

  // A 32-bit condition is extended once more before it is compared.
  function Reextend(ty: Ty): Code { if ty.width == 4 then One(Extend(ty)) else Empty }

  function InstCode(i: F.Inst, env: Env): Code {
    match i
    case Evaluate(e) => Gen(e, env, 0)
    case Mark(l) => One(Lab(l))
    case Goto(l) => One(Jmp(l))
    case Branch(cond, otherwise) => Cat(Gen(cond, env, 0), Two(TestRax, Jcc(4, otherwise)))
    case Dispatch(cond, table, default) =>
      Cat(Gen(cond, env, 0), Cat(Reextend(TypeOf(cond)), TableCode(table, default)))
    case Return(None, _) => Epilogue()
    case Return(Some(e), ty) => Cat(Gen(e, env, 0), Cat(Normalize(ty), Epilogue()))
  }

  function ListCode(r: Rope<F.Inst>, env: Env): Code {
    match r
    case Empty => Empty
    case One(i) => InstCode(i, env)
    case Cat(a, b) => Cat(ListCode(a, env), ListCode(b, env))
  }

  predicate WellFormedInst(i: F.Inst) {
    match i
    case Evaluate(e) => WellFormed(e)
    case Branch(cond, _) => WellFormed(cond)
    case Dispatch(cond, _, _) => WellFormed(cond)
    case Return(value, _) => value.Some? ==> WellFormed(value.value)
    case _ => true
  }

  predicate WellFormedList(r: Rope<F.Inst>) {
    match r
    case Empty => true
    case One(i) => WellFormedInst(i)
    case Cat(a, b) => WellFormedList(a) && WellFormedList(b)
  }

  // Between instructions the machine holds nothing but the memory.
  ghost predicate Rests(d: Data, m: Mem) { d.stack == Nil && d.mem == m }

  ghost predicate Mirrors(t: F.Thread, f: Flow) {
    match t
    case Here(m) => f.Going? && Rests(f.d, m)
    case Bound(l, m) => f.Seeking? && f.l == l && Rests(f.d, m)
    case Stopped(Left(None, m)) => f.Ended? && f.mem == m
    case Stopped(Left(Some(v), m)) => f == Ended(U64(v), m)
    case Stopped(Trapped) => f == Faulted
    case Stopped(_) => true
  }

  lemma {:induction false} EpiloguePass(h: Host, d: Data)
    ensures Pass(h, Epilogue(), Going(d)) == Ended(d.r.rax, d.mem)
  {
    Pass2(h, Leave, Ret, Going(d));
  }

  lemma {:induction false} ReextendPass(h: Host, d: Data, ty: Ty, v: int)
    requires d.r.rax == U64(v)
    ensures var f := Pass(h, Reextend(ty), Going(d));
            Yields(f, F.Extended(ty, v), d.stack, d.mem)
  {
    WrapOfRegister(ty, v);
  }

  lemma {:induction false} TablePass(h: Host, d: Data, table: List<F.CaseTarget>, v: int, default: Label)
    requires d.r.rax == U64(v)
    ensures var f := Pass(h, TableCode(table, default), Going(d));
            f.Seeking? && f.l == F.Lookup(table, v, default) && f.d.stack == d.stack && f.d.mem == d.mem
    decreases table
  {
    hide CaseCode, U64;
    match table {
      case Nil =>
      case Cons(c, rest) =>
        CaseStep(h, d, c, v);
        var d1 := Compared(d, c.value);
        if U64(c.value) == U64(v) {
          TableSkipped(h, rest, default, c.goal, d1);
        } else {
          TablePass(h, d1, rest, v, default);
        }
    }
  }

  function Compared(d: Data, x: int): Data {
    d.(r := d.r.Set(RCX, U64(x)), flags := Some((d.r.rax, U64(x))))
  }

  // One case is compared and taken or passed over.
  lemma {:induction false} CaseStep(h: Host, d: Data, c: F.CaseTarget, v: int)
    requires d.r.rax == U64(v)
    ensures var d1 := Compared(d, c.value);
            Pass(h, CaseCode(c), Going(d)) == if U64(c.value) == U64(v) then Seeking(c.goal, d1) else Going(d1)
  {
    Pass3(h, MovImm64(RCX, c.value), CmpRcx, Jcc(4, c.goal), Going(d));
    U64Twice(c.value);
    U64Twice(v);
  }

  lemma {:induction false} TableSkipped(h: Host, table: List<F.CaseTarget>, default: Label, l: Label, d: Data)
    ensures Pass(h, TableCode(table, default), Seeking(l, d)) == Seeking(l, d)
    decreases table
  {
    match table {
      case Nil =>
      case Cons(c, rest) =>
        Pass3(h, MovImm64(RCX, c.value), CmpRcx, Jcc(4, c.goal), Seeking(l, d));
        TableSkipped(h, rest, default, l, d);
    }
  }

  lemma {:induction false} BranchCorrect(h: Host, cond: Expr, l: Label, d: Data)
    requires WellFormed(cond) && d.stack == Nil
    requires Unique(Cat(Gen(cond, h.env, 0), Two(TestRax, Jcc(4, l))))
    ensures Mirrors(F.Perform(F.Branch(cond, l), h.env, d.mem),
                    Pass(h, Cat(Gen(cond, h.env, 0), Two(TestRax, Jcc(4, l))), Going(d)))
  {
    var g, test := Gen(cond, h.env, 0), Two(TestRax, Jcc(4, l));
    UniqueParts(g, test);
    GenCorrect(h, cond, d, 0);
    var o := Eval(cond, h.env, d.mem);
    if o.Ok? { TestBranchPass(h, Pass(h, g, Going(d)).d, 4, l, o.value); }
    if o.Trap? { PassStopped(h, test, Faulted); }
  }

  lemma {:induction false} DispatchCorrect(h: Host, cond: Expr, table: List<F.CaseTarget>, default: Label, d: Data)
    requires WellFormed(cond) && d.stack == Nil
    requires Unique(InstCode(F.Dispatch(cond, table, default), h.env))
    ensures Mirrors(F.Perform(F.Dispatch(cond, table, default), h.env, d.mem),
                    Pass(h, InstCode(F.Dispatch(cond, table, default), h.env), Going(d)))
  {
    var g, cases := Gen(cond, h.env, 0), TableCode(table, default);
    var extend := Reextend(TypeOf(cond));
    UniqueParts(g, Cat(extend, cases));
    GenCorrect(h, cond, d, 0);
    var o := Eval(cond, h.env, d.mem);
    if o.Ok? {
      var d1 := Pass(h, g, Going(d)).d;
      ReextendPass(h, d1, TypeOf(cond), o.value);
      var d2 := Pass(h, extend, Going(d1)).d;
      TablePass(h, d2, table, F.Extended(TypeOf(cond), o.value), default);
      assert Pass(h, Cat(extend, cases), Going(d1)) == Pass(h, cases, Going(d2));
    }
    if o.Trap? { PassStopped(h, Cat(extend, cases), Faulted); }
  }

  lemma {:induction false} ReturnCorrect(h: Host, e: Expr, ty: Ty, d: Data)
    requires WellFormed(e) && d.stack == Nil
    requires Unique(InstCode(F.Return(Some(e), ty), h.env))
    ensures Mirrors(F.Perform(F.Return(Some(e), ty), h.env, d.mem),
                    Pass(h, InstCode(F.Return(Some(e), ty), h.env), Going(d)))
  {
    var g, last := Gen(e, h.env, 0), Cat(Normalize(ty), Epilogue());
    UniqueParts(g, last);
    GenCorrect(h, e, d, 0);
    var o := Eval(e, h.env, d.mem);
    if o.Ok? {
      var d1 := Pass(h, g, Going(d)).d;
      NormalizePass(h, ty, d1, o.value);
      var d2 := Pass(h, Normalize(ty), Going(d1)).d;
      EpiloguePass(h, d2);
      assert Pass(h, last, Going(d1)) == Pass(h, Epilogue(), Going(d2));
    }
    if o.Trap? { PassStopped(h, last, Faulted); }
  }

  // The code of one instruction does what the instruction does.
  lemma {:induction false} InstCorrect(h: Host, i: F.Inst, d: Data)
    requires WellFormedInst(i) && Unique(InstCode(i, h.env)) && d.stack == Nil
    ensures Mirrors(F.Perform(i, h.env, d.mem), Pass(h, InstCode(i, h.env), Going(d)))
  {
    match i {
      case Evaluate(e) => GenCorrect(h, e, d, 0);
      case Mark(_) =>
      case Goto(_) =>
      case Branch(cond, l) => BranchCorrect(h, cond, l, d);
      case Dispatch(cond, table, default) => DispatchCorrect(h, cond, table, default, d);
      case Return(value, ty) => if value.None? { EpiloguePass(h, d); } else { ReturnCorrect(h, value.value, ty, d); }
    }
  }

  // No expression is compiled to nothing.
  lemma {:induction false} GenNonempty(e: Expr, env: Env, depth: nat)
    ensures Size(Gen(e, env, depth)) > 0
    decreases e
  {
    match e {
      case AddrOf(place) => GenNonempty(place, env, depth);
      case Member(base, _) => GenNonempty(base, env, depth);
      case Comma(a, _) => GenNonempty(a, env, depth);
      case Cast(_, a) => GenNonempty(a, env, depth);
      case Logical(_, a, _, _, _, _) => GenNonempty(a, env, depth);
      case Conditional(_, a, _, _, _, _, _) => GenNonempty(a, env, depth);
      case Load(_, a) => GenNonempty(a, env, depth);
      case Store(_, a, _) => GenNonempty(a, env, depth);
      case Binary(_, _, a, _) => GenNonempty(a, env, depth);
      case Compare(_, a, _) => GenNonempty(a, env, depth);
      case Unary(_, _, a) => GenNonempty(a, env, depth);
      case LogicalNot(a) => GenNonempty(a, env, depth);
      case Compound(_, _, a, _) => GenNonempty(a, env, depth);
      case Increment(_, _, _, a) => GenNonempty(a, env, depth);
      case Call(ty, callee, args) =>
        var padding := Padding(args, depth);
        var last := Cat(One(CallInstr(callee)), Cleanup(ty, args, padding));
        assert Size(last) > 0;
        assert Size(Cat(VectorCount(callee), last)) > 0;
        var tail, ct := CallTail(ty, callee, args, padding), GenTarget(callee, env, depth + padding + Len(args));
        assert Size(tail) > 0;
        assert Size(Cat(ct, tail)) > 0;
        assert Size(CallBody(e, env, depth)) > 0;
      case _ =>
    }
  }

  lemma {:induction false} InstNonempty(i: F.Inst, env: Env)
    ensures Size(InstCode(i, env)) > 0
  {
    match i {
      case Evaluate(e) => GenNonempty(e, env, 0);
      case Branch(cond, _) => GenNonempty(cond, env, 0);
      case Dispatch(cond, _, _) => GenNonempty(cond, env, 0);
      case Return(value, _) => if value.Some? { GenNonempty(value.value, env, 0); }
      case _ =>
    }
  }
}
