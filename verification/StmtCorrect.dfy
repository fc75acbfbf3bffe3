// Running the flat list does what the statements mean.
module StmtCorrect {
  import opened Words
  import opened Lists
  import opened Ropes
  import opened Options
  import opened Ir
  import opened Ast
  import opened LowerNode
  import opened Conversions
  import opened NodeCorrect
  import opened Statements
  import opened LowerStmt
  import F = FlatIr

  predicate WellTypedStmts(ss: List<Stmt>) {
    match ss
    case Nil => true
    case Cons(s, rest) => WellTypedStmt(s) && WellTypedStmts(rest)
  }

  predicate WellTypedOption(n: Option<Node>) { n.Some? ==> WellTyped(n.value) }

  predicate WellTypedStmt(s: Stmt) {
    match s
    case Block(body) => WellTypedStmts(body)
    case Declare(_, _, init) => WellTypedOption(init)
    case Expression(e) => WellTyped(e)
    case If(cond, yes, no) => WellTyped(cond) && WellTypedStmts(yes) && (no.Some? ==> WellTypedStmts(no.value))
    case While(cond, body) => WellTyped(cond) && WellTypedStmts(body)
    case DoWhile(body, cond) => WellTyped(cond) && WellTypedStmts(body)
    case For(first, test, step, body) =>
      WellTypedStmts(first) && WellTypedOption(test) && WellTypedOption(step) && WellTypedStmts(body)
    case Switch(cond, body) => WellTyped(cond) && WellTypedStmts(body)
    case Return(result) => WellTypedOption(result)
    case _ => true
  }

  // The targets a statement contains.
  predicate Contains(ss: List<Stmt>, t: Target) {
    match ss
    case Nil => false
    case Cons(s, rest) => ContainsOne(s, t) || Contains(rest, t)
  }

  predicate ContainsOne(s: Stmt, t: Target) {
    match s
    case Block(body) => Contains(body, t)
    case If(_, yes, no) => Contains(yes, t) || (no.Some? && Contains(no.value, t))
    case While(_, body) => Contains(body, t)
    case DoWhile(body, _) => Contains(body, t)
    case For(first, _, _, body) => Contains(first, t) || Contains(body, t)
    case Switch(_, body) => Contains(body, t)
    case Case(id, _) => t == ToCase(id)
    case Default(id) => t == ToCase(id)
    case Label(name) => t == ToName(name)
    case _ => false
  }

  // A search leaves a statement that does not contain its target as it came.
  lemma {:induction false} ListPassedOver(ss: List<Stmt>, t: Target, m: Mem, env: Env, ret: Ty, fuel: nat)
    requires !Contains(ss, t)
    ensures ExecList(ss, Seek(t, m), env, ret, fuel) == Jumping(t, m)
    decreases ss
  {
    match ss
    case Nil =>
    case Cons(s, rest) =>
      PassedOver(s, t, m, env, ret, fuel);
      ListPassedOver(rest, t, m, env, ret, fuel);
  }

  lemma {:induction false} PassedOver(s: Stmt, t: Target, m: Mem, env: Env, ret: Ty, fuel: nat)
    requires !ContainsOne(s, t)
    ensures Exec(s, Seek(t, m), env, ret, fuel) == Jumping(t, m)
    decreases s
  {
    match s {
      case Block(body) => ListPassedOver(body, t, m, env, ret, fuel);
      case If(_, yes, no) =>
        ListPassedOver(yes, t, m, env, ret, fuel);
        if no.Some? { ListPassedOver(no.value, t, m, env, ret, fuel); }
      case While(_, body) => ListPassedOver(body, t, m, env, ret, fuel);
      case DoWhile(body, _) => ListPassedOver(body, t, m, env, ret, fuel);
      case For(first, _, _, body) =>
        ListPassedOver(first, t, m, env, ret, fuel);
        ListPassedOver(body, t, m, env, ret, fuel);
        assert ForBody(s, Seek(t, m), env, ret, fuel) == Jumping(t, m);
        assert ExecFor(s, Seek(t, m), env, ret, fuel) == Jumping(t, m);
      case Switch(_, body) => ListPassedOver(body, t, m, env, ret, fuel);
      case _ =>
    }
  }

  function ThreadOf(mode: Mode, fin: Labels): F.Thread {
    match mode
    case Run(m) => F.Here(m)
    case Seek(t, m) => F.Bound(LabelOf(fin, t), m)
  }

  function SignalThread(sig: Signal, cx: Context, fin: Labels): F.Thread {
    match sig
    case Done(m) => F.Here(m)
    case Broke(m) => F.Bound(cx.brk, m)
    case Continued(m) => F.Bound(cx.cont, m)
    case Jumping(t, m) => F.Bound(LabelOf(fin, t), m)
    case Returned(r, m) => F.Stopped(F.Left(r, m))
    case _ => F.Stopped(F.Lost)
  }

  // k steps from a state do what a signal says; when the fuel ran out, they are
  // at least as many as the fuel.
  ghost predicate Leads(code: seq<F.Inst>, env: Env, from: F.State, k: nat, sig: Signal, end: nat,
                        cx: Context, fin: Labels, fuel: nat) {
    match sig
    case OutOfFuel => k >= fuel && F.Run(code, env, from, k).At?
    case Unspecified => true
    case _ => F.Run(code, env, from, k) == F.Place(code, end, SignalThread(sig, cx, fin))
  }

  lemma {:induction false} LeadsFrom(code: seq<F.Inst>, env: Env, s: F.State, m: nat, t: F.State, k: nat,
                                     sig: Signal, end: nat, cx: Context, fin: Labels, fuel: nat)
    requires F.Run(code, env, s, m) == t && Leads(code, env, t, k, sig, end, cx, fin, fuel)
    ensures Leads(code, env, s, m + k, sig, end, cx, fin, fuel)
    ensures m > 0 ==> Leads(code, env, s, m + k, sig, end, cx, fin, fuel + 1)
  {
    F.RunAdd(code, env, s, m, k);
  }

  // What every statement lemma assumes of the code it looks at.
  ghost predicate Set(code: seq<F.Inst>, pc: nat, r: FlatCode, ls: Labels, fin: Labels) {
    F.UniqueMarks(code) && At(code, pc, r) && Extends(ls, fin) && fin.ok
  }

  lemma {:induction false} ListCorrect(code: seq<F.Inst>, env: Env, ss: List<Stmt>, cx: Context, ls: Labels,
                                       fin: Labels, pc: nat, mode: Mode, fuel: nat)
    returns (k: nat)
    requires Set(code, pc, LowerList(ss, cx, ls).0, LowerList(ss, cx, ls).1, fin) && WellTypedStmts(ss)
    ensures Leads(code, env, F.Place(code, pc, ThreadOf(mode, fin)), k, ExecList(ss, mode, env, cx.ret, fuel),
                  pc + Size(LowerList(ss, cx, ls).0), cx, fin, fuel)
    ensures mode.Seek? && Contains(ss, mode.to) ==> k > 0
    decreases fuel, ss, 0
  {
    hide F.UniqueMarks, Extends, At, LowerOne, LabelOf, Exec, WellTypedStmt, ContainsOne, F.Find, Meaning, Lower;
    match ss {
      case Nil => k := 0;
      case Cons(s, rest) =>
        var (c1, ls1) := LowerOne(s, cx, ls);
        var (c2, ls2) := LowerList(rest, cx, ls1);
        ListExtends(rest, cx, ls1);
        ExtendsThen(ls1, ls2, fin);
        AtCat(code, pc, c1, c2);
        k := OneCorrect(code, env, s, cx, ls, fin, pc, mode, fuel);
        var sig := Exec(s, mode, env, cx.ret, fuel);
        if mode.Seek? && !ContainsOne(s, mode.to) { PassedOver(s, mode.to, mode.m, env, cx.ret, fuel); }
        if sig.Done? || sig.Jumping? {
          k := ListNext(code, env, rest, cx, ls1, fin, F.Place(code, pc, ThreadOf(mode, fin)), k, pc + Size(c1), sig, fuel);
        }
    }
  }

  // The statements after one that is done, or that jumps.
  lemma {:induction false} ListNext(code: seq<F.Inst>, env: Env, rest: List<Stmt>, cx: Context, ls: Labels, fin: Labels,
                                    from: F.State, j: nat, pc: nat, sig: Signal, fuel: nat)
    returns (k: nat)
    requires Set(code, pc, LowerList(rest, cx, ls).0, LowerList(rest, cx, ls).1, fin) && WellTypedStmts(rest)
    requires (sig.Done? || sig.Jumping?) && F.Run(code, env, from, j) == F.Place(code, pc, SignalThread(sig, cx, fin))
    ensures var next := if sig.Done? then Run(sig.m) else Seek(sig.to, sig.m);
            Leads(code, env, from, k, ExecList(rest, next, env, cx.ret, fuel), pc + Size(LowerList(rest, cx, ls).0), cx, fin, fuel)
    ensures k >= j && (sig.Jumping? && Contains(rest, sig.to) ==> k > j)
    decreases fuel, rest, 1
  {
    hide F.UniqueMarks, Extends, At, LowerList, ExecList, LabelOf, WellTypedStmts, Contains, F.Find, F.Run;
    var next := if sig.Done? then Run(sig.m) else Seek(sig.to, sig.m);
    var i := ListCorrect(code, env, rest, cx, ls, fin, pc, next, fuel);
    LeadsFrom(code, env, from, j, F.Place(code, pc, ThreadOf(next, fin)), i, ExecList(rest, next, env, cx.ret, fuel),
              pc + Size(LowerList(rest, cx, ls).0), cx, fin, fuel);
    k := j + i;
  }

  lemma {:induction false} OneCorrect(code: seq<F.Inst>, env: Env, s: Stmt, cx: Context, ls: Labels,
                                      fin: Labels, pc: nat, mode: Mode, fuel: nat)
    returns (k: nat)
    requires Set(code, pc, LowerOne(s, cx, ls).0, LowerOne(s, cx, ls).1, fin) && WellTypedStmt(s)
    ensures Leads(code, env, F.Place(code, pc, ThreadOf(mode, fin)), k, Exec(s, mode, env, cx.ret, fuel),
                  pc + Size(LowerOne(s, cx, ls).0), cx, fin, fuel)
    ensures mode.Seek? && ContainsOne(s, mode.to) ==> k > 0
    decreases fuel, s, 9
  {
    hide Meaning, Lower, Tested, Evaluated, Extends;
    match s {
      case Block(body) => k := ListCorrect(code, env, body, cx, ls, fin, pc, mode, fuel);
      case If(_, _, _) => k := IfCorrect(code, env, s, cx, ls, fin, pc, mode, fuel);
      case While(_, _) => k := WhileCorrect(code, env, s, cx, ls, fin, pc, mode, fuel);
      case DoWhile(_, _) => k := DoCorrect(code, env, s, cx, ls, fin, pc, mode, fuel);
      case For(_, _, _, _) => k := ForCorrect(code, env, s, cx, ls, fin, pc, mode, fuel);
      case Switch(_, _) => k := SwitchCorrect(code, env, s, cx, ls, fin, pc, mode, fuel);
      case Case(id, _) => k := MarkCorrect(code, env, s, ToCase(id), cx, ls, fin, pc, mode, fuel);
      case Default(id) => k := MarkCorrect(code, env, s, ToCase(id), cx, ls, fin, pc, mode, fuel);
      case Label(name) => k := MarkCorrect(code, env, s, ToName(name), cx, ls, fin, pc, mode, fuel);
      case _ => k := ActCorrect(code, env, s, cx, ls, fin, pc, mode, fuel);
    }
  }

  // A label stands where its target is.
  lemma {:induction false} MarkCorrect(code: seq<F.Inst>, env: Env, s: Stmt, t: Target, cx: Context, ls: Labels,
                                       fin: Labels, pc: nat, mode: Mode, fuel: nat)
    returns (k: nat)
    requires match s case Case(id, _) => t == ToCase(id) case Default(id) => t == ToCase(id)
                     case Label(name) => t == ToName(name) case _ => false
    requires Set(code, pc, LowerOne(s, cx, ls).0, LowerOne(s, cx, ls).1, fin)
    ensures Leads(code, env, F.Place(code, pc, ThreadOf(mode, fin)), k, Exec(s, mode, env, cx.ret, fuel),
                  pc + Size(LowerOne(s, cx, ls).0), cx, fin, fuel)
    ensures mode.Seek? && mode.to == t ==> k > 0
  {
    hide Extends;
    MarkLabel(s, t, cx, ls, fin);
    AtOne(code, pc, F.Mark(LabelOf(fin, t)));
    k := if mode.Run? || mode.to == t then 1 else 0;
    if mode.Seek? && mode.to == t { F.Found(code, LabelOf(fin, t), pc); }
    F.RunOne(code, env, F.Place(code, pc, ThreadOf(mode, fin)));
  }

  lemma {:induction false} MarkLabel(s: Stmt, t: Target, cx: Context, ls: Labels, fin: Labels)
    requires match s case Case(id, _) => t == ToCase(id) case Default(id) => t == ToCase(id)
                     case Label(name) => t == ToName(name) case _ => false
    requires Extends(LowerOne(s, cx, ls).1, fin) && fin.ok
    ensures LowerOne(s, cx, ls).0 == One(F.Mark(LabelOf(fin, t)))
  {
  }

  lemma {:induction false} EvaluatedDoes(n: Node, k: nat, env: Env, m: Mem)
    requires WellTyped(n)
    ensures var t := F.Perform(F.Evaluate(Lower(n, k).0), env, m);
            match Effect(n, env, m)
            case Means(_, m1) => t == F.Here(m1)
            case _ => true
  {
    EffectCorrect(n, k, env, m);
  }

  lemma {:induction false} TestedDoes(n: Node, k: nat, l: Label, env: Env, m: Mem)
    requires WellTyped(n)
    ensures var t := F.Perform(F.Branch(Lower(n, k).0, l), env, m);
            match Meaning(n, env, m)
            case Means(v, m1) => t == if v != 0 then F.Here(m1) else F.Bound(l, m1)
            case _ => true
  {
    Correct(n, k, env, m);
    var o := Meaning(n, env, m);
    if o.Means? { ValueFromImage(TypeOfNode(n), o.value); }
  }

  lemma {:induction false} ReturnedDoes(n: Node, k: nat, ret: Ty, env: Env, m: Mem)
    requires WellTyped(n)
    ensures var t := F.Perform(F.Return(Some(Converted(n, Lower(n, k).0, ret)), ret), env, m);
            match Meaning(n, env, m)
            case Means(v, m1) => t == F.Stopped(F.Left(Some(Wrap(ret, v)), m1))
            case _ => true
  {
    Correct(n, k, env, m);
    var o := Meaning(n, env, m);
    if o.Means? {
      var v := Eval(Lower(n, k).0, env, m).value;
      WrapCongruent(ret, v, o.value);
      WrapTwice(ret, ret, v);
    }
  }

  lemma {:induction false} ActAlone(s: Stmt, mode: Mode, env: Env, ret: Ty, fuel: nat)
    requires s.Null? || s.Declare? || s.Expression? || s.Break? || s.Continue? || s.Return? || s.Goto?
    ensures Exec(s, mode, env, ret, fuel) == if mode.Run? then Act(s, mode.m, env, ret) else Idle(mode)
  {
    hide Act;
  }

  lemma {:induction false} ActCorrect(code: seq<F.Inst>, env: Env, s: Stmt, cx: Context, ls: Labels,
                                      fin: Labels, pc: nat, mode: Mode, fuel: nat)
    returns (k: nat)
    requires s.Null? || s.Declare? || s.Expression? || s.Break? || s.Continue? || s.Return? || s.Goto?
    requires Set(code, pc, LowerOne(s, cx, ls).0, LowerOne(s, cx, ls).1, fin) && WellTypedStmt(s)
    ensures Leads(code, env, F.Place(code, pc, ThreadOf(mode, fin)), k, Exec(s, mode, env, cx.ret, fuel),
                  pc + Size(LowerOne(s, cx, ls).0), cx, fin, fuel)
  {
    hide F.UniqueMarks, At, Extends, Exec, Act, LowerOne, LabelOf, WellTypedStmt, F.Pass;
    ActAlone(s, mode, env, cx.ret, fuel);
    if mode.Seek? { k := 0; return; }
    k := F.PassRuns(code, env, pc, LowerOne(s, cx, ls).0, F.Here(mode.m));
    ActDoes(s, cx, ls, fin, mode.m, env);
  }

  lemma {:induction false} ActDoes(s: Stmt, cx: Context, ls: Labels, fin: Labels, m: Mem, env: Env)
    requires s.Null? || s.Declare? || s.Expression? || s.Break? || s.Continue? || s.Return? || s.Goto?
    requires WellTypedStmt(s) && Extends(LowerOne(s, cx, ls).1, fin)
    ensures var sig := Act(s, m, env, cx.ret);
            !sig.OutOfFuel? && (sig.Unspecified? || F.Pass(LowerOne(s, cx, ls).0, env, F.Here(m)) == SignalThread(sig, cx, fin))
  {
    hide Meaning, Effect, Lower;
    if s.Declare? {
      if s.init.Some? { EvaluatedDoes(Assign(s.ty, Variable(s.sym), s.init.value), ls.next, env, m); }
    } else if s.Expression? {
      EvaluatedDoes(s.e, ls.next, env, m);
    } else if s.Return? {
      if s.result.Some? { ReturnedDoes(s.result.value, ls.next, cx.ret, env, m); }
    }
  }

  // A label that ends a statement: control arriving there goes on, the rest is
  // elsewhere already.
  lemma {:induction false} EndMark(code: seq<F.Inst>, env: Env, from: F.State, j: nat, sig: Signal, l: Label,
                                   pc: nat, cx: Context, fin: Labels, fuel: nat)
    returns (k: nat)
    requires F.UniqueMarks(code) && At(code, pc, One(F.Mark(l)))
    requires Leads(code, env, from, j, sig, pc, cx, fin, fuel)
    ensures Leads(code, env, from, k, sig, pc + 1, cx, fin, fuel) && k >= j
  {
    k := j;
    if sig.Done? {
      AtOne(code, pc, F.Mark(l));
      F.RunOne(code, env, F.At(pc, sig.m));
      F.RunAdd(code, env, from, j, 1);
      k := j + 1;
    }
  }

  // Going on through a stretch of code.
  lemma {:induction false} Onward(code: seq<F.Inst>, env: Env, from: F.State, j: nat, pc: nat, r: FlatCode, t: F.Thread)
    returns (k: nat)
    requires F.UniqueMarks(code) && At(code, pc, r) && F.Run(code, env, from, j) == F.Place(code, pc, t)
    ensures F.Run(code, env, from, k) == F.Place(code, pc + Size(r), F.Pass(r, env, t)) && k >= j
    ensures t.Here? && F.Starts(r) ==> k > j
  {
    var n := F.PassRuns(code, env, pc, r, t);
    F.RunAdd(code, env, from, j, n);
    k := j + n;
  }

  lemma {:induction false} BranchDoes(n: Node, k: nat, l: Label, x: Label, env: Env, m: Mem)
    requires WellTyped(n) && l != x
    ensures var t := F.Pass(Cat(One(F.Branch(Lower(n, k).0, l)), One(F.Mark(x))), env, F.Here(m));
            match Meaning(n, env, m)
            case Means(v, m1) => t == if v != 0 then F.Here(m1) else F.Bound(l, m1)
            case _ => true
  {
    TestedDoes(n, k, l, env, m);
  }

  lemma {:induction false} IfCorrect(code: seq<F.Inst>, env: Env, s: Stmt, cx: Context, ls: Labels,
                                     fin: Labels, pc: nat, mode: Mode, fuel: nat)
    returns (k: nat)
    requires s.If?
    requires Set(code, pc, LowerOne(s, cx, ls).0, LowerOne(s, cx, ls).1, fin) && WellTypedStmt(s)
    ensures Leads(code, env, F.Place(code, pc, ThreadOf(mode, fin)), k, Exec(s, mode, env, cx.ret, fuel),
                  pc + Size(LowerOne(s, cx, ls).0), cx, fin, fuel)
    ensures mode.Seek? && ContainsOne(s, mode.to) ==> k > 0
    decreases fuel, s, 8
  {
    hide F.UniqueMarks, At, Extends, F.Run, LowerList, ExecList, LabelOf, F.Find, ExecThen, WellTyped, WellTypedStmts, Meaning, Lower;
    var (head, ls1) := IfHead(s, ls);
    var rest := IfRest(s, cx, ls.next, ls1).0;
    assert Size(head) == 2;
    AtCat(code, pc, head, rest);
    if mode.Seek? {
      k := ThenCorrect(code, env, s, cx, ls.next, ls1, fin, pc + 2, mode, fuel);
    } else {
      k := IfTaken(code, env, s, cx, ls, fin, pc, mode.m, fuel);
    }
  }

  function IfHead(s: Stmt, ls: Labels): (FlatCode, Labels)
    requires s.If?
  {
    var (test, ls1) := Tested(s.cond, if s.no.None? then ls.next + 3 else ls.next + 2, Reserve(ls, 3));
    (Cat(test, One(F.Mark(ls.next + 1))), ls1)
  }

  // An if that is reached, rather than jumped into.
  lemma {:induction false} IfTaken(code: seq<F.Inst>, env: Env, s: Stmt, cx: Context, ls: Labels, fin: Labels, pc: nat, m: Mem, fuel: nat)
    returns (k: nat)
    requires s.If? && WellTypedStmt(s) && At(code, pc, IfHead(s, ls).0)
    requires Set(code, pc + 2, IfRest(s, cx, ls.next, IfHead(s, ls).1).0, IfRest(s, cx, ls.next, IfHead(s, ls).1).1, fin)
    ensures Leads(code, env, F.Place(code, pc, F.Here(m)), k, Exec(s, Run(m), env, cx.ret, fuel),
                  pc + 2 + Size(IfRest(s, cx, ls.next, IfHead(s, ls).1).0), cx, fin, fuel)
    decreases fuel, s, 8, 0
  {
    hide F.UniqueMarks, At, Extends, F.Run, LowerList, ExecList, LabelOf, F.Find, ExecThen, WellTyped, WellTypedStmts, Meaning, Lower, IfRest, F.Pass;
    var l := if s.no.None? then ls.next + 3 else ls.next + 2;
    var (head, ls1) := IfHead(s, ls);
    var end := pc + 2 + Size(IfRest(s, cx, ls.next, ls1).0);
    assert Size(head) == 2;
    var from := F.Place(code, pc, F.Here(m));
    BranchDoes(s.cond, ls.next + 3, l, ls.next + 1, env, m);
    k := F.PassRuns(code, env, pc, head, F.Here(m));
    var o := Meaning(s.cond, env, m);
    if o.Means? && o.value != 0 {
      var i := ThenCorrect(code, env, s, cx, ls.next, ls1, fin, pc + 2, Run(o.mem), fuel);
      LeadsFrom(code, env, from, k, F.Place(code, pc + 2, F.Here(o.mem)), i, Exec(s, Run(m), env, cx.ret, fuel), end, cx, fin, fuel);
      k := k + i;
    } else if o.Means? {
      var i := ElseCorrect(code, env, s, cx, ls.next, ls1, fin, pc + 2, o.mem, fuel);
      LeadsFrom(code, env, from, k, F.Place(code, pc + 2, F.Bound(l, o.mem)), i, Exec(s, Run(m), env, cx.ret, fuel), end, cx, fin, fuel);
      k := k + i;
    }
  }

  // The branches of an if, after its test; k is where its labels start.
  function IfRest(s: Stmt, cx: Context, k: nat, ls1: Labels): (r: (FlatCode, Labels))
    requires s.If?
  {
    var (c1, ls2) := LowerList(s.yes, cx, ls1);
    if s.no.None? then (Cat(c1, One(F.Mark(k + 3))), ls2)
    else
      var (c2, ls3) := LowerList(s.no.value, cx, ls2);
      (Cat(Cat(c1, Between(k)), Cat(c2, One(F.Mark(k + 3)))), ls3)
  }

  function Between(k: nat): FlatCode { Cat(One(F.Goto(k + 3)), One(F.Mark(k + 2))) }

  lemma {:induction false} BetweenSize(k: nat)
    ensures Size(Between(k)) == 2
  {
  }

  lemma {:induction false} BetweenDoes(k: nat, env: Env, m: Mem)
    ensures F.Pass(Between(k), env, F.Here(m)) == F.Bound(k + 3, m)
    ensures F.Pass(Between(k), env, F.Bound(k + 2, m)) == F.Here(m)
    ensures Size(Between(k)) == 2
  {
    BetweenSize(k);
  }

  lemma {:induction false} ThenCorrect(code: seq<F.Inst>, env: Env, s: Stmt, cx: Context, k0: nat, ls1: Labels,
                                       fin: Labels, pc: nat, mode: Mode, fuel: nat)
    returns (k: nat)
    requires s.If? && WellTypedStmt(s) && Set(code, pc, IfRest(s, cx, k0, ls1).0, IfRest(s, cx, k0, ls1).1, fin)
    ensures Leads(code, env, F.Place(code, pc, ThreadOf(mode, fin)), k, ExecThen(s, mode, env, cx.ret, fuel),
                  pc + Size(IfRest(s, cx, k0, ls1).0), cx, fin, fuel)
    ensures mode.Seek? && ContainsOne(s, mode.to) ==> k > 0
    decreases fuel, s, 7
  {
    hide F.UniqueMarks, At, Extends, F.Run, LowerList, LabelOf, F.Find, Between, WellTyped, WellTypedStmts;
    var (c1, ls2) := LowerList(s.yes, cx, ls1);
    var from := F.Place(code, pc, ThreadOf(mode, fin));
    var sig := ExecList(s.yes, mode, env, cx.ret, fuel);
    if s.no.None? {
      AtCat(code, pc, c1, One(F.Mark(k0 + 3)));
      k := ListCorrect(code, env, s.yes, cx, ls1, fin, pc, mode, fuel);
      if !sig.OutOfFuel? && !sig.Unspecified? {
        k := EndMark(code, env, from, k, sig, k0 + 3, pc + Size(c1), cx, fin, fuel);
      }
    } else {
      var (c2, ls3) := LowerList(s.no.value, cx, ls2);
      ListExtends(s.no.value, cx, ls2);
      ExtendsThen(ls2, ls3, fin);
      BetweenSize(k0);
      AtCat(code, pc, Cat(c1, Between(k0)), Cat(c2, One(F.Mark(k0 + 3))));
      AtCat(code, pc, c1, Between(k0));
      assert Size(Cat(c2, One(F.Mark(k0 + 3)))) == Size(c2) + 1;
      k := ListCorrect(code, env, s.yes, cx, ls1, fin, pc, mode, fuel);
      if mode.Seek? && !Contains(s.yes, mode.to) { ListPassedOver(s.yes, mode.to, mode.m, env, cx.ret, fuel); }
      if !sig.OutOfFuel? && !sig.Unspecified? {
        k := SkipElse(code, env, s, cx, k0, ls2, fin, from, k, pc + Size(c1), sig, fuel);
      }
    }
  }

  // From the end of the first branch to the end of the statement.
  lemma {:induction false} SkipElse(code: seq<F.Inst>, env: Env, s: Stmt, cx: Context, k0: nat, ls2: Labels,
                                    fin: Labels, from: F.State, j: nat, pc: nat, sig: Signal, fuel: nat)
    returns (k: nat)
    requires s.If? && s.no.Some? && WellTypedStmt(s) && !sig.OutOfFuel? && !sig.Unspecified?
    requires At(code, pc, Between(k0)) && Leads(code, env, from, j, sig, pc, cx, fin, fuel)
    requires var (c2, ls3) := LowerList(s.no.value, cx, ls2);
             Set(code, pc + 2, Cat(c2, One(F.Mark(k0 + 3))), ls3, fin)
    ensures var end := pc + 2 + Size(LowerList(s.no.value, cx, ls2).0) + 1;
            var last := match sig
                        case Jumping(t, m) => ExecList(s.no.value, Seek(t, m), env, cx.ret, fuel)
                        case other => other;
            Leads(code, env, from, k, last, end, cx, fin, fuel)
    ensures k >= j
    ensures sig.Jumping? && Contains(s.no.value, sig.to) ==> k > j
    decreases fuel, s, 6
  {
    hide F.UniqueMarks, At, Extends, F.Run, LowerList, ExecList, Between, F.Find, WellTyped, WellTypedStmts;
    var (c2, ls3) := LowerList(s.no.value, cx, ls2);
    AtCat(code, pc + 2, c2, One(F.Mark(k0 + 3)));
    var p := pc + 2 + Size(c2);
    match sig {
      case Jumping(t, m) =>
        k := ListCorrect(code, env, s.no.value, cx, ls2, fin, pc + 2, Seek(t, m), fuel);
        var last := ExecList(s.no.value, Seek(t, m), env, cx.ret, fuel);
        LeadsFrom(code, env, from, j, F.Place(code, pc + 2, ThreadOf(Seek(t, m), fin)), k, last, p, cx, fin, fuel);
        k := j + k;
        if !last.OutOfFuel? && !last.Unspecified? {
          k := EndMark(code, env, from, k, last, k0 + 3, p, cx, fin, fuel);
        }
      case Done(m) =>
        BetweenDoes(k0, env, m);
        k := Onward(code, env, from, j, pc, Between(k0), F.Here(m));
        k := Onward(code, env, from, k, p, One(F.Mark(k0 + 3)), F.Bound(k0 + 3, m));
      case _ => k := j;
    }
  }

  lemma {:induction false} ElseCorrect(code: seq<F.Inst>, env: Env, s: Stmt, cx: Context, k0: nat, ls1: Labels,
                                       fin: Labels, pc: nat, m: Mem, fuel: nat)
    returns (k: nat)
    requires s.If? && WellTypedStmt(s) && Set(code, pc, IfRest(s, cx, k0, ls1).0, IfRest(s, cx, k0, ls1).1, fin)
    ensures var l := if s.no.None? then k0 + 3 else k0 + 2;
            var sig := if s.no.None? then Done(m) else ExecList(s.no.value, Run(m), env, cx.ret, fuel);
            Leads(code, env, F.Place(code, pc, F.Bound(l, m)), k, sig, pc + Size(IfRest(s, cx, k0, ls1).0), cx, fin, fuel)
    decreases fuel, s, 7
  {
    hide F.UniqueMarks, At, Extends, LowerList, ExecList, LabelOf, F.Find, WellTyped, WellTypedStmts, Between, F.Step;
    var (c1, ls2) := LowerList(s.yes, cx, ls1);
    if s.no.None? {
      AtCat(code, pc, c1, One(F.Mark(k0 + 3)));
      var from := F.Place(code, pc, F.Bound(k0 + 3, m));
      k := F.PassRuns(code, env, pc + Size(c1), One(F.Mark(k0 + 3)), F.Bound(k0 + 3, m));
    } else {
      k := EnterElse(code, env, s, cx, k0, ls1, fin, pc, m, fuel);
    }
  }

  lemma {:induction false} EnterElse(code: seq<F.Inst>, env: Env, s: Stmt, cx: Context, k0: nat, ls1: Labels,
                                     fin: Labels, pc: nat, m: Mem, fuel: nat)
    returns (k: nat)
    requires s.If? && s.no.Some? && WellTypedStmt(s) && Set(code, pc, IfRest(s, cx, k0, ls1).0, IfRest(s, cx, k0, ls1).1, fin)
    ensures Leads(code, env, F.Place(code, pc, F.Bound(k0 + 2, m)), k, ExecList(s.no.value, Run(m), env, cx.ret, fuel),
                  pc + Size(IfRest(s, cx, k0, ls1).0), cx, fin, fuel)
    decreases fuel, s, 6
  {
    hide F.UniqueMarks, At, Extends, LowerList, ExecList, LabelOf, F.Find, WellTyped, WellTypedStmts, Between, F.Step, F.Run;
    var (c1, ls2) := LowerList(s.yes, cx, ls1);
    var (c2, ls3) := LowerList(s.no.value, cx, ls2);
    BetweenSize(k0);
    AtCat(code, pc, Cat(c1, Between(k0)), Cat(c2, One(F.Mark(k0 + 3))));
    AtCat(code, pc, c1, Between(k0));
    var p := pc + Size(c1) + 2;
    AtCat(code, p, c2, One(F.Mark(k0 + 3)));
    var from := F.Place(code, pc, F.Bound(k0 + 2, m));
    BetweenDoes(k0, env, m);
    var j := F.PassRuns(code, env, pc + Size(c1), Between(k0), F.Bound(k0 + 2, m));
    k := ListCorrect(code, env, s.no.value, cx, ls2, fin, p, Run(m), fuel);
    var sig := ExecList(s.no.value, Run(m), env, cx.ret, fuel);
    LeadsFrom(code, env, from, j, F.Place(code, p, F.Here(m)), k, sig, p + Size(c2), cx, fin, fuel);
    k := j + k;
    if !sig.OutOfFuel? && !sig.Unspecified? {
      k := EndMark(code, env, from, k, sig, k0 + 3, p + Size(c2), cx, fin, fuel);
    }
  }

  // A turn begun by running the loop has already cost a step.
  function Owed(mode: Mode, fuel: nat): nat {
    if mode.Run? && fuel > 0 then fuel - 1 else fuel
  }

  // Back at the label a loop starts with.
  lemma {:induction false} BackToStart(code: seq<F.Inst>, env: Env, from: F.State, j: nat, pcTail: nat, tail: FlatCode,
                                       t: F.Thread, start: Label, pcStart: nat, m: Mem)
    returns (k: nat)
    requires F.UniqueMarks(code) && At(code, pcTail, tail) && At(code, pcStart, One(F.Mark(start)))
    requires F.Run(code, env, from, j) == F.Place(code, pcTail, t) && F.Pass(tail, env, t) == F.Bound(start, m)
    ensures F.Run(code, env, from, k) == F.Place(code, pcStart, F.Here(m)) && k >= j
  {
    k := Onward(code, env, from, j, pcTail, tail, t);
    AtOne(code, pcStart, F.Mark(start));
    F.Found(code, start, pcStart);
  }

  function WhileHead(k: nat, test: FlatCode): FlatCode { Cat(One(F.Mark(k + 1)), test) }

  function WhileTail(k: nat): FlatCode { Cat(One(F.Goto(k + 1)), One(F.Mark(k + 2))) }

  datatype WhileParts = WhileParts(test: FlatCode, body: FlatCode, ls1: Labels, ls2: Labels)

  function PartsOfWhile(s: Stmt, cx: Context, ls: Labels): WhileParts
    requires s.While?
  {
    var (test, ls1) := Tested(s.cond, ls.next + 2, Reserve(ls, 2));
    var (c, ls2) := LowerList(s.body, cx.(brk := ls.next + 2, cont := ls.next + 1), ls1);
    WhileParts(test, c, ls1, ls2)
  }

  lemma {:induction false} HeadStarts(k: nat, i: F.Inst)
    ensures Size(WhileHead(k, One(i))) == 2 && F.Starts(WhileHead(k, One(i)))
  {
  }

  ghost predicate WhileSet(code: seq<F.Inst>, s: Stmt, cx: Context, ls: Labels, fin: Labels, pc: nat)
    requires s.While?
  {
    var p := PartsOfWhile(s, cx, ls);
    && At(code, pc, One(F.Mark(ls.next + 1))) && At(code, pc, WhileHead(ls.next, p.test))
    && Set(code, pc + 2, p.body, p.ls2, fin) && At(code, pc + 2 + Size(p.body), WhileTail(ls.next))
    && Size(LowerOne(s, cx, ls).0) == 2 + Size(p.body) + 2
    && p.test == One(F.Branch(Lower(s.cond, ls.next + 2).0, ls.next + 2))
    && LowerList(s.body, cx.(brk := ls.next + 2, cont := ls.next + 1), p.ls1) == (p.body, p.ls2)
  }

  lemma {:induction false} WhileIsSet(code: seq<F.Inst>, s: Stmt, cx: Context, ls: Labels, fin: Labels, pc: nat)
    requires s.While? && Set(code, pc, LowerOne(s, cx, ls).0, LowerOne(s, cx, ls).1, fin)
    ensures WhileSet(code, s, cx, ls, fin, pc)
  {
    hide F.UniqueMarks, At, Extends, LowerList;
    var p := PartsOfWhile(s, cx, ls);
    var head, tail := WhileHead(ls.next, p.test), WhileTail(ls.next);
    assert Size(tail) == 2;
    assert Size(head) == 2;
    assert Size(Cat(p.body, tail)) == Size(p.body) + 2;
    AtCat(code, pc, head, Cat(p.body, tail));
    AtCat(code, pc, One(F.Mark(ls.next + 1)), p.test);
    AtCat(code, pc + 2, p.body, tail);
  }

  lemma {:induction false} WhileTailDoes(k: nat, env: Env, m: Mem)
    ensures F.Pass(WhileTail(k), env, F.Here(m)) == F.Bound(k + 1, m)
    ensures F.Pass(WhileTail(k), env, F.Bound(k + 1, m)) == F.Bound(k + 1, m)
    ensures F.Pass(WhileTail(k), env, F.Bound(k + 2, m)) == F.Here(m)
    ensures Size(WhileTail(k)) == 2
  {
  }

  lemma {:induction false} WhileCorrect(code: seq<F.Inst>, env: Env, s: Stmt, cx: Context, ls: Labels,
                                        fin: Labels, pc: nat, mode: Mode, fuel: nat)
    returns (k: nat)
    requires s.While?
    requires Set(code, pc, LowerOne(s, cx, ls).0, LowerOne(s, cx, ls).1, fin) && WellTypedStmt(s)
    ensures Leads(code, env, F.Place(code, pc, ThreadOf(mode, fin)), k, Exec(s, mode, env, cx.ret, fuel),
                  pc + Size(LowerOne(s, cx, ls).0), cx, fin, fuel)
    ensures mode.Seek? && ContainsOne(s, mode.to) ==> k > 0
    decreases fuel, s, 8
  {
    hide F.UniqueMarks, At, Extends, LowerList, ExecList, LowerOne, LabelOf, F.Find, PartsOfWhile, WhileTail, ExecBody, WellTyped;
    WhileIsSet(code, s, cx, ls, fin, pc);
    k := WhileLoop(code, env, s, cx, ls, fin, pc, mode, fuel);
  }

  lemma {:induction false} WhileLoop(code: seq<F.Inst>, env: Env, s: Stmt, cx: Context, ls: Labels,
                                     fin: Labels, pc: nat, mode: Mode, fuel: nat)
    returns (k: nat)
    requires s.While? && WellTypedStmt(s) && WhileSet(code, s, cx, ls, fin, pc)
    ensures Leads(code, env, F.Place(code, pc, ThreadOf(mode, fin)), k, Exec(s, mode, env, cx.ret, fuel),
                  pc + Size(LowerOne(s, cx, ls).0), cx, fin, fuel)
    ensures mode.Seek? && ContainsOne(s, mode.to) ==> k > 0
    decreases fuel, s, 7
  {
    hide F.UniqueMarks, At, Extends, F.Run, LowerList, ExecList, LowerOne, LabelOf, F.Find, PartsOfWhile, WhileTail, ExecBody, WellTyped, WellTypedStmts, Lower;
    if mode.Seek? {
      k := WhileTurn(code, env, s, cx, ls, fin, pc, mode, fuel);
      return;
    }
    var p := PartsOfWhile(s, cx, ls);
    var from, end := F.Place(code, pc, F.Here(mode.m)), pc + 2 + Size(p.body);
    var head := WhileHead(ls.next, p.test);
    HeadStarts(ls.next, F.Branch(Lower(s.cond, ls.next + 2).0, ls.next + 2));
    TestedDoes(s.cond, ls.next + 2, ls.next + 2, env, mode.m);
    k := F.PassRuns(code, env, pc, head, F.Here(mode.m));
    var o := Meaning(s.cond, env, mode.m);
    if o.Means? && o.value == 0 {
      WhileTailDoes(ls.next, env, o.mem);
      k := Onward(code, env, from, k, end, WhileTail(ls.next), F.Bound(ls.next + 2, o.mem));
    } else if o.Means? {
      var i := WhileTurn(code, env, s, cx, ls, fin, pc, Run(o.mem), fuel);
      LeadsFrom(code, env, from, k, F.Place(code, pc + 2, F.Here(o.mem)), i, ExecBody(s, Run(o.mem), env, cx.ret, fuel),
                end + 2, cx, fin, Owed(Run(o.mem), fuel));
      k := k + i;
    }
  }

  // From the body of the loop on.
  lemma {:induction false} WhileTurn(code: seq<F.Inst>, env: Env, s: Stmt, cx: Context, ls: Labels,
                                     fin: Labels, pc: nat, mode: Mode, fuel: nat)
    returns (k: nat)
    requires s.While? && WellTypedStmt(s) && WhileSet(code, s, cx, ls, fin, pc)
    ensures Leads(code, env, F.Place(code, pc + 2, ThreadOf(mode, fin)), k, ExecBody(s, mode, env, cx.ret, fuel),
                  pc + Size(LowerOne(s, cx, ls).0), cx, fin, Owed(mode, fuel))
    ensures mode.Seek? && ContainsOne(s, mode.to) ==> k > 0
    decreases fuel, s, 6
  {
    hide F.UniqueMarks, At, Extends, F.Run, LowerList, ExecList, Exec, LowerOne, LabelOf, F.Find, PartsOfWhile, WhileTail, WellTyped, Lower, F.Pass;
    var p := PartsOfWhile(s, cx, ls);
    var cx1 := cx.(brk := ls.next + 2, cont := ls.next + 1);
    var from, end := F.Place(code, pc + 2, ThreadOf(mode, fin)), pc + 2 + Size(p.body);
    k := ListCorrect(code, env, s.body, cx1, p.ls1, fin, pc + 2, mode, fuel);
    if mode.Seek? && !Contains(s.body, mode.to) { ListPassedOver(s.body, mode.to, mode.m, env, cx.ret, fuel); }
    var sig := ExecList(s.body, mode, env, cx.ret, fuel);
    if sig.Broke? {
      WhileTailDoes(ls.next, env, sig.m);
      k := Onward(code, env, from, k, end, WhileTail(ls.next), F.Bound(ls.next + 2, sig.m));
    } else if sig.Done? || sig.Continued? {
      WhileTailDoes(ls.next, env, sig.m);
      k := BackToStart(code, env, from, k, end, WhileTail(ls.next), SignalThread(sig, cx1, fin), ls.next + 1, pc, sig.m);
      if fuel > 0 {
        var i := WhileLoop(code, env, s, cx, ls, fin, pc, Run(sig.m), fuel - 1);
        LeadsFrom(code, env, from, k, F.Place(code, pc, F.Here(sig.m)), i, Exec(s, Run(sig.m), env, cx.ret, fuel - 1),
                  end + 2, cx, fin, fuel - 1);
        k := k + i;
      }
    }
  }

  function DoTail(k: nat, test: FlatCode): FlatCode {
    Cat(Cat(One(F.Mark(k + 2)), test), LoopEnd(k))
  }

  function LoopEnd(k: nat): FlatCode { Cat(One(F.Goto(k + 1)), One(F.Mark(k + 3))) }

  lemma {:induction false} LoopEndDoes(k: nat, env: Env, m: Mem)
    ensures F.Pass(LoopEnd(k), env, F.Here(m)) == F.Bound(k + 1, m)
    ensures F.Pass(LoopEnd(k), env, F.Bound(k + 3, m)) == F.Here(m)
  {
  }

  lemma {:induction false} LoopEndSize(k: nat)
    ensures Size(LoopEnd(k)) == 2
  {
  }

  lemma {:induction false} DoCorrect(code: seq<F.Inst>, env: Env, s: Stmt, cx: Context, ls: Labels,
                                     fin: Labels, pc: nat, mode: Mode, fuel: nat)
    returns (k: nat)
    requires s.DoWhile?
    requires Set(code, pc, LowerOne(s, cx, ls).0, LowerOne(s, cx, ls).1, fin) && WellTypedStmt(s)
    ensures Leads(code, env, F.Place(code, pc, ThreadOf(mode, fin)), k, Exec(s, mode, env, cx.ret, fuel),
                  pc + Size(LowerOne(s, cx, ls).0), cx, fin, fuel)
    ensures mode.Seek? && ContainsOne(s, mode.to) ==> k > 0
    decreases fuel, s, 8
  {
    hide F.UniqueMarks, At, Extends, F.Run, LowerList, ExecList;
    k := DoTurn(code, env, s, cx, ls, fin, pc, mode, fuel);
    if mode.Run? {
      var (c, ls1) := LowerList(s.body, cx.(brk := ls.next + 3, cont := ls.next + 2), Reserve(ls, 3));
      var tail := DoTail(ls.next, Tested(s.cond, ls.next + 3, ls1).0);
      AtCat(code, pc, Cat(One(F.Mark(ls.next + 1)), c), tail);
      AtCat(code, pc, One(F.Mark(ls.next + 1)), c);
      var j := F.PassRuns(code, env, pc, One(F.Mark(ls.next + 1)), F.Here(mode.m));
      LeadsFrom(code, env, F.Place(code, pc, F.Here(mode.m)), j, F.Place(code, pc + 1, F.Here(mode.m)), k,
                Exec(s, mode, env, cx.ret, fuel), pc + Size(LowerOne(s, cx, ls).0), cx, fin, Owed(mode, fuel));
      k := j + k;
    }
  }

  // The end of a do loop: the test, and back or out.
  lemma {:induction false} DoTailDoes(n: Node, k: nat, k0: nat, env: Env, m: Mem, t: F.Thread)
    requires WellTyped(n) && (t == F.Here(m) || t == F.Bound(k0 + 2, m))
    ensures var r := F.Pass(DoTail(k0, One(F.Branch(Lower(n, k).0, k0 + 3))), env, t);
            match Meaning(n, env, m)
            case Means(v, m1) => r == if v != 0 then F.Bound(k0 + 1, m1) else F.Here(m1)
            case _ => true
  {
    TestedDoes(n, k, k0 + 3, env, m);
    var i := F.Branch(Lower(n, k).0, k0 + 3);
    var o := Meaning(n, env, m);
    if o.Means? { LoopEndDoes(k0, env, o.mem); }
    assert F.Pass(One(F.Mark(k0 + 2)), env, t) == F.Here(m);
    assert F.Pass(Cat(One(F.Mark(k0 + 2)), One(i)), env, t) == F.Perform(i, env, m);
  }

  lemma {:induction false} DoTailOut(e: Expr, k0: nat, env: Env, m: Mem)
    ensures F.Pass(DoTail(k0, One(F.Branch(e, k0 + 3))), env, F.Bound(k0 + 3, m)) == F.Here(m)
  {
    var t := F.Bound(k0 + 3, m);
    LoopEndDoes(k0, env, m);
    assert F.Pass(Cat(One(F.Mark(k0 + 2)), One(F.Branch(e, k0 + 3))), env, t) == t;
  }

  lemma {:induction false} DoTurn(code: seq<F.Inst>, env: Env, s: Stmt, cx: Context, ls: Labels,
                                  fin: Labels, pc: nat, mode: Mode, fuel: nat)
    returns (k: nat)
    requires s.DoWhile?
    requires Set(code, pc, LowerOne(s, cx, ls).0, LowerOne(s, cx, ls).1, fin) && WellTypedStmt(s)
    ensures Leads(code, env, F.Place(code, pc + 1, ThreadOf(mode, fin)), k, ExecBody(s, mode, env, cx.ret, fuel),
                  pc + Size(LowerOne(s, cx, ls).0), cx, fin, Owed(mode, fuel))
    ensures mode.Seek? && ContainsOne(s, mode.to) ==> k > 0
    decreases fuel, s, 7
  {
    hide F.UniqueMarks, At, Extends, F.Run, LowerList, ExecList, Exec, Again, F.Place, LabelOf;
    var cx1 := cx.(brk := ls.next + 3, cont := ls.next + 2);
    var (c, ls1) := LowerList(s.body, cx1, Reserve(ls, 3));
    DoSet(code, s, cx, ls, fin, pc);
    var from, p := F.Place(code, pc + 1, ThreadOf(mode, fin)), pc + 1 + Size(c);
    k := ListCorrect(code, env, s.body, cx1, Reserve(ls, 3), fin, pc + 1, mode, fuel);
    if mode.Seek? && !Contains(s.body, mode.to) { ListPassedOver(s.body, mode.to, mode.m, env, cx.ret, fuel); }
    var sig := ExecList(s.body, mode, env, cx.ret, fuel);
    if sig.Broke? {
      DoTailOut(Lower(s.cond, ls1.next).0, ls.next, env, sig.m);
      k := Onward(code, env, from, k, p, DoTail(ls.next, Tested(s.cond, ls.next + 3, ls1).0), F.Bound(ls.next + 3, sig.m));
    } else if sig.Done? || sig.Continued? {
      k := DoAgain(code, env, s, cx, ls, fin, pc, from, k, SignalThread(sig, cx1, fin), sig.m, fuel,
                   if mode.Run? then Owed(mode, fuel) else fuel);
    } else {
      Elsewhere(code, env, from, k, sig, p, cx1, cx, pc + Size(LowerOne(s, cx, ls).0), fin, fuel, Owed(mode, fuel));
    }
  }

  // A signal that control has left the body with holds for the whole loop.
  lemma {:induction false} Elsewhere(code: seq<F.Inst>, env: Env, from: F.State, k: nat, sig: Signal, p: nat, cx1: Context,
                                     cx: Context, end: nat, fin: Labels, fuel: nat, owed: nat)
    requires Leads(code, env, from, k, sig, p, cx1, fin, fuel) && owed <= fuel
    requires !sig.Done? && !sig.Broke? && !sig.Continued?
    ensures Leads(code, env, from, k, sig, end, cx, fin, owed)
  {
  }

  lemma {:induction false} DoSet(code: seq<F.Inst>, s: Stmt, cx: Context, ls: Labels, fin: Labels, pc: nat)
    requires s.DoWhile? && Set(code, pc, LowerOne(s, cx, ls).0, LowerOne(s, cx, ls).1, fin)
    ensures var cx1 := cx.(brk := ls.next + 3, cont := ls.next + 2);
            var (c, ls1) := LowerList(s.body, cx1, Reserve(ls, 3));
            var tail := DoTail(ls.next, Tested(s.cond, ls.next + 3, ls1).0);
            && At(code, pc, One(F.Mark(ls.next + 1))) && Set(code, pc + 1, c, ls1, fin)
            && At(code, pc + 1 + Size(c), tail) && Size(tail) == 4
            && Size(LowerOne(s, cx, ls).0) == 1 + Size(c) + 4
  {
    hide F.UniqueMarks, At, Extends, LowerList;
    var cx1 := cx.(brk := ls.next + 3, cont := ls.next + 2);
    var (c, ls1) := LowerList(s.body, cx1, Reserve(ls, 3));
    var (test, ls2) := Tested(s.cond, ls.next + 3, ls1);
    var tail := DoTail(ls.next, test);
    NodeLabelsGrow(s.cond, ls1.next);
    ExtendsNext(ls1, ls2);
    ExtendsThen(ls1, ls2, fin);
    AtCat(code, pc, Cat(One(F.Mark(ls.next + 1)), c), tail);
    AtCat(code, pc, One(F.Mark(ls.next + 1)), c);
    LoopEndSize(ls.next);
    assert Size(Cat(One(F.Mark(ls.next + 2)), test)) == 2;
  }

  // The test of a do loop, after its body, and the turns that follow.
  lemma {:induction false} DoAgain(code: seq<F.Inst>, env: Env, s: Stmt, cx: Context, ls: Labels, fin: Labels, pc: nat,
                                   from: F.State, j: nat, t: F.Thread, m: Mem, fuel: nat, owed: nat)
    returns (k: nat)
    requires s.DoWhile?
    requires Set(code, pc, LowerOne(s, cx, ls).0, LowerOne(s, cx, ls).1, fin) && WellTypedStmt(s)
    requires t == F.Here(m) || t == F.Bound(ls.next + 2, m)
    requires owed <= fuel && (owed == fuel > 0 ==> j > 0)
    requires var c := LowerList(s.body, cx.(brk := ls.next + 3, cont := ls.next + 2), Reserve(ls, 3)).0;
             F.Run(code, env, from, j) == F.Place(code, pc + 1 + Size(c), t)
    ensures Leads(code, env, from, k, Again(s, m, env, cx.ret, fuel), pc + Size(LowerOne(s, cx, ls).0), cx, fin, owed)
    ensures k >= j
    decreases fuel, s, 6
  {
    hide F.UniqueMarks, At, Extends, F.Run, LowerList, Exec, LabelOf, F.Find, WellTyped, WellTypedStmts, DoTail, Meaning, Lower, Reserve, LowerOne;
    var (c, ls1) := LowerList(s.body, cx.(brk := ls.next + 3, cont := ls.next + 2), Reserve(ls, 3));
    var tail := DoTail(ls.next, Tested(s.cond, ls.next + 3, ls1).0);
    DoSet(code, s, cx, ls, fin, pc);
    DoTailDoes(s.cond, ls1.next, ls.next, env, m, t);
    k := j;
    var o := Meaning(s.cond, env, m);
    if o.Means? && o.value == 0 {
      k := Onward(code, env, from, j, pc + 1 + Size(c), tail, t);
    } else if o.Means? {
      k := BackToStart(code, env, from, j, pc + 1 + Size(c), tail, t, ls.next + 1, pc, o.mem);
      if fuel > 0 {
        var i := DoCorrect(code, env, s, cx, ls, fin, pc, Run(o.mem), fuel - 1);
        LeadsFrom(code, env, from, k, F.Place(code, pc, F.Here(o.mem)), i, Exec(s, Run(o.mem), env, cx.ret, fuel - 1),
                  pc + Size(LowerOne(s, cx, ls).0), cx, fin, fuel - 1);
        k := k + i;
      }
    }
  }

  // The pieces of a for loop, in the order they are lowered.
  datatype ForParts = ForParts(first: FlatCode, test: FlatCode, body: FlatCode, step: FlatCode,
                               ls1: Labels, ls2: Labels, ls3: Labels, ls4: Labels)

  function Parts(s: Stmt, cx: Context, ls: Labels): ForParts
    requires s.For?
  {
    var k := ls.next;
    var (c0, ls1) := LowerList(s.first, cx, Reserve(ls, 3));
    var (c1, ls2) := if s.test.None? then (Empty, ls1) else Tested(s.test.value, k + 3, ls1);
    var (c2, ls3) := LowerList(s.body, Inside(cx, k), ls2);
    var (c3, ls4) := if s.step.None? then (Empty, ls3) else Evaluated(s.step.value, ls3);
    ForParts(c0, c1, c2, c3, ls1, ls2, ls3, ls4)
  }

  function Inside(cx: Context, k: nat): Context { cx.(brk := k + 3, cont := k + 2) }

  function ForHead(k: nat, test: FlatCode): FlatCode { Cat(One(F.Mark(k + 1)), test) }

  function ForTail(k: nat, step: FlatCode): FlatCode { Cat(Cat(One(F.Mark(k + 2)), step), LoopEnd(k)) }

  // Where the pieces stand.
  ghost predicate ForSet(code: seq<F.Inst>, s: Stmt, cx: Context, ls: Labels, fin: Labels, pc: nat)
    requires s.For?
  {
    var p := Parts(s, cx, ls);
    var start := pc + Size(p.first);
    var body := start + 1 + Size(p.test);
    && Set(code, pc, p.first, p.ls1, fin) && At(code, start, One(F.Mark(ls.next + 1)))
    && At(code, start, ForHead(ls.next, p.test)) && Set(code, body, p.body, p.ls3, fin)
    && At(code, body + Size(p.body), ForTail(ls.next, p.step))
    && pc + Size(LowerOne(s, cx, ls).0) == body + Size(p.body) + Size(ForTail(ls.next, p.step))
  }

  lemma {:induction false} ForIsSet(code: seq<F.Inst>, s: Stmt, cx: Context, ls: Labels, fin: Labels, pc: nat)
    requires s.For? && Set(code, pc, LowerOne(s, cx, ls).0, LowerOne(s, cx, ls).1, fin)
    ensures ForSet(code, s, cx, ls, fin, pc)
  {
    hide F.UniqueMarks, At, Extends, LowerList, LowerOne;
    var p := Parts(s, cx, ls);
    ForShape(s, cx, ls);
    if s.test.Some? { NodeLabelsGrow(s.test.value, p.ls1.next); }
    if s.step.Some? { NodeLabelsGrow(s.step.value, p.ls3.next); }
    ExtendsNext(p.ls1, p.ls2);
    ListExtends(s.body, Inside(cx, ls.next), p.ls2);
    ExtendsNext(p.ls3, p.ls4);
    ExtendsThen(p.ls3, p.ls4, fin);
    ExtendsThen(p.ls1, p.ls2, p.ls3);
    ExtendsThen(p.ls1, p.ls3, fin);
    ForPlaced(code, pc, p.first, One(F.Mark(ls.next + 1)), p.test, p.body, ForTail(ls.next, p.step));
  }

  lemma {:induction false} ForPlaced(code: seq<F.Inst>, pc: nat, a: FlatCode, mark: FlatCode, test: FlatCode,
                                     body: FlatCode, tail: FlatCode)
    requires At(code, pc, Cat(a, Cat(Cat(mark, test), Cat(body, tail)))) && Size(mark) == 1
    ensures At(code, pc, a) && At(code, pc + Size(a), mark) && At(code, pc + Size(a), Cat(mark, test))
    ensures At(code, pc + Size(a) + 1 + Size(test), body)
    ensures At(code, pc + Size(a) + 1 + Size(test) + Size(body), tail)
  {
    hide At;
    AtCat(code, pc, a, Cat(Cat(mark, test), Cat(body, tail)));
    AtCat(code, pc + Size(a), Cat(mark, test), Cat(body, tail));
    AtCat(code, pc + Size(a), mark, test);
    assert Size(Cat(mark, test)) == 1 + Size(test);
    AtCat(code, pc + Size(a) + 1 + Size(test), body, tail);
  }

  lemma {:induction false} ForShape(s: Stmt, cx: Context, ls: Labels)
    requires s.For?
    ensures var p := Parts(s, cx, ls);
            && LowerOne(s, cx, ls).1 == p.ls4
            && LowerOne(s, cx, ls).0
               == Cat(p.first, Cat(ForHead(ls.next, p.test), Cat(p.body, ForTail(ls.next, p.step))))
            && Size(LowerOne(s, cx, ls).0)
               == Size(p.first) + (Size(ForHead(ls.next, p.test)) + (Size(p.body) + Size(ForTail(ls.next, p.step))))
  {
    hide LowerList, Lower;
    var p := Parts(s, cx, ls);
    var rest := Cat(p.body, ForTail(ls.next, p.step));
    assert Size(rest) == Size(p.body) + Size(ForTail(ls.next, p.step));
  }

  lemma {:induction false} ForHeadDoes(test: Option<Node>, k: nat, k0: nat, env: Env, m: Mem)
    requires test.Some? ==> WellTyped(test.value)
    ensures var c := if test.None? then Empty else One(F.Branch(Lower(test.value, k).0, k0 + 3));
            var t := F.Pass(ForHead(k0, c), env, F.Here(m));
            match test
            case None => t == F.Here(m)
            case Some(n) =>
              (match Meaning(n, env, m)
               case Means(v, m1) => t == if v != 0 then F.Here(m1) else F.Bound(k0 + 3, m1)
               case _ => true)
    ensures F.Starts(ForHead(k0, if test.None? then Empty else One(F.Branch(Lower(test.value, k).0, k0 + 3))))
  {
    if test.Some? { TestedDoes(test.value, k, k0 + 3, env, m); }
  }

  // The end of a for loop: the step, and back.
  lemma {:induction false} ForTailDoes(step: Option<Node>, k: nat, k0: nat, env: Env, m: Mem, t: F.Thread)
    requires (step.Some? ==> WellTyped(step.value)) && (t == F.Here(m) || t == F.Bound(k0 + 2, m))
    ensures var c := if step.None? then Empty else One(F.Evaluate(Lower(step.value, k).0));
            var r := F.Pass(ForTail(k0, c), env, t);
            match step
            case None => r == F.Bound(k0 + 1, m)
            case Some(n) =>
              (match Effect(n, env, m) case Means(_, m1) => r == F.Bound(k0 + 1, m1) case _ => true)
  {
    var c := if step.None? then Empty else One(F.Evaluate(Lower(step.value, k).0));
    LoopEndDoes(k0, env, m);
    if step.Some? {
      EvaluatedDoes(step.value, k, env, m);
      var o := Effect(step.value, env, m);
      if o.Means? { LoopEndDoes(k0, env, o.mem); }
    }
    assert F.Pass(One(F.Mark(k0 + 2)), env, t) == F.Here(m);
    assert F.Pass(Cat(One(F.Mark(k0 + 2)), c), env, t) == F.Pass(c, env, F.Here(m));
  }

  lemma {:induction false} ForTailOut(step: Option<Node>, k: nat, k0: nat, env: Env, m: Mem)
    ensures var c := if step.None? then Empty else One(F.Evaluate(Lower(step.value, k).0));
            F.Pass(ForTail(k0, c), env, F.Bound(k0 + 3, m)) == F.Here(m)
  {
    var c := if step.None? then Empty else One(F.Evaluate(Lower(step.value, k).0));
    LoopEndDoes(k0, env, m);
    var t := F.Bound(k0 + 3, m);
    assert F.Pass(Cat(One(F.Mark(k0 + 2)), c), env, t) == t;
  }

  lemma {:induction false} ForCorrect(code: seq<F.Inst>, env: Env, s: Stmt, cx: Context, ls: Labels,
                                      fin: Labels, pc: nat, mode: Mode, fuel: nat)
    returns (k: nat)
    requires s.For?
    requires Set(code, pc, LowerOne(s, cx, ls).0, LowerOne(s, cx, ls).1, fin) && WellTypedStmt(s)
    ensures Leads(code, env, F.Place(code, pc, ThreadOf(mode, fin)), k, Exec(s, mode, env, cx.ret, fuel),
                  pc + Size(LowerOne(s, cx, ls).0), cx, fin, fuel)
    ensures mode.Seek? && ContainsOne(s, mode.to) ==> k > 0
    decreases fuel, s, 8
  {
    hide F.UniqueMarks, At, Extends, F.Run, LowerList, ExecList, ExecFor, LowerOne, F.Place, LabelOf, Parts, F.Find, WellTyped;
    var p := Parts(s, cx, ls);
    ForIsSet(code, s, cx, ls, fin, pc);
    var from := F.Place(code, pc, ThreadOf(mode, fin));
    ForFirst(s, cx, ls);
    k := ListCorrect(code, env, s.first, cx, Reserve(ls, 3), fin, pc, mode, fuel);
    if mode.Seek? && !Contains(s.first, mode.to) { ListPassedOver(s.first, mode.to, mode.m, env, cx.ret, fuel); }
    var sig := ExecList(s.first, mode, env, cx.ret, fuel);
    if sig.Done? || sig.Jumping? {
      var next := if sig.Done? then Run(sig.m) else Seek(sig.to, sig.m);
      var j := ForLoop(code, env, s, cx, ls, fin, pc, next, fuel);
      LeadsFrom(code, env, from, k, F.Place(code, pc + Size(p.first), ThreadOf(next, fin)), j,
                ExecFor(s, next, env, cx.ret, fuel), pc + Size(LowerOne(s, cx, ls).0), cx, fin, fuel);
      k := k + j;
    } else {
      Settled(code, env, from, k, sig, pc + Size(p.first), pc + Size(LowerOne(s, cx, ls).0), cx, fin, fuel);
    }
  }

  // A signal that control is elsewhere does not depend on where it is read.
  lemma {:induction false} Settled(code: seq<F.Inst>, env: Env, from: F.State, k: nat, sig: Signal, p: nat,
                                   end: nat, cx: Context, fin: Labels, fuel: nat)
    requires Leads(code, env, from, k, sig, p, cx, fin, fuel) && !sig.Done?
    ensures Leads(code, env, from, k, sig, end, cx, fin, fuel)
  {
  }

  lemma {:induction false} ForFirst(s: Stmt, cx: Context, ls: Labels)
    requires s.For?
    ensures LowerList(s.first, cx, Reserve(ls, 3)) == (Parts(s, cx, ls).first, Parts(s, cx, ls).ls1)
    ensures LowerList(s.body, Inside(cx, ls.next), Parts(s, cx, ls).ls2) == (Parts(s, cx, ls).body, Parts(s, cx, ls).ls3)
    ensures Parts(s, cx, ls).test == if s.test.None? then Empty
                                     else One(F.Branch(Lower(s.test.value, Parts(s, cx, ls).ls1.next).0, ls.next + 3))
    ensures Parts(s, cx, ls).step == if s.step.None? then Empty
                                     else One(F.Evaluate(Lower(s.step.value, Parts(s, cx, ls).ls3.next).0))
  {
  }

  lemma {:induction false} ForLoop(code: seq<F.Inst>, env: Env, s: Stmt, cx: Context, ls: Labels,
                                   fin: Labels, pc: nat, mode: Mode, fuel: nat)
    returns (k: nat)
    requires s.For? && WellTypedStmt(s) && ForSet(code, s, cx, ls, fin, pc)
    ensures Leads(code, env, F.Place(code, pc + Size(Parts(s, cx, ls).first), ThreadOf(mode, fin)), k,
                  ExecFor(s, mode, env, cx.ret, fuel), pc + Size(LowerOne(s, cx, ls).0), cx, fin, fuel)
    ensures mode.Seek? && Contains(s.body, mode.to) ==> k > 0
    decreases fuel, s, 7
  {
    hide F.UniqueMarks, At, Extends, F.Run, LowerList, ForBody, LowerOne, LabelOf, Parts, F.Find, WellTyped, Evaluated, Tested;
    var p := Parts(s, cx, ls);
    ForFirst(s, cx, ls);
    if mode.Seek? {
      k := ForTurn(code, env, s, cx, ls, fin, pc, mode, fuel);
    } else {
      k := ForTaken(code, env, s, cx, ls, fin, pc, mode.m, fuel);
    }
  }

  // The test of a for, and what follows from it.
  lemma {:induction false} ForTaken(code: seq<F.Inst>, env: Env, s: Stmt, cx: Context, ls: Labels,
                                    fin: Labels, pc: nat, m: Mem, fuel: nat)
    returns (k: nat)
    requires s.For? && WellTypedStmt(s) && ForSet(code, s, cx, ls, fin, pc)
    ensures Leads(code, env, F.Place(code, pc + Size(Parts(s, cx, ls).first), F.Here(m)), k,
                  ExecFor(s, Run(m), env, cx.ret, fuel), pc + Size(LowerOne(s, cx, ls).0), cx, fin, fuel)
    decreases fuel, s, 7, 0
  {
    hide F.UniqueMarks, At, Extends, F.Run, LowerList, ForBody, LowerOne, LabelOf, Parts, F.Find, WellTyped, Evaluated, Tested, Lower, Meaning;
    var p := Parts(s, cx, ls);
    ForFirst(s, cx, ls);
    var start, end := pc + Size(p.first), pc + Size(LowerOne(s, cx, ls).0);
    var from := F.Place(code, start, F.Here(m));
    ForHeadDoes(s.test, p.ls1.next, ls.next, env, m);
    k := F.PassRuns(code, env, start, ForHead(ls.next, p.test), F.Here(m));
    var o := if s.test.None? then Means(1, m) else Meaning(s.test.value, env, m);
    if o.Means? && o.value == 0 {
      ForTailOut(s.step, p.ls3.next, ls.next, env, o.mem);
      k := Onward(code, env, from, k, start + 1 + Size(p.test) + Size(p.body), ForTail(ls.next, p.step), F.Bound(ls.next + 3, o.mem));
    } else if o.Means? {
      var i := ForTurn(code, env, s, cx, ls, fin, pc, Run(o.mem), fuel);
      LeadsFrom(code, env, from, k, F.Place(code, start + 1 + Size(p.test), F.Here(o.mem)), i,
                ForBody(s, Run(o.mem), env, cx.ret, fuel), end, cx, fin, Owed(Run(o.mem), fuel));
      k := k + i;
    }
  }

  lemma {:induction false} ForTurn(code: seq<F.Inst>, env: Env, s: Stmt, cx: Context, ls: Labels,
                                   fin: Labels, pc: nat, mode: Mode, fuel: nat)
    returns (k: nat)
    requires s.For? && WellTypedStmt(s) && ForSet(code, s, cx, ls, fin, pc)
    ensures var p := Parts(s, cx, ls);
            Leads(code, env, F.Place(code, pc + Size(p.first) + 1 + Size(p.test), ThreadOf(mode, fin)), k,
                  ForBody(s, mode, env, cx.ret, fuel), pc + Size(LowerOne(s, cx, ls).0), cx, fin, Owed(mode, fuel))
    ensures mode.Seek? && Contains(s.body, mode.to) ==> k > 0
    decreases fuel, s, 6
  {
    hide F.UniqueMarks, At, Extends, F.Run, LowerList, ExecList, NextTurn, LowerOne, LabelOf, Parts, F.Find, WellTyped, F.Place;
    var p := Parts(s, cx, ls);
    ForFirst(s, cx, ls);
    var body, end := pc + Size(p.first) + 1 + Size(p.test), pc + Size(LowerOne(s, cx, ls).0);
    var from := F.Place(code, body, ThreadOf(mode, fin));
    k := ListCorrect(code, env, s.body, Inside(cx, ls.next), p.ls2, fin, body, mode, fuel);
    if mode.Seek? && !Contains(s.body, mode.to) { ListPassedOver(s.body, mode.to, mode.m, env, cx.ret, fuel); }
    var sig := ExecList(s.body, mode, env, cx.ret, fuel);
    if sig.Broke? {
      ForTailOut(s.step, p.ls3.next, ls.next, env, sig.m);
      k := Onward(code, env, from, k, body + Size(p.body), ForTail(ls.next, p.step), F.Bound(ls.next + 3, sig.m));
    } else if sig.Done? || sig.Continued? {
      k := ForNext(code, env, s, cx, ls, fin, pc, from, k, SignalThread(sig, Inside(cx, ls.next), fin), sig.m, fuel, Owed(mode, fuel));
    } else {
      Elsewhere(code, env, from, k, sig, body + Size(p.body), Inside(cx, ls.next), cx, end, fin, fuel, Owed(mode, fuel));
    }
  }

  lemma {:induction false} ForNext(code: seq<F.Inst>, env: Env, s: Stmt, cx: Context, ls: Labels, fin: Labels, pc: nat,
                                   from: F.State, j: nat, t: F.Thread, m: Mem, fuel: nat, owed: nat)
    returns (k: nat)
    requires s.For? && WellTypedStmt(s) && ForSet(code, s, cx, ls, fin, pc)
    requires t == F.Here(m) || t == F.Bound(ls.next + 2, m)
    requires owed <= fuel && (owed == fuel > 0 ==> j > 0)
    requires var p := Parts(s, cx, ls);
             F.Run(code, env, from, j) == F.Place(code, pc + Size(p.first) + 1 + Size(p.test) + Size(p.body), t)
    ensures Leads(code, env, from, k, NextTurn(s, m, env, cx.ret, fuel), pc + Size(LowerOne(s, cx, ls).0), cx, fin, owed)
    ensures k >= j
    decreases fuel, s, 5
  {
    hide F.UniqueMarks, At, Extends, F.Run, LowerList, ExecFor, LowerOne, LabelOf, Parts, F.Find, WellTyped, Lower;
    var p := Parts(s, cx, ls);
    ForFirst(s, cx, ls);
    var tail := ForTail(ls.next, p.step);
    ForTailDoes(s.step, p.ls3.next, ls.next, env, m, t);
    var o := if s.step.None? then Means(0, m) else Effect(s.step.value, env, m);
    k := j;
    if o.Means? {
      k := BackToStart(code, env, from, j, pc + Size(p.first) + 1 + Size(p.test) + Size(p.body), tail, t, ls.next + 1,
                       pc + Size(p.first), o.mem);
      if fuel > 0 {
        k := ForAgain(code, env, s, cx, ls, fin, pc, from, k, o.mem, fuel - 1);
      }
    }
  }

  lemma {:induction false} ForAgain(code: seq<F.Inst>, env: Env, s: Stmt, cx: Context, ls: Labels, fin: Labels, pc: nat,
                                    from: F.State, j: nat, m: Mem, fuel: nat)
    returns (k: nat)
    requires s.For? && WellTypedStmt(s) && ForSet(code, s, cx, ls, fin, pc)
    requires F.Run(code, env, from, j) == F.Place(code, pc + Size(Parts(s, cx, ls).first), F.Here(m))
    ensures k >= j
    ensures var sig, end := ExecFor(s, Run(m), env, cx.ret, fuel), pc + Size(LowerOne(s, cx, ls).0);
            Leads(code, env, from, k, sig, end, cx, fin, fuel) && (j > 0 ==> Leads(code, env, from, k, sig, end, cx, fin, fuel + 1))
    decreases fuel, s, 8
  {
    hide F.UniqueMarks, At, Extends, F.Run, LowerList, ExecFor, LowerOne, LabelOf, Parts, F.Find, WellTyped, WellTypedStmts, ForSet, Leads, F.Place, Lower;
    var i := ForLoop(code, env, s, cx, ls, fin, pc, Run(m), fuel);
    LeadsFrom(code, env, from, j, F.Place(code, pc + Size(Parts(s, cx, ls).first), F.Here(m)), i,
              ExecFor(s, Run(m), env, cx.ret, fuel), pc + Size(LowerOne(s, cx, ls).0), cx, fin, fuel);
    k := j + i;
  }

  // A chosen case is the label the table has for its value, and it is there.
  lemma {:induction false} LookupIsSelect(cases: List<CaseEntry>, ty: Ty, v: int, v': int, ls: Labels,
                                          default: Option<nat>, end: Label)
    requires InRange(ty, v) && U64(v') == U64(v)
    ensures var l := if default.None? then end else LabelOf(ls, ToCase(default.value));
            F.Lookup(Table(cases, ty, ls), v', l)
            == match Select(cases, ty, v, default)
               case Some(id) => LabelOf(ls, ToCase(id))
               case None => end
    decreases cases
  {
    match cases {
      case Nil =>
      case Cons(c, rest) =>
        LookupIsSelect(rest, ty, v, v', ls, default, end);
        if c.value.Some? {
          WrapOfRegister(ty, v);
          WrapInRange(ty, v);
          WrapOfRegister(ty, Wrap(ty, c.value.value));
          WrapInRange(ty, Wrap(ty, c.value.value));
        }
    }
  }

  lemma {:induction false} ExtendedImage(ty: Ty, v: int, v': int)
    requires InRange(ty, v) && U64(v') == U64(v)
    ensures U64(F.Extended(ty, v')) == U64(v)
  {
    WrapCongruent(ty, v', v);
    WrapInRange(ty, v);
  }

  lemma {:induction false} SelectedIsCase(cases: List<CaseEntry>, ty: Ty, v: int, default: Option<nat>)
    ensures var r := Select(cases, ty, v, default);
            r.Some? ==> r == default || exists c :: Holds(cases, c) && c.id == r.value
    decreases cases
  {
    match cases {
      case Nil =>
      case Cons(c, rest) =>
        SelectedIsCase(rest, ty, v, default);
        assert Holds(cases, c);
        var r := Select(rest, ty, v, default);
        if r.Some? && r != default {
          var d :| Holds(rest, d) && d.id == r.value;
          assert Holds(cases, d);
        }
    }
  }

  predicate Holds(cases: List<CaseEntry>, c: CaseEntry) {
    cases.Cons? && (cases.head == c || Holds(cases.tail, c))
  }

  lemma {:induction false} DefaultIsCase(cases: List<CaseEntry>)
    ensures DefaultOf(cases).Some? ==> exists c :: Holds(cases, c) && c.id == DefaultOf(cases).value
    decreases cases
  {
    match cases {
      case Nil =>
      case Cons(c, rest) =>
        DefaultIsCase(rest);
        assert Holds(cases, c);
        if c.value.Some? && DefaultOf(rest).Some? {
          var d :| Holds(rest, d) && d.id == DefaultOf(rest).value;
          assert Holds(cases, d);
        }
    }
  }

  lemma {:induction false} AddedCase(cases: List<CaseEntry>, ls: Labels, c: CaseEntry)
    requires Holds(cases, c)
    ensures ToCase(c.id) in AddCases(cases, ls).of
    decreases cases
  {
    if cases.head == c {
      AddCasesExtends(cases.tail, AddCase(c.id, ls));
    } else {
      AddedCase(cases.tail, AddCase(cases.head.id, ls), c);
    }
  }

  lemma {:induction false} ChoiceAgrees(cases: List<CaseEntry>, ty: Ty, v: int, default: Option<nat>)
    requires InRange(ty, v) && SameChoice(cases, ty, v)
    ensures Select(cases, ty, v, default) == Select(cases, Promoted(ty), v, default)
    decreases cases
  {
    match cases {
      case Nil =>
      case Cons(c, rest) =>
        if c.value.Some? { CaseConverted(ty, c.value.value, v); }
        if !(c.value.Some? && Wrap(ty, c.value.value) == v) { ChoiceAgrees(rest, ty, v, default); }
    }
  }

  // A case that C finds the code finds too; the other way round if it lies in the
  // condition's type.
  lemma {:induction false} CaseConverted(ty: Ty, x: int, v: int)
    requires InRange(ty, v)
    ensures Wrap(Promoted(ty), x) == v <==> Wrap(ty, x) == v && InRange(ty, Wrap(Promoted(ty), x))
  {
    hide Wrap;
    WrapTwice(ty, Promoted(ty), x);
    var w := Wrap(Promoted(ty), x);
    if InRange(ty, w) { WrapInRange(ty, w); }
    WrapInRange(ty, v);
  }

  // The label a chosen case has when the table is made is its label for good.
  lemma {:induction false} SelectedLabel(cases: List<CaseEntry>, ty: Ty, v: int, ls: Labels, fin: Labels)
    requires Extends(AddCases(cases, ls), fin)
    ensures var r := Select(cases, ty, v, DefaultOf(cases));
            r.Some? ==> LabelOf(AddCases(cases, ls), ToCase(r.value)) == LabelOf(fin, ToCase(r.value))
  {
    SelectedIsCase(cases, ty, v, DefaultOf(cases));
    DefaultIsCase(cases);
    var r := Select(cases, ty, v, DefaultOf(cases));
    if r.Some? {
      var c :| Holds(cases, c) && c.id == r.value;
      AddedCase(cases, ls, c);
    }
  }

  datatype SwitchParts = SwitchParts(dispatch: F.Inst, body: FlatCode, ls1: Labels, ls2: Labels, ls3: Labels)

  function PartsOfSwitch(s: Stmt, cx: Context, ls: Labels): SwitchParts
    requires s.Switch?
  {
    var end := ls.next + 1;
    var cases := Cases(s.body);
    var ls1 := AddCases(cases, Reserve(ls, 1));
    var (e, k) := Lower(s.cond, ls1.next);
    var default := if DefaultOf(cases).None? then end else LabelOf(ls1, ToCase(DefaultOf(cases).value));
    var ls2 := ls1.(next := k, ok := ls1.ok && DistinctCases(cases));
    var (c, ls3) := LowerList(s.body, cx.(brk := end), ls2);
    SwitchParts(F.Dispatch(e, Table(cases, TypeOfNode(s.cond), ls1), default), c, ls1, ls2, ls3)
  }

  ghost predicate SwitchSet(code: seq<F.Inst>, s: Stmt, cx: Context, ls: Labels, fin: Labels, pc: nat)
    requires s.Switch?
  {
    var p := PartsOfSwitch(s, cx, ls);
    && At(code, pc, One(p.dispatch)) && Set(code, pc + 1, p.body, p.ls3, fin)
    && At(code, pc + 1 + Size(p.body), One(F.Mark(ls.next + 1)))
    && Extends(p.ls1, fin)
    && Size(LowerOne(s, cx, ls).0) == 1 + Size(p.body) + 1
    && LowerList(s.body, cx.(brk := ls.next + 1), p.ls2) == (p.body, p.ls3)
  }

  lemma {:induction false} SwitchIsSet(code: seq<F.Inst>, s: Stmt, cx: Context, ls: Labels, fin: Labels, pc: nat)
    requires s.Switch? && Set(code, pc, LowerOne(s, cx, ls).0, LowerOne(s, cx, ls).1, fin)
    ensures SwitchSet(code, s, cx, ls, fin, pc)
  {
    hide F.UniqueMarks, At, Extends, LowerList, AddCases, Table, DistinctCases, Cases;
    var p := PartsOfSwitch(s, cx, ls);
    NodeLabelsGrow(s.cond, p.ls1.next);
    ExtendsNext(p.ls1, p.ls2);
    ListExtends(s.body, cx.(brk := ls.next + 1), p.ls2);
    ExtendsThen(p.ls1, p.ls2, p.ls3);
    ExtendsThen(p.ls1, p.ls3, fin);
    var rest := Cat(p.body, One(F.Mark(ls.next + 1)));
    AtCat(code, pc, One(p.dispatch), rest);
    AtCat(code, pc + 1, p.body, One(F.Mark(ls.next + 1)));
    assert Size(rest) == Size(p.body) + 1;
  }

  lemma {:induction false} DispatchDoes(s: Stmt, cx: Context, ls: Labels, fin: Labels, env: Env, m: Mem)
    requires s.Switch? && WellTyped(s.cond) && Extends(PartsOfSwitch(s, cx, ls).ls1, fin)
    ensures var t := F.Perform(PartsOfSwitch(s, cx, ls).dispatch, env, m);
            match Meaning(s.cond, env, m)
            case Means(v, m1) =>
              SameChoice(Cases(s.body), TypeOfNode(s.cond), v) ==>
                t == F.Bound(match Select(Cases(s.body), Promoted(TypeOfNode(s.cond)), v, DefaultOf(Cases(s.body)))
                             case Some(id) => LabelOf(fin, ToCase(id))
                             case None => ls.next + 1, m1)
            case _ => true
  {
    hide Extends, LowerList, AddCases, Table, DistinctCases, Cases, Select, LabelOf, SameChoice;
    var p, cases := PartsOfSwitch(s, cx, ls), Cases(s.body);
    Correct(s.cond, p.ls1.next, env, m);
    var o := Meaning(s.cond, env, m);
    if o.Means? {
      var v' := Eval(Lower(s.cond, p.ls1.next).0, env, m).value;
      LoweredType(s.cond, p.ls1.next);
      ExtendedImage(TypeOfNode(s.cond), o.value, v');
      LookupIsSelect(cases, TypeOfNode(s.cond), o.value, F.Extended(TypeOfNode(s.cond), v'), p.ls1, DefaultOf(cases), ls.next + 1);
      SelectedLabel(cases, TypeOfNode(s.cond), o.value, Reserve(ls, 1), fin);
      if SameChoice(cases, TypeOfNode(s.cond), o.value) { ChoiceAgrees(cases, TypeOfNode(s.cond), o.value, DefaultOf(cases)); }
    }
  }

  lemma {:induction false} SwitchCorrect(code: seq<F.Inst>, env: Env, s: Stmt, cx: Context, ls: Labels,
                                         fin: Labels, pc: nat, mode: Mode, fuel: nat)
    returns (k: nat)
    requires s.Switch?
    requires Set(code, pc, LowerOne(s, cx, ls).0, LowerOne(s, cx, ls).1, fin) && WellTypedStmt(s)
    ensures Leads(code, env, F.Place(code, pc, ThreadOf(mode, fin)), k, Exec(s, mode, env, cx.ret, fuel),
                  pc + Size(LowerOne(s, cx, ls).0), cx, fin, fuel)
    ensures mode.Seek? && ContainsOne(s, mode.to) ==> k > 0
    decreases fuel, s, 8
  {
    hide F.UniqueMarks, At, Extends, F.Run, LowerList, ExecList, LowerOne, LabelOf, PartsOfSwitch, F.Find, WellTyped, Cases, Select, SameChoice;
    var p := PartsOfSwitch(s, cx, ls);
    SwitchIsSet(code, s, cx, ls, fin, pc);
    if mode.Seek? {
      k := SwitchBody(code, env, s, cx, ls, fin, pc, mode, fuel);
      return;
    }
    DispatchDoes(s, cx, ls, fin, env, mode.m);
    var from := F.Place(code, pc, F.Here(mode.m));
    k := F.PassRuns(code, env, pc, One(p.dispatch), F.Here(mode.m));
    var o := Meaning(s.cond, env, mode.m);
    if o.Means? && SameChoice(Cases(s.body), TypeOfNode(s.cond), o.value) {
      var chosen := Select(Cases(s.body), Promoted(TypeOfNode(s.cond)), o.value, DefaultOf(Cases(s.body)));
      if chosen.None? {
        k := Onward(code, env, from, k, pc + 1 + Size(p.body), One(F.Mark(ls.next + 1)), F.Bound(ls.next + 1, o.mem));
      } else {
        var next := Seek(ToCase(chosen.value), o.mem);
        var i := SwitchBody(code, env, s, cx, ls, fin, pc, next, fuel);
        LeadsFrom(code, env, from, k, F.Place(code, pc + 1, ThreadOf(next, fin)), i,
                  EndSwitch(ExecList(s.body, next, env, cx.ret, fuel)), pc + Size(LowerOne(s, cx, ls).0), cx, fin, fuel);
        k := k + i;
      }
    }
  }

  lemma {:induction false} SwitchBody(code: seq<F.Inst>, env: Env, s: Stmt, cx: Context, ls: Labels,
                                      fin: Labels, pc: nat, mode: Mode, fuel: nat)
    returns (k: nat)
    requires s.Switch? && WellTypedStmt(s) && mode.Seek? && SwitchSet(code, s, cx, ls, fin, pc)
    ensures Leads(code, env, F.Place(code, pc + 1, ThreadOf(mode, fin)), k,
                  EndSwitch(ExecList(s.body, mode, env, cx.ret, fuel)), pc + Size(LowerOne(s, cx, ls).0), cx, fin, fuel)
    ensures Contains(s.body, mode.to) ==> k > 0
    decreases fuel, s, 7
  {
    hide F.UniqueMarks, At, Extends, F.Run, LowerList, ExecList, LowerOne, LabelOf, PartsOfSwitch, F.Find, WellTyped, Cases, Select, SameChoice;
    var p := PartsOfSwitch(s, cx, ls);
    var from := F.Place(code, pc + 1, ThreadOf(mode, fin));
    var cx1, end := cx.(brk := ls.next + 1), pc + 1 + Size(p.body);
    k := ListCorrect(code, env, s.body, cx1, p.ls2, fin, pc + 1, mode, fuel);
    var sig := ExecList(s.body, mode, env, cx.ret, fuel);
    if sig.Broke? {
      k := Onward(code, env, from, k, end, One(F.Mark(ls.next + 1)), F.Bound(ls.next + 1, sig.m));
    } else if !sig.OutOfFuel? && !sig.Unspecified? {
      k := EndMark(code, env, from, k, sig, ls.next + 1, end, cx1, fin, fuel);
    }
  }
}
