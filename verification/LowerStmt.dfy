// Statements as a flat list of instructions, with labels handed out in the
// order the lowering asks for them.
module LowerStmt {
  import opened Words
  import opened Lists
  import opened Ropes
  import opened Options
  import opened Ir
  import opened Ast
  import opened LowerNode
  import opened Statements
  import F = FlatIr

  type FlatCode = Rope<F.Inst>

  // The last label handed out, the labels of cases and of names met so far, and
  // whether any error was reported.
  datatype Labels = Labels(next: nat, of: map<Target, Label>, ok: bool)

  // Where break and continue go, and the type the function returns.
  datatype Context = Context(brk: Label, cont: Label, ret: Ty)

  function LabelOf(ls: Labels, t: Target): Label {
    if t in ls.of then ls.of[t] else 0
  }

  function Reserve(ls: Labels, n: nat): Labels { ls.(next := ls.next + n) }

  // A named label is created where it is first mentioned.
  function Mention(ls: Labels, name: string): Labels {
    if ToName(name) in ls.of then ls
    else ls.(next := ls.next + 1, of := ls.of[ToName(name) := ls.next + 1])
  }

  function AddCases(cases: List<CaseEntry>, ls: Labels): Labels
    decreases cases
  {
    match cases
    case Nil => ls
    case Cons(c, rest) =>
      AddCases(rest, AddCase(c.id, ls))
  }

  // Every case node is met once, so it has no label yet.
  function AddCase(id: nat, ls: Labels): Labels {
    if ToCase(id) in ls.of then ls.(next := ls.next + 1, ok := false)
    else ls.(next := ls.next + 1, of := ls.of[ToCase(id) := ls.next + 1])
  }

  predicate HasValue(cases: List<CaseEntry>, value: int) {
    cases.Cons? && (cases.head.value == Some(value) || HasValue(cases.tail, value))
  }

  // No value twice, and at most one default.
  predicate DistinctCases(cases: List<CaseEntry>) {
    match cases
    case Nil => true
    case Cons(c, rest) =>
      DistinctCases(rest) && (if c.value.None? then DefaultOf(rest).None? else !HasValue(rest, c.value.value))
  }

  function Table(cases: List<CaseEntry>, ty: Ty, ls: Labels): List<F.CaseTarget> {
    match cases
    case Nil => Nil
    case Cons(c, rest) =>
      if c.value.None? then Table(rest, ty, ls)
      else Cons(F.CaseTarget(Wrap(ty, c.value.value), LabelOf(ls, ToCase(c.id))), Table(rest, ty, ls))
  }

  function Converted(n: Node, e: Expr, ret: Ty): Expr {
    if TypeOfNode(n).width != ret.width then Cast(ret, e) else e
  }

  function LowerList(ss: List<Stmt>, cx: Context, ls: Labels): (r: (FlatCode, Labels))
    decreases ss
  {
    match ss
    case Nil => (Empty, ls)
    case Cons(s, rest) =>
      var (c1, ls1) := LowerOne(s, cx, ls);
      var (c2, ls2) := LowerList(rest, cx, ls1);
      (Cat(c1, c2), ls2)
  }

  function Evaluated(n: Node, ls: Labels): (r: (FlatCode, Labels)) {
    var (e, k) := Lower(n, ls.next);
    (One(F.Evaluate(e)), ls.(next := k))
  }

  function Tested(n: Node, otherwise: Label, ls: Labels): (r: (FlatCode, Labels)) {
    var (e, k) := Lower(n, ls.next);
    (One(F.Branch(e, otherwise)), ls.(next := k))
  }

  function LowerOne(s: Stmt, cx: Context, ls: Labels): (r: (FlatCode, Labels))
    decreases s
  {
    match s
    case Block(body) => LowerList(body, cx, ls)
    case Null => (Empty, ls)
    case Declare(ty, sym, init) =>
      if init.None? then (Empty, ls) else Evaluated(Assign(ty, Variable(sym), init.value), ls)
    case Expression(e) => Evaluated(e, ls)
    case If(cond, yes, no) =>
      var k := ls.next;
      var (test, ls1) := Tested(cond, if no.None? then k + 3 else k + 2, Reserve(ls, 3));
      var (c1, ls2) := LowerList(yes, cx, ls1);
      if no.None? then (Cat(Cat(test, One(F.Mark(k + 1))), Cat(c1, One(F.Mark(k + 3)))), ls2)
      else
        var (c2, ls3) := LowerList(no.value, cx, ls2);
        (Cat(Cat(test, One(F.Mark(k + 1))),
             Cat(Cat(c1, Cat(One(F.Goto(k + 3)), One(F.Mark(k + 2)))), Cat(c2, One(F.Mark(k + 3))))), ls3)
    case While(cond, body) =>
      var k := ls.next;
      var (test, ls1) := Tested(cond, k + 2, Reserve(ls, 2));
      var (c, ls2) := LowerList(body, cx.(brk := k + 2, cont := k + 1), ls1);
      (Cat(Cat(One(F.Mark(k + 1)), test), Cat(c, Cat(One(F.Goto(k + 1)), One(F.Mark(k + 2))))), ls2)
    case DoWhile(body, cond) =>
      var k := ls.next;
      var (c, ls1) := LowerList(body, cx.(brk := k + 3, cont := k + 2), Reserve(ls, 3));
      var (test, ls2) := Tested(cond, k + 3, ls1);
      (Cat(Cat(One(F.Mark(k + 1)), c),
           Cat(Cat(One(F.Mark(k + 2)), test), Cat(One(F.Goto(k + 1)), One(F.Mark(k + 3))))), ls2)
    case For(first, test, step, body) =>
      var k := ls.next;
      var (c0, ls1) := LowerList(first, cx, Reserve(ls, 3));
      var (c1, ls2) := if test.None? then (Empty, ls1) else Tested(test.value, k + 3, ls1);
      var (c2, ls3) := LowerList(body, cx.(brk := k + 3, cont := k + 2), ls2);
      var (c3, ls4) := if step.None? then (Empty, ls3) else Evaluated(step.value, ls3);
      (Cat(c0, Cat(Cat(One(F.Mark(k + 1)), c1),
                   Cat(c2, Cat(Cat(One(F.Mark(k + 2)), c3), Cat(One(F.Goto(k + 1)), One(F.Mark(k + 3))))))), ls4)
    case Switch(cond, body) =>
      var end := ls.next + 1;
      var cases := Cases(body);
      var ls1 := AddCases(cases, Reserve(ls, 1));
      var (e, k) := Lower(cond, ls1.next);
      var default := if DefaultOf(cases).None? then end else LabelOf(ls1, ToCase(DefaultOf(cases).value));
      var (c, ls2) := LowerList(body, cx.(brk := end), ls1.(next := k, ok := ls1.ok && DistinctCases(cases)));
      (Cat(One(F.Dispatch(e, Table(cases, TypeOfNode(cond), ls1), default)), Cat(c, One(F.Mark(end)))), ls2)
    case Case(id, _) => if ToCase(id) in ls.of then (One(F.Mark(ls.of[ToCase(id)])), ls) else (Empty, ls.(ok := false))
    case Default(id) => if ToCase(id) in ls.of then (One(F.Mark(ls.of[ToCase(id)])), ls) else (Empty, ls.(ok := false))
    case Break => (One(F.Goto(cx.brk)), ls)
    case Continue => (One(F.Goto(cx.cont)), ls)
    case Return(result) =>
      if result.None? then (One(F.Return(None, cx.ret)), ls)
      else
        var (e, k) := Lower(result.value, ls.next);
        (One(F.Return(Some(Converted(result.value, e, cx.ret)), cx.ret)), ls.(next := k))
    case Label(name) =>
      var ls1 := Mention(ls, name);
      (One(F.Mark(LabelOf(ls1, ToName(name)))), ls1)
    case Goto(name) =>
      var ls1 := Mention(ls, name);
      (One(F.Goto(LabelOf(ls1, ToName(name)))), ls1)
  }

  // Labels once given to a target stay, and later ones are new.
  ghost predicate Extends(a: Labels, b: Labels) {
    && a.next <= b.next
    && (b.ok ==> a.ok)
    && (forall t :: t in a.of ==> t in b.of && b.of[t] == a.of[t])
    && (forall t :: t in b.of && t !in a.of ==> a.next < b.of[t] <= b.next)
  }

  // No two targets share a label.
  ghost predicate Valid(ls: Labels) {
    && (forall t :: t in ls.of ==> 0 < ls.of[t] <= ls.next)
    && (forall t, u :: t in ls.of && u in ls.of && ls.of[t] == ls.of[u] ==> t == u)
  }

  lemma {:induction false} ExtendsThen(a: Labels, b: Labels, c: Labels)
    requires Extends(a, b) && Extends(b, c)
    ensures Extends(a, c)
  {
    forall t | t in c.of && t !in a.of ensures a.next < c.of[t] <= c.next {
      if t in b.of { assert c.of[t] == b.of[t]; }
    }
  }

  // Moving the counter on.
  lemma {:induction false} ExtendsNext(a: Labels, b: Labels)
    requires b == a.(next := b.next, ok := b.ok) && a.next <= b.next && (b.ok ==> a.ok)
    ensures Extends(a, b) && (Valid(a) ==> Valid(b))
  {
  }

  lemma {:induction false} NodeLabelsGrow(n: Node, k: nat)
    ensures k <= Lower(n, k).1
    decreases n, 1
  {
    match n {
      case Number(_, _) =>
      case Name(_, _) =>
      case Read(_, place) => PlaceLabelsGrow(place, k);
      case AddressOf(place) => PlaceLabelsGrow(place, k);
      case Decay(place) => PlaceLabelsGrow(place, k);
      case StepBy(_, _, _, _, place) => PlaceLabelsGrow(place, k);
      case Assign(_, place, right) => PlaceLabelsGrow(place, k); NodeLabelsGrow(right, LowerPlace(place, k).1);
      case Update(_, _, _, place, right) => PlaceLabelsGrow(place, k); NodeLabelsGrow(right, LowerPlace(place, k).1);
      case UpdatePointer(_, _, place, right) => PlaceLabelsGrow(place, k); NodeLabelsGrow(right, LowerPlace(place, k).1);
      case Arith(_, _, _, _) => PairLabelsGrow(n, k);
      case Advance(_, _, _, _) => PairLabelsGrow(n, k);
      case Distance(_, _, _) => PairLabelsGrow(n, k);
      case Test(_, _, _) => PairLabelsGrow(n, k);
      case AndOr(_, _, _) => PairLabelsGrow(n, k);
      case Sequence(_, _) => PairLabelsGrow(n, k);
      case Sign(_, _, a) => NodeLabelsGrow(a, k);
      case Complement(_, a) => NodeLabelsGrow(a, k);
      case Not(a) => NodeLabelsGrow(a, k);
      case Convert(_, a) => NodeLabelsGrow(a, k);
      case Choose(_, a, b, c) =>
        NodeLabelsGrow(a, k + 3);
        NodeLabelsGrow(b, Lower(a, k + 3).1);
        NodeLabelsGrow(c, Lower(b, Lower(a, k + 3).1).1);
      case Apply(_, target, args) =>
        if target.Through? { NodeLabelsGrow(target.pointer, k); }
        ArgsLabelsGrow(args, LowerFunction(target, k).1);
    }
  }

  lemma {:induction false} PairLabelsGrow(n: Node, k: nat)
    requires n.Arith? || n.Advance? || n.Distance? || n.Test? || n.AndOr? || n.Sequence?
    ensures k <= Lower(n, k).1
    decreases n, 0
  {
    match n {
      case Arith(_, _, a, b) => NodeLabelsGrow(a, k); NodeLabelsGrow(b, Lower(a, k).1);
      case Advance(_, a, b, _) => NodeLabelsGrow(a, k); NodeLabelsGrow(b, Lower(a, k).1);
      case Distance(a, b, _) => NodeLabelsGrow(a, k); NodeLabelsGrow(b, Lower(a, k).1);
      case Test(_, a, b) => NodeLabelsGrow(a, k); NodeLabelsGrow(b, Lower(a, k).1);
      case AndOr(_, a, b) => NodeLabelsGrow(a, k); NodeLabelsGrow(b, Lower(a, k).1);
      case Sequence(a, b) => NodeLabelsGrow(a, k); NodeLabelsGrow(b, Lower(a, k).1);
    }
  }

  lemma {:induction false} PlaceLabelsGrow(p: Place, k: nat)
    ensures k <= LowerPlace(p, k).1
    decreases p
  {
    match p {
      case Variable(_) =>
      case Pointee(pointer) => NodeLabelsGrow(pointer, k);
      case Indexed(pointer, index, _) => NodeLabelsGrow(pointer, k); NodeLabelsGrow(index, Lower(pointer, k).1);
      case Element(whole, index, _) => PlaceLabelsGrow(whole, k); NodeLabelsGrow(index, LowerPlace(whole, k).1);
      case Field(record, _) => PlaceLabelsGrow(record, k);
      case Arrow(pointer, _) => NodeLabelsGrow(pointer, k);
    }
  }

  lemma {:induction false} ArgsLabelsGrow(args: List<Node>, k: nat)
    ensures k <= LowerArgs(args, k).1
    decreases args
  {
    match args
    case Nil =>
    case Cons(head, tail) => NodeLabelsGrow(head, k); ArgsLabelsGrow(tail, Lower(head, k).1);
  }

  lemma {:induction false} AddCaseExtends(id: nat, ls: Labels)
    ensures Extends(ls, AddCase(id, ls)) && (Valid(ls) ==> Valid(AddCase(id, ls)))
  {
  }

  lemma {:induction false} AddCasesExtends(cases: List<CaseEntry>, ls: Labels)
    ensures Extends(ls, AddCases(cases, ls)) && (Valid(ls) ==> Valid(AddCases(cases, ls)))
    decreases cases
  {
    match cases {
      case Nil =>
      case Cons(c, rest) =>
        var ls1 := AddCase(c.id, ls);
        AddCaseExtends(c.id, ls);
        AddCasesExtends(rest, ls1);
        ExtendsThen(ls, ls1, AddCases(rest, ls1));
    }
  }

  lemma {:induction false} ListExtends(ss: List<Stmt>, cx: Context, ls: Labels)
    ensures Extends(ls, LowerList(ss, cx, ls).1) && (Valid(ls) ==> Valid(LowerList(ss, cx, ls).1))
    decreases ss, 0
  {
    match ss {
      case Nil =>
      case Cons(s, rest) =>
        OneExtends(s, cx, ls);
        var ls1 := LowerOne(s, cx, ls).1;
        ListExtends(rest, cx, ls1);
        ExtendsThen(ls, ls1, LowerList(rest, cx, ls1).1);
    }
  }

  // Moving the counter on, a list, and moving it on again.
  lemma {:induction false} PartExtends(n: nat, ss: List<Stmt>, cx: Context, ls: Labels, m: nat)
    requires ls.next <= n && LowerList(ss, cx, ls.(next := n)).1.next <= m
    ensures var ls1 := LowerList(ss, cx, ls.(next := n)).1;
            Extends(ls, ls1.(next := m)) && (Valid(ls) ==> Valid(ls1.(next := m)))
    decreases ss, 1
  {
    var ls0 := ls.(next := n);
    var ls1 := LowerList(ss, cx, ls0).1;
    ExtendsNext(ls, ls0);
    ListExtends(ss, cx, ls0);
    ExtendsNext(ls1, ls1.(next := m));
    ExtendsThen(ls, ls0, ls1);
    ExtendsThen(ls, ls1, ls1.(next := m));
  }

  lemma {:induction false} OneExtends(s: Stmt, cx: Context, ls: Labels)
    ensures Extends(ls, LowerOne(s, cx, ls).1) && (Valid(ls) ==> Valid(LowerOne(s, cx, ls).1))
    decreases s, 1
  {
    hide LowerOne, Extends, Valid;
    if s.If? { IfExtends(s, cx, ls); }
    else if s.While? || s.DoWhile? { LoopExtends(s, cx, ls); }
    else if s.For? { ForExtends(s, cx, ls); }
    else if s.Switch? { SwitchExtends(s, cx, ls); }
    else { SimpleExtends(s, cx, ls); }
  }

  lemma {:induction false} LoopExtends(s: Stmt, cx: Context, ls: Labels)
    requires s.While? || s.DoWhile?
    ensures Extends(ls, LowerOne(s, cx, ls).1) && (Valid(ls) ==> Valid(LowerOne(s, cx, ls).1))
    decreases s, 0
  {
    hide Lower, LowerList, Extends, Valid;
    if s.While? {
      NodeLabelsGrow(s.cond, ls.next + 2);
      PartExtends(Lower(s.cond, ls.next + 2).1, s.body, cx.(brk := ls.next + 2, cont := ls.next + 1), ls, LowerOne(s, cx, ls).1.next);
    } else {
      var cx1 := cx.(brk := ls.next + 3, cont := ls.next + 2);
      NodeLabelsGrow(s.cond, LowerList(s.body, cx1, Reserve(ls, 3)).1.next);
      PartExtends(ls.next + 3, s.body, cx1, ls, LowerOne(s, cx, ls).1.next);
    }
  }

  lemma {:induction false} SimpleExtends(s: Stmt, cx: Context, ls: Labels)
    requires !s.If? && !s.While? && !s.DoWhile? && !s.For? && !s.Switch?
    ensures Extends(ls, LowerOne(s, cx, ls).1) && (Valid(ls) ==> Valid(LowerOne(s, cx, ls).1))
    decreases s, 0, 1
  {
    hide LowerOne, Extends, Valid;
    if s.Block? { BlockExtends(s, cx, ls); }
    else if s.Declare? || s.Expression? || s.Return? { ValueExtends(s, cx, ls); }
    else { MarkExtends(s, cx, ls); }
  }

  lemma {:induction false} BlockExtends(s: Stmt, cx: Context, ls: Labels)
    requires s.Block?
    ensures Extends(ls, LowerOne(s, cx, ls).1) && (Valid(ls) ==> Valid(LowerOne(s, cx, ls).1))
    decreases s, 0, 0
  {
    hide LowerList, Extends, Valid;
    ListExtends(s.body, cx, ls);
  }

  lemma {:induction false} ValueExtends(s: Stmt, cx: Context, ls: Labels)
    requires s.Declare? || s.Expression? || s.Return?
    ensures Extends(ls, LowerOne(s, cx, ls).1) && (Valid(ls) ==> Valid(LowerOne(s, cx, ls).1))
  {
    hide Lower, Extends, Valid;
    var n := if s.Declare? && s.init.Some? then Assign(s.ty, Variable(s.sym), s.init.value)
             else if s.Expression? then s.e
             else if s.Return? && s.result.Some? then s.result.value else Number(INT, 0);
    NodeLabelsGrow(n, ls.next);
    ExtendsNext(ls, LowerOne(s, cx, ls).1);
  }

  lemma {:induction false} MarkExtends(s: Stmt, cx: Context, ls: Labels)
    requires s.Null? || s.Case? || s.Default? || s.Break? || s.Continue? || s.Label? || s.Goto?
    ensures Extends(ls, LowerOne(s, cx, ls).1) && (Valid(ls) ==> Valid(LowerOne(s, cx, ls).1))
  {
    hide Lower, LowerList, LabelOf, Extends, Valid, Mention;
    if s.Label? || s.Goto? {
      MentionExtends(ls, s.name);
    } else {
      ExtendsNext(ls, LowerOne(s, cx, ls).1);
    }
  }

  lemma {:induction false} MentionExtends(ls: Labels, name: string)
    ensures Extends(ls, Mention(ls, name)) && (Valid(ls) ==> Valid(Mention(ls, name)))
  {
  }

  lemma {:induction false} IfExtends(s: Stmt, cx: Context, ls: Labels)
    requires s.If?
    ensures Extends(ls, LowerOne(s, cx, ls).1) && (Valid(ls) ==> Valid(LowerOne(s, cx, ls).1))
    decreases s, 0
  {
    hide Extends, Valid;
    NodeLabelsGrow(s.cond, ls.next + 3);
    var n := Lower(s.cond, ls.next + 3).1;
    var ls2 := LowerList(s.yes, cx, ls.(next := n)).1;
    PartExtends(n, s.yes, cx, ls, ls2.next);
    if s.no.Some? {
      ListExtends(s.no.value, cx, ls2);
      ExtendsThen(ls, ls2, LowerList(s.no.value, cx, ls2).1);
    }
  }

  lemma {:induction false} ForExtends(s: Stmt, cx: Context, ls: Labels)
    requires s.For?
    ensures Extends(ls, LowerOne(s, cx, ls).1) && (Valid(ls) ==> Valid(LowerOne(s, cx, ls).1))
    decreases s, 0
  {
    hide Extends, Valid;
    var cx1 := cx.(brk := ls.next + 3, cont := ls.next + 2);
    var ls1 := LowerList(s.first, cx, Reserve(ls, 3)).1;
    PartExtends(ls.next + 3, s.first, cx, ls, ls1.next);
    if s.test.Some? { NodeLabelsGrow(s.test.value, ls1.next); }
    var n := if s.test.None? then ls1.next else Lower(s.test.value, ls1.next).1;
    var ls3 := LowerList(s.body, cx1, ls1.(next := n)).1;
    if s.step.Some? { NodeLabelsGrow(s.step.value, ls3.next); }
    var m := if s.step.None? then ls3.next else Lower(s.step.value, ls3.next).1;
    PartExtends(n, s.body, cx1, ls1, m);
    ExtendsThen(ls, ls1, ls3.(next := m));
  }

  lemma {:induction false} SwitchExtends(s: Stmt, cx: Context, ls: Labels)
    requires s.Switch?
    ensures Extends(ls, LowerOne(s, cx, ls).1) && (Valid(ls) ==> Valid(LowerOne(s, cx, ls).1))
    decreases s, 0
  {
    hide Extends, Valid, Lower, Cases, AddCases, LowerList, Table, DistinctCases;
    var cases := Cases(s.body);
    var ls1 := AddCases(cases, Reserve(ls, 1));
    ExtendsNext(ls, Reserve(ls, 1));
    AddCasesExtends(cases, Reserve(ls, 1));
    ExtendsThen(ls, Reserve(ls, 1), ls1);
    NodeLabelsGrow(s.cond, ls1.next);
    var ls2 := ls1.(next := Lower(s.cond, ls1.next).1, ok := ls1.ok && DistinctCases(cases));
    ExtendsNext(ls1, ls2);
    ExtendsThen(ls, ls1, ls2);
    ListExtends(s.body, cx.(brk := ls.next + 1), ls2);
    ExtendsThen(ls, ls2, LowerOne(s, cx, ls).1);
  }
}
