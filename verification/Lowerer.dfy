// The lowering as it works: one counter hands out labels, the targets of break
// and continue are saved and restored around loops, and lists grow at their end.
// What it makes is what the LowerNode and LowerStmt functions give.
module Lowerer {
  import opened Words
  import opened Lists
  import opened Ropes
  import opened Options
  import opened Ir
  import opened Ast
  import opened LowerNode
  import opened Statements
  import opened LowerStmt
  import opened StmtCorrect
  import opened StmtCounts
  import F = FlatIr

  const LABEL_LIMIT := 0xffff_ffff

  lemma {:induction false} FlatBoth(a: FlatCode, b: FlatCode)
    ensures Flat(Cat(a, b)) == Flat(a) + Flat(b)
  {
  }

  class Lowerer {
    const ret: Ty
    var nextLabel: nat
    var breakLabel: Label
    var continueLabel: Label
    var labels: map<Target, Label>
    var failed: bool

    constructor (ret: Ty)
      ensures this.ret == ret && Now() == Labels(0, map[], true) && breakLabel == 0 && continueLabel == 0
    {
      this.ret := ret;
      nextLabel, breakLabel, continueLabel, labels, failed := 0, 0, 0, map[], false;
    }

    function Now(): Labels
      reads this
    {
      Labels(nextLabel, labels, !failed)
    }

    function Scope(): Context
      reads this
    {
      Context(breakLabel, continueLabel, ret)
    }

    // The counter is where the specification says, unless labels have run out; an
    // error once reported stays.
    ghost predicate Follows(was: bool, now: Labels)
      reads this
    {
      && nextLabel <= LABEL_LIMIT
      && (was ==> failed)
      && (if now.next <= LABEL_LIMIT then Now() == now else failed)
    }

    method NewLabel() returns (l: Label)
      requires nextLabel <= LABEL_LIMIT
      modifies this`nextLabel, this`failed
      ensures Follows(old(failed), old(Now()).(next := old(nextLabel) + 1))
      ensures old(nextLabel) < LABEL_LIMIT ==> l == old(nextLabel) + 1
    {
      if nextLabel >= LABEL_LIMIT {
        failed := true;
        return 0;
      }
      nextLabel := nextLabel + 1;
      l := nextLabel;
    }

    method LowerExpr(n: Node) returns (e: Expr)
      requires nextLabel <= LABEL_LIMIT
      modifies this`nextLabel, this`failed
      ensures var k := Lower(n, old(nextLabel)).1; Follows(old(failed), old(Now()).(next := k))
      ensures Lower(n, old(nextLabel)).1 <= LABEL_LIMIT ==> e == Lower(n, old(nextLabel)).0
      decreases n, 1
    {
      match n {
        case Number(ty, value) => e := Const(ty, U64(value));
        case Name(ty, sym) => e := LoadSym(ty, sym);
        case Read(ty, place) => var p := LowerAddress(place); e := Load(ty, p);
        case AddressOf(place) => var p := LowerAddress(place); e := AddrOf(p);
        case Decay(place) => var p := LowerAddress(place); e := Cast(ADDRESS, p);
        case StepBy(ty, down, post, size, place) =>
          var p := LowerAddress(place);
          e := Increment(ty, Step(down, size), post, p);
        case Sign(ty, _, a) => var x := LowerExpr(a); e := Unary(ty, Neg, x);
        case Complement(ty, a) => var x := LowerExpr(a); e := Unary(ty, BitNot, x);
        case Not(a) => var x := LowerExpr(a); e := LogicalNot(x);
        case Convert(ty, a) => var x := LowerExpr(a); e := Cast(ty, x);
        case AndOr(_, _, _) => e := LowerLogical(n);
        case Choose(_, _, _, _) => e := LowerConditional(n);
        case Apply(_, _, _) => e := LowerCall(n);
        case _ => e := LowerOperands(n);
      }
    }

    method LowerOperands(n: Node) returns (e: Expr)
      requires nextLabel <= LABEL_LIMIT
      requires n.Assign? || n.Update? || n.UpdatePointer? || n.Arith? || n.Advance? || n.Distance? || n.Test? || n.Sequence?
      modifies this`nextLabel, this`failed
      ensures var k := Lower(n, old(nextLabel)).1; Follows(old(failed), old(Now()).(next := k))
      ensures Lower(n, old(nextLabel)).1 <= LABEL_LIMIT ==> e == Lower(n, old(nextLabel)).0
      decreases n, 0
    {
      hide LABEL_LIMIT;
      ghost var k := nextLabel;
      match n {
        case Assign(ty, place, right) =>
          SecondGrows(LowerPlace(place, k).1, right);
          var p := LowerAddress(place);
          var v := LowerExpr(right);
          e := Store(ty, p, v);
        case Update(ty, op, _, place, right) =>
          SecondGrows(LowerPlace(place, k).1, right);
          var p := LowerAddress(place);
          var v := LowerExpr(right);
          e := Compound(ty, op, p, v);
        case UpdatePointer(op, size, place, right) =>
          SecondGrows(LowerPlace(place, k).1, right);
          var p := LowerAddress(place);
          var v := LowerExpr(right);
          e := Compound(ADDRESS, op, p, Scaled(v, size));
        case Arith(ty, op, a, b) =>
          SecondGrows(Lower(a, k).1, b);
          var x := LowerExpr(a);
          var y := LowerExpr(b);
          e := Binary(ty, op, x, y);
        case Advance(op, pointer, index, size) =>
          SecondGrows(Lower(pointer, k).1, index);
          var x := LowerExpr(pointer);
          var y := LowerExpr(index);
          e := Binary(ADDRESS, op, x, Scaled(y, size));
        case Distance(a, b, size) =>
          SecondGrows(Lower(a, k).1, b);
          var x := LowerExpr(a);
          var y := LowerExpr(b);
          e := Binary(LONG, Div, Binary(LONG, Sub, x, y), Const(LONG, size));
        case Test(cmp, a, b) =>
          SecondGrows(Lower(a, k).1, b);
          var x := LowerExpr(a);
          var y := LowerExpr(b);
          e := Compare(cmp, x, y);
        case Sequence(a, b) =>
          SecondGrows(Lower(a, k).1, b);
          var x := LowerExpr(a);
          var y := LowerExpr(b);
          e := Comma(x, y);
      }
    }

    // Labels of && and || are taken after the operands are lowered,
    method LowerLogical(n: Node) returns (e: Expr)
      requires nextLabel <= LABEL_LIMIT && n.AndOr?
      modifies this`nextLabel, this`failed
      ensures var k := Lower(n, old(nextLabel)).1; Follows(old(failed), old(Now()).(next := k))
      ensures Lower(n, old(nextLabel)).1 <= LABEL_LIMIT ==> e == Lower(n, old(nextLabel)).0
      decreases n, 0
    {
      hide LABEL_LIMIT;
      SecondGrows(Lower(n.a, nextLabel).1, n.b);
      var x := LowerExpr(n.a);
      var y := LowerExpr(n.b);
      var t := NewLabel();
      var f := NewLabel();
      var end := NewLabel();
      e := Logical(n.isAnd, x, y, t, f, end);
    }

    // those of ?: before.
    method LowerConditional(n: Node) returns (e: Expr)
      requires nextLabel <= LABEL_LIMIT && n.Choose?
      modifies this`nextLabel, this`failed
      ensures var k := Lower(n, old(nextLabel)).1; Follows(old(failed), old(Now()).(next := k))
      ensures Lower(n, old(nextLabel)).1 <= LABEL_LIMIT ==> e == Lower(n, old(nextLabel)).0
      decreases n, 0
    {
      hide LABEL_LIMIT;
      ghost var k := nextLabel + 3;
      NodeLabelsGrow(n.a, k);
      SecondGrows(Lower(n.a, k).1, n.b);
      SecondGrows(Lower(n.b, Lower(n.a, k).1).1, n.c);
      var t := NewLabel();
      var f := NewLabel();
      var end := NewLabel();
      var x := LowerExpr(n.a);
      var y := LowerExpr(n.b);
      var z := LowerExpr(n.c);
      e := Conditional(n.ty, x, y, z, t, f, end);
    }

    method LowerCall(n: Node) returns (e: Expr)
      requires nextLabel <= LABEL_LIMIT && n.Apply?
      modifies this`nextLabel, this`failed
      ensures var k := Lower(n, old(nextLabel)).1; Follows(old(failed), old(Now()).(next := k))
      ensures Lower(n, old(nextLabel)).1 <= LABEL_LIMIT ==> e == Lower(n, old(nextLabel)).0
      decreases n, 0
    {
      ArgsLabelsGrow(n.args, LowerFunction(n.target, nextLabel).1);
      var callee: Callee;
      match n.target {
        case Named(sym, variadic) => callee := Direct(sym, variadic);
        case Through(pointer) =>
          var x := LowerExpr(pointer);
          callee := Indirect(x);
      }
      var es := LowerArguments(n.args);
      e := Call(n.ty, callee, es);
    }

    method LowerAddress(p: Place) returns (e: Expr)
      requires nextLabel <= LABEL_LIMIT
      modifies this`nextLabel, this`failed
      ensures var k := LowerPlace(p, old(nextLabel)).1; Follows(old(failed), old(Now()).(next := k))
      ensures LowerPlace(p, old(nextLabel)).1 <= LABEL_LIMIT ==> e == LowerPlace(p, old(nextLabel)).0
      decreases p
    {
      ghost var k := nextLabel;
      match p {
        case Variable(sym) => e := AddrSym(sym);
        case Pointee(pointer) => e := LowerExpr(pointer);
        case Indexed(pointer, index, size) =>
          SecondGrows(Lower(pointer, k).1, index);
          var b := LowerExpr(pointer);
          var i := LowerExpr(index);
          e := Binary(LONG, Add, b, Scaled(i, size));
        case Element(whole, index, size) =>
          SecondGrows(LowerPlace(whole, k).1, index);
          var b := LowerAddress(whole);
          var i := LowerExpr(index);
          e := Binary(LONG, Add, b, Scaled(i, size));
        case Field(record, offset) => var b := LowerAddress(record); e := Member(b, offset);
        case Arrow(pointer, offset) => var b := LowerExpr(pointer); e := Member(b, offset);
      }
    }

    method LowerArguments(args: List<Node>) returns (es: List<Expr>)
      requires nextLabel <= LABEL_LIMIT
      modifies this`nextLabel, this`failed
      ensures var k := LowerArgs(args, old(nextLabel)).1; Follows(old(failed), old(Now()).(next := k))
      ensures LowerArgs(args, old(nextLabel)).1 <= LABEL_LIMIT ==> es == LowerArgs(args, old(nextLabel)).0
      decreases args
    {
      match args {
        case Nil => es := Nil;
        case Cons(head, tail) =>
          ArgsLabelsGrow(tail, Lower(head, nextLabel).1);
          var x := LowerExpr(head);
          var xs := LowerArguments(tail);
          es := Cons(x, xs);
      }
    }

    method FindLabel(name: string) returns (l: Label)
      requires nextLabel <= LABEL_LIMIT
      modifies this`nextLabel, this`failed, this`labels
      ensures Follows(old(failed), Mention(old(Now()), name))
      ensures Mention(old(Now()), name).next <= LABEL_LIMIT ==> l == LabelOf(Now(), ToName(name))
    {
      if ToName(name) in labels { return labels[ToName(name)]; }
      l := NewLabel();
      labels := labels[ToName(name) := l];
    }

    // Labels for the cases of a switch, in order.
    method CollectCases(cases: List<CaseEntry>)
      requires nextLabel <= LABEL_LIMIT
      modifies this`nextLabel, this`failed, this`labels
      ensures Follows(old(failed), AddCases(cases, old(Now())))
    {
      var rest := cases;
      ghost var done := Now();
      while rest.Cons?
        invariant Follows(old(failed), done) && AddCases(rest, done) == AddCases(cases, old(Now()))
        decreases rest
      {
        AddCasesExtends(rest.tail, AddCase(rest.head.id, done));
        var target := ToCase(rest.head.id);
        done := AddCase(rest.head.id, done);
        var l := NewLabel();
        if target in labels { failed := true; } else { labels := labels[target := l]; }
        rest := rest.tail;
      }
    }

    // What a statement method makes of the specification's result.
    ghost predicate Made(was: bool, r: (FlatCode, Labels), list: seq<F.Inst>)
      reads this
    {
      Follows(was, r.1) && (r.1.next <= LABEL_LIMIT ==> list == Flat(r.0))
    }

    method LowerStatement(ss: List<Stmt>) returns (list: seq<F.Inst>)
      requires nextLabel <= LABEL_LIMIT
      modifies this
      ensures Scope() == old(Scope())
      ensures Made(old(failed), LowerList(ss, old(Scope()), old(Now())), list)
      decreases ss, 0
    {
      match ss {
        case Nil => list := [];
        case Cons(s, rest) =>
          ghost var r1 := LowerOne(s, Scope(), Now());
          ListExtends(rest, Scope(), r1.1);
          list := LowerOneStatement(s);
          var more := LowerStatement(rest);
          list := list + more;
      }
    }

    method LowerOneStatement(s: Stmt) returns (list: seq<F.Inst>)
      requires nextLabel <= LABEL_LIMIT
      modifies this
      ensures Scope() == old(Scope())
      ensures Made(old(failed), LowerOne(s, old(Scope()), old(Now())), list)
      decreases s, 1
    {
      match s {
        case Block(body) => list := LowerStatement(body);
        case Null => list := [];
        case Declare(ty, sym, init) =>
          if init.None? { list := []; } else { list := LowerValue(Assign(ty, Variable(sym), init.value)); }
        case Expression(e) => list := LowerValue(e);
        case If(_, _, _) => list := LowerIf(s);
        case While(_, _) => list := LowerWhile(s);
        case DoWhile(_, _) => list := LowerDo(s);
        case For(_, _, _, _) => list := LowerFor(s);
        case Switch(_, _) => list := LowerSwitch(s);
        case Case(id, _) => list := LowerCase(id);
        case Default(id) => list := LowerCase(id);
        case Break => list := [F.Goto(breakLabel)];
        case Continue => list := [F.Goto(continueLabel)];
        case Return(result) =>
          if result.None? {
            list := [F.Return(None, ret)];
          } else {
            var e := LowerExpr(result.value);
            if TypeOfNode(result.value).width != ret.width { e := Cast(ret, e); }
            list := [F.Return(Some(e), ret)];
          }
        case Label(name) =>
          var l := FindLabel(name);
          list := [F.Mark(l)];
        case Goto(name) =>
          var l := FindLabel(name);
          list := [F.Goto(l)];
      }
    }

    method LowerValue(n: Node) returns (list: seq<F.Inst>)
      requires nextLabel <= LABEL_LIMIT
      modifies this`nextLabel, this`failed
      ensures Made(old(failed), Evaluated(n, old(Now())), list)
    {
      var e := LowerExpr(n);
      list := [F.Evaluate(e)];
    }

    method LowerCase(id: nat) returns (list: seq<F.Inst>)
      requires nextLabel <= LABEL_LIMIT
      modifies this`failed
      ensures Made(old(failed), LowerOne(Default(id), old(Scope()), old(Now())), list)
    {
      if ToCase(id) in labels {
        list := [F.Mark(labels[ToCase(id)])];
      } else {
        failed := true;
        list := [];
      }
    }

    method LowerIf(s: Stmt) returns (list: seq<F.Inst>)
      requires nextLabel <= LABEL_LIMIT && s.If?
      modifies this
      ensures Scope() == old(Scope())
      ensures Made(old(failed), LowerOne(s, old(Scope()), old(Now())), list)
      decreases s, 0
    {
      hide LowerList, Lower, Flat, LABEL_LIMIT, Valid, LowerOne;
      ghost var ls, cx := Now(), Scope();
      IfShape(s, cx, ls);
      ghost var k := ls.next;
      ghost var n := Lower(s.cond, k + 3).1;
      ghost var r1 := LowerList(s.yes, cx, ls.(next := n));
      NodeLabelsGrow(s.cond, k + 3);
      ListExtends(s.yes, cx, ls.(next := n));
      NextGrows(ls.(next := n), r1.1);
      var yesLabel := NewLabel();
      var noLabel := NewLabel();
      var end := NewLabel();
      var cond := LowerExpr(s.cond);
      var otherwise := if s.no.None? then end else noLabel;
      var yes := LowerStatement(s.yes);
      list := [F.Branch(cond, otherwise), F.Mark(yesLabel)] + yes;
      if s.no.Some? {
        ghost var r2 := LowerList(s.no.value, cx, r1.1);
        ListExtends(s.no.value, cx, r1.1);
        NextGrows(r1.1, r2.1);
        var no := LowerStatement(s.no.value);
        list := list + [F.Goto(end), F.Mark(noLabel)] + no + [F.Mark(end)];
        IfElseFlat(F.Branch(cond, noLabel), k, r1.0, r2.0);
      } else {
        list := list + [F.Mark(end)];
        IfFlat(F.Branch(cond, end), k, r1.0);
      }
    }

    method LowerWhile(s: Stmt) returns (list: seq<F.Inst>)
      requires nextLabel <= LABEL_LIMIT && s.While?
      modifies this
      ensures Scope() == old(Scope())
      ensures Made(old(failed), LowerOne(s, old(Scope()), old(Now())), list)
      decreases s, 0
    {
      hide LowerList, Lower, Flat, Valid;
      ghost var ls, cx, p := Now(), Scope(), PartsOfWhile(s, Scope(), Now());
      NodeLabelsGrow(s.cond, ls.next + 2);
      ListExtends(s.body, cx.(brk := ls.next + 2, cont := ls.next + 1), p.ls1);
      NextGrows(p.ls1, p.ls2);
      var start := NewLabel();
      var end := NewLabel();
      var oldBreak, oldContinue := breakLabel, continueLabel;
      breakLabel, continueLabel := end, start;
      var cond := LowerExpr(s.cond);
      var body := LowerStatement(s.body);
      list := [F.Mark(start), F.Branch(cond, end)] + body + [F.Goto(start), F.Mark(end)];
      breakLabel, continueLabel := oldBreak, oldContinue;
      WhileFlat(F.Branch(cond, end), ls.next, p.body);
    }

    method LowerDo(s: Stmt) returns (list: seq<F.Inst>)
      requires nextLabel <= LABEL_LIMIT && s.DoWhile?
      modifies this
      ensures Scope() == old(Scope())
      ensures Made(old(failed), LowerOne(s, old(Scope()), old(Now())), list)
      decreases s, 0
    {
      hide LowerList, Lower, Flat, LABEL_LIMIT, Valid, LowerOne;
      ghost var ls, cx := Now(), Scope();
      DoShape(s, cx, ls);
      ghost var r := LowerList(s.body, cx.(brk := ls.next + 3, cont := ls.next + 2), Reserve(ls, 3));
      ListExtends(s.body, cx.(brk := ls.next + 3, cont := ls.next + 2), Reserve(ls, 3));
      NextGrows(Reserve(ls, 3), r.1);
      NodeLabelsGrow(s.cond, r.1.next);
      var start := NewLabel();
      var again := NewLabel();
      var end := NewLabel();
      var oldBreak, oldContinue := breakLabel, continueLabel;
      breakLabel, continueLabel := end, again;
      var body := LowerStatement(s.body);
      var cond := LowerExpr(s.cond);
      list := [F.Mark(start)] + body + [F.Mark(again), F.Branch(cond, end)] + [F.Goto(start), F.Mark(end)];
      breakLabel, continueLabel := oldBreak, oldContinue;
      DoFlat(F.Branch(cond, end), ls.next, r.0);
    }

    // The condition of a for statement, if it has one.
    method LowerTest(test: Option<Node>, end: Label) returns (list: seq<F.Inst>)
      requires nextLabel <= LABEL_LIMIT
      modifies this`nextLabel, this`failed
      ensures Made(old(failed), if test.None? then (Empty, old(Now())) else Tested(test.value, end, old(Now())), list)
    {
      hide Lower, LABEL_LIMIT;
      list := [];
      if test.Some? {
        var cond := LowerExpr(test.value);
        list := [F.Branch(cond, end)];
      }
    }

    method LowerStep(step: Option<Node>) returns (list: seq<F.Inst>)
      requires nextLabel <= LABEL_LIMIT
      modifies this`nextLabel, this`failed
      ensures Made(old(failed), if step.None? then (Empty, old(Now())) else Evaluated(step.value, old(Now())), list)
    {
      list := [];
      if step.Some? { list := LowerValue(step.value); }
    }

    method LowerFor(s: Stmt) returns (list: seq<F.Inst>)
      requires nextLabel <= LABEL_LIMIT && s.For?
      modifies this
      ensures Scope() == old(Scope())
      ensures Made(old(failed), LowerOne(s, old(Scope()), old(Now())), list)
      decreases s, 0, 1
    {
      hide LowerList, Lower, Flat, LowerOne, Parts, LABEL_LIMIT, Valid, ForHead, ForTail, Tested, Evaluated, ForList, Extends;
      ghost var ls, cx, p := Now(), Scope(), Parts(s, Scope(), Now());
      ForFirst(s, cx, ls);
      ForShape(s, cx, ls);
      ForGrows(s, cx, ls);
      var start := NewLabel();
      var again := NewLabel();
      var end := NewLabel();
      var init := LowerStatement(s.first);
      var test, body, step := LowerForRest(s, again, end, cx, ls, old(failed));
      list := ForList(init, test, body, step, start, again, end);
      ForFlat(ls.next, p.first, p.test, p.body, p.step);
    }

    // The condition, the body and the step, inside the loop's own labels.
    method LowerForRest(s: Stmt, again: Label, end: Label, ghost cx: Context, ghost ls: Labels, ghost was: bool)
      returns (test: seq<F.Inst>, body: seq<F.Inst>, step: seq<F.Inst>)
      requires nextLabel <= LABEL_LIMIT && s.For? && Scope() == cx && Follows(was, Parts(s, cx, ls).ls1)
      requires Parts(s, cx, ls).ls1.next <= LABEL_LIMIT ==> again == ls.next + 2 && end == ls.next + 3
      modifies this
      ensures Scope() == cx && Follows(was, Parts(s, cx, ls).ls4)
      ensures var p := Parts(s, cx, ls);
              p.ls4.next <= LABEL_LIMIT ==> test == Flat(p.test) && body == Flat(p.body) && step == Flat(p.step)
      decreases s, 0, 0
    {
      hide LowerList, Lower, Flat, LowerOne, Parts, LABEL_LIMIT, Valid, ForHead, ForTail, Tested, Evaluated, Extends;
      ghost var p := Parts(s, cx, ls);
      ForFirst(s, cx, ls);
      ForTested(s, cx, ls);
      ForGrows(s, cx, ls);
      test := LowerTest(s.test, end);
      var oldBreak, oldContinue := breakLabel, continueLabel;
      breakLabel, continueLabel := end, again;
      body := LowerStatement(s.body);
      step := LowerStep(s.step);
      breakLabel, continueLabel := oldBreak, oldContinue;
    }

    method LowerSwitch(s: Stmt) returns (list: seq<F.Inst>)
      requires nextLabel <= LABEL_LIMIT && s.Switch?
      modifies this
      ensures Scope() == old(Scope())
      ensures Made(old(failed), LowerOne(s, old(Scope()), old(Now())), list)
      decreases s, 0
    {
      hide LowerList, Lower, Flat, AddCases, Cases, PartsOfSwitch, LowerOne, Table, DistinctCases, DefaultOf, LABEL_LIMIT, Valid;
      ghost var ls, cx, p := Now(), Scope(), PartsOfSwitch(s, Scope(), Now());
      SwitchShape(s, cx, ls);
      var cases := Cases(s.body);
      AddCasesExtends(cases, Reserve(ls, 1));
      NextGrows(Reserve(ls, 1), p.ls1);
      NodeLabelsGrow(s.cond, p.ls1.next);
      ListExtends(s.body, cx.(brk := ls.next + 1), p.ls2);
      NextGrows(p.ls2, p.ls3);
      var end := NewLabel();
      CollectCases(cases);
      var table := Table(cases, TypeOfNode(s.cond), Now());
      var default := if DefaultOf(cases).None? then end else LabelOf(Now(), ToCase(DefaultOf(cases).value));
      if !DistinctCases(cases) { failed := true; }
      var cond := LowerExpr(s.cond);
      var oldBreak := breakLabel;
      breakLabel := end;
      var body := LowerStatement(s.body);
      list := [F.Dispatch(cond, table, default)] + body + [F.Mark(end)];
      breakLabel := oldBreak;
      SwitchFlat(F.Dispatch(cond, table, default), p.body, ls.next);
    }
  }

  lemma {:induction false} SecondGrows(k: nat, n: Node)
    ensures k <= Lower(n, k).1
  {
    NodeLabelsGrow(n, k);
  }

  lemma {:induction false} ForGrows(s: Stmt, cx: Context, ls: Labels)
    requires s.For?
    ensures var p := Parts(s, cx, ls);
            ls.next + 3 <= p.ls1.next <= p.ls2.next <= p.ls3.next <= p.ls4.next
  {
    hide LowerList, Lower, Valid;
    var p := Parts(s, cx, ls);
    ForFirst(s, cx, ls);
    ForNexts(s, cx, ls, 0);
    ListExtends(s.first, cx, Reserve(ls, 3));
    ListExtends(s.body, Inside(cx, ls.next), p.ls2);
    NextGrows(Reserve(ls, 3), p.ls1);
    NextGrows(p.ls2, p.ls3);
  }

  lemma {:induction false} ForTested(s: Stmt, cx: Context, ls: Labels)
    requires s.For?
    ensures var p := Parts(s, cx, ls);
            && (p.test, p.ls2) == (if s.test.None? then (Empty, p.ls1) else Tested(s.test.value, ls.next + 3, p.ls1))
            && (p.step, p.ls4) == (if s.step.None? then (Empty, p.ls3) else Evaluated(s.step.value, p.ls3))
  {
    hide LowerList, Lower;
  }

  // The specification of an if in its parts.
  lemma {:induction false} IfShape(s: Stmt, cx: Context, ls: Labels)
    requires s.If?
    ensures var k := ls.next;
            var (e, n) := Lower(s.cond, k + 3);
            var r1 := LowerList(s.yes, cx, ls.(next := n));
            if s.no.None? then
              LowerOne(s, cx, ls)
              == (Cat(Cat(One(F.Branch(e, k + 3)), One(F.Mark(k + 1))), Cat(r1.0, One(F.Mark(k + 3)))), r1.1)
            else
              var r2 := LowerList(s.no.value, cx, r1.1);
              LowerOne(s, cx, ls)
              == (Cat(Cat(One(F.Branch(e, k + 2)), One(F.Mark(k + 1))),
                      Cat(Cat(r1.0, Cat(One(F.Goto(k + 3)), One(F.Mark(k + 2)))), Cat(r2.0, One(F.Mark(k + 3))))), r2.1)
  {
    hide LowerList, Lower;
  }

  lemma {:induction false} DoShape(s: Stmt, cx: Context, ls: Labels)
    requires s.DoWhile?
    ensures var k, r := ls.next, LowerList(s.body, cx.(brk := ls.next + 3, cont := ls.next + 2), Reserve(ls, 3));
            var (e, n) := Lower(s.cond, r.1.next);
            LowerOne(s, cx, ls) == (Cat(Cat(One(F.Mark(k + 1)), r.0), DoTail(k, One(F.Branch(e, k + 3)))), r.1.(next := n))
  {
    hide LowerList, Lower;
  }

  // The specification of a switch in its parts.
  lemma {:induction false} SwitchShape(s: Stmt, cx: Context, ls: Labels)
    requires s.Switch?
    ensures var p, cases := PartsOfSwitch(s, cx, ls), Cases(s.body);
            && LowerOne(s, cx, ls) == (Cat(One(p.dispatch), Cat(p.body, One(F.Mark(ls.next + 1)))), p.ls3)
            && p.ls1 == AddCases(cases, Reserve(ls, 1))
            && p.ls2 == p.ls1.(next := Lower(s.cond, p.ls1.next).1, ok := p.ls1.ok && DistinctCases(cases))
            && LowerList(s.body, cx.(brk := ls.next + 1), p.ls2) == (p.body, p.ls3)
            && p.dispatch == F.Dispatch(Lower(s.cond, p.ls1.next).0, Table(cases, TypeOfNode(s.cond), p.ls1),
                 if DefaultOf(cases).None? then ls.next + 1 else LabelOf(p.ls1, ToCase(DefaultOf(cases).value)))
  {
  }

  lemma {:induction false} IfFlat(i: F.Inst, k: nat, c: FlatCode)
    ensures Flat(Cat(Cat(One(i), One(F.Mark(k + 1))), Cat(c, One(F.Mark(k + 3)))))
         == [i, F.Mark(k + 1)] + Flat(c) + [F.Mark(k + 3)]
  {
    FlatBoth(One(i), One(F.Mark(k + 1)));
    FlatBoth(c, One(F.Mark(k + 3)));
  }

  lemma {:induction false} IfElseFlat(i: F.Inst, k: nat, c: FlatCode, c2: FlatCode)
    ensures Flat(Cat(Cat(One(i), One(F.Mark(k + 1))),
                     Cat(Cat(c, Cat(One(F.Goto(k + 3)), One(F.Mark(k + 2)))), Cat(c2, One(F.Mark(k + 3))))))
         == [i, F.Mark(k + 1)] + Flat(c) + [F.Goto(k + 3), F.Mark(k + 2)] + Flat(c2) + [F.Mark(k + 3)]
  {
    hide Flat;
    var middle := Cat(One(F.Goto(k + 3)), One(F.Mark(k + 2)));
    FlatOne(i);
    FlatOne(F.Mark(k + 1));
    FlatOne(F.Mark(k + 2));
    FlatOne(F.Mark(k + 3));
    FlatOne(F.Goto(k + 3));
    FlatBoth(One(i), One(F.Mark(k + 1)));
    FlatBoth(One(F.Goto(k + 3)), One(F.Mark(k + 2)));
    FlatBoth(c, middle);
    FlatBoth(c2, One(F.Mark(k + 3)));
    FlatBoth(Cat(c, middle), Cat(c2, One(F.Mark(k + 3))));
    FlatBoth(Cat(One(i), One(F.Mark(k + 1))), Cat(Cat(c, middle), Cat(c2, One(F.Mark(k + 3)))));
    FourParts([i] + [F.Mark(k + 1)], Flat(c), [F.Goto(k + 3)] + [F.Mark(k + 2)], Flat(c2), [F.Mark(k + 3)]);
  }

  lemma {:induction false} FourParts<T>(a: seq<T>, b: seq<T>, c: seq<T>, d: seq<T>, e: seq<T>)
    ensures a + ((b + c) + (d + e)) == a + b + c + d + e
  {
  }

  lemma {:induction false} WhileFlat(i: F.Inst, k: nat, c: FlatCode)
    ensures Flat(Cat(WhileHead(k, One(i)), Cat(c, WhileTail(k))))
         == [F.Mark(k + 1), i] + Flat(c) + [F.Goto(k + 1), F.Mark(k + 2)]
  {
    FlatBoth(One(F.Mark(k + 1)), One(i));
    FlatBoth(One(F.Goto(k + 1)), One(F.Mark(k + 2)));
    FlatBoth(c, WhileTail(k));
  }

  lemma {:induction false} LoopEndFlat(k: nat)
    ensures Flat(LoopEnd(k)) == [F.Goto(k + 1), F.Mark(k + 3)]
  {
    FlatBoth(One(F.Goto(k + 1)), One(F.Mark(k + 3)));
  }

  lemma {:induction false} DoFlat(i: F.Inst, k: nat, c: FlatCode)
    ensures Flat(Cat(Cat(One(F.Mark(k + 1)), c), DoTail(k, One(i))))
         == [F.Mark(k + 1)] + Flat(c) + [F.Mark(k + 2), i] + [F.Goto(k + 1), F.Mark(k + 3)]
  {
    LoopEndFlat(k);
    FlatBoth(One(F.Mark(k + 1)), c);
    FlatBoth(One(F.Mark(k + 2)), One(i));
    FlatBoth(Cat(One(F.Mark(k + 2)), One(i)), LoopEnd(k));
  }

  function ForList(init: seq<F.Inst>, test: seq<F.Inst>, body: seq<F.Inst>, step: seq<F.Inst>, start: Label, again: Label, end: Label)
    : seq<F.Inst>
  {
    init + [F.Mark(start)] + test + body + [F.Mark(again)] + step + [F.Goto(start), F.Mark(end)]
  }

  lemma {:induction false} ForFlat(k: nat, first: FlatCode, test: FlatCode, body: FlatCode, step: FlatCode)
    ensures Flat(Cat(first, Cat(ForHead(k, test), Cat(body, ForTail(k, step)))))
         == ForList(Flat(first), Flat(test), Flat(body), Flat(step), k + 1, k + 2, k + 3)
  {
    hide Flat;
    FlatOne(F.Mark(k + 1));
    FlatOne(F.Mark(k + 2));
    LoopEndFlat(k);
    FlatBoth(One(F.Mark(k + 1)), test);
    FlatBoth(One(F.Mark(k + 2)), step);
    FlatBoth(Cat(One(F.Mark(k + 2)), step), LoopEnd(k));
    FlatBoth(body, ForTail(k, step));
    FlatBoth(ForHead(k, test), Cat(body, ForTail(k, step)));
    FlatBoth(first, Cat(ForHead(k, test), Cat(body, ForTail(k, step))));
    SixParts(Flat(first), [F.Mark(k + 1)], Flat(test), Flat(body), [F.Mark(k + 2)], Flat(step), [F.Goto(k + 1), F.Mark(k + 3)]);
  }

  lemma {:induction false} FlatOne(i: F.Inst)
    ensures Flat(One(i)) == [i]
  {
  }

  lemma {:induction false} SixParts<T>(a: seq<T>, b: seq<T>, c: seq<T>, d: seq<T>, e: seq<T>, f: seq<T>, g: seq<T>)
    ensures a + ((b + c) + (d + ((e + f) + g))) == a + b + c + d + e + f + g
  {
  }

  lemma {:induction false} SwitchFlat(i: F.Inst, c: FlatCode, k: nat)
    ensures Flat(Cat(One(i), Cat(c, One(F.Mark(k + 1))))) == [i] + Flat(c) + [F.Mark(k + 1)]
  {
    FlatBoth(c, One(F.Mark(k + 1)));
  }
}
