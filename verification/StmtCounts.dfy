// Every label the lowering hands out is defined at most once.
module StmtCounts {
  import opened Words
  import opened Lists
  import opened Ropes
  import opened Options
  import opened Ir
  import opened Ast
  import opened LowerNode
  import opened Statements
  import opened LowerStmt
  import opened StmtCorrect
  import opened LabelCounts
  import F = FlatIr

  ghost predicate OfTarget(fin: Labels, l: Label) {
    exists t :: t in fin.of && fin.of[t] == l
  }

  // A label of no target, handed out between two moments.
  ghost function Fresh(a: nat, b: nat, fin: Labels, l: Label): nat {
    One01(a < l <= b && !OfTarget(fin, l))
  }

  // How many of a statement's own targets have the label l.
  function Hits(ss: List<Stmt>, fin: Labels, l: Label): nat {
    match ss
    case Nil => 0
    case Cons(s, rest) => HitsOf(s, fin, l) + Hits(rest, fin, l)
  }

  function HitsOf(s: Stmt, fin: Labels, l: Label): nat {
    match s
    case Block(body) => Hits(body, fin, l)
    case If(_, yes, no) => Hits(yes, fin, l) + (if no.Some? then Hits(no.value, fin, l) else 0)
    case While(_, body) => Hits(body, fin, l)
    case DoWhile(body, _) => Hits(body, fin, l)
    case For(first, _, _, body) => Hits(first, fin, l) + Hits(body, fin, l)
    case Switch(_, body) => Hits(body, fin, l)
    case Case(id, _) => One01(LabelOf(fin, ToCase(id)) == l)
    case Default(id) => One01(LabelOf(fin, ToCase(id)) == l)
    case Label(name) => One01(LabelOf(fin, ToName(name)) == l)
    case _ => 0
  }

  // Counting up without mentioning a target hands out labels of no target.
  lemma {:induction false} Unnamed(ls: Labels, n: nat, fin: Labels, l: Label)
    requires Valid(ls) && Extends(ls.(next := n), fin)
    ensures Within(ls.next, n, l) == Fresh(ls.next, n, fin, l)
  {
  }

  lemma {:induction false} FreshThen(a: nat, b: nat, c: nat, fin: Labels, l: Label)
    requires a <= b <= c
    ensures Fresh(a, b, fin, l) + Fresh(b, c, fin, l) == Fresh(a, c, fin, l)
  {
  }

  ghost predicate Prepared(ls: Labels, ls': Labels, fin: Labels) {
    Valid(ls) && Extends(ls', fin) && fin.ok
  }

  lemma {:induction false} CountStmts(ss: List<Stmt>, cx: Context, ls: Labels, fin: Labels, l: Label)
    requires Prepared(ls, LowerList(ss, cx, ls).1, fin)
    ensures ListCount(LowerList(ss, cx, ls).0, l)
         <= Fresh(ls.next, LowerList(ss, cx, ls).1.next, fin, l) + Hits(ss, fin, l)
    decreases ss, 0
  {
    hide Extends, Valid, LowerOne, HitsOf, Fresh;
    match ss {
      case Nil => FreshNone(ls.next, fin, l);
      case Cons(s, rest) =>
        var ls1 := LowerOne(s, cx, ls).1;
        OneExtends(s, cx, ls);
        ListExtends(rest, cx, ls1);
        ExtendsThen(ls1, LowerList(rest, cx, ls1).1, fin);
        CountOne(s, cx, ls, fin, l);
        CountStmts(rest, cx, ls1, fin, l);
        NextGrows(ls, ls1);
        NextGrows(ls1, LowerList(rest, cx, ls1).1);
        FreshThen(ls.next, ls1.next, LowerList(rest, cx, ls1).1.next, fin, l);
    }
  }

  lemma {:induction false} FreshNone(a: nat, fin: Labels, l: Label)
    ensures Fresh(a, a, fin, l) == 0
  {
  }

  lemma {:induction false} NextGrows(a: Labels, b: Labels)
    requires Extends(a, b)
    ensures a.next <= b.next
  {
  }

  // A stretch of labels without targets, then a list, then another stretch.
  lemma {:induction false} CountPart(n: nat, ss: List<Stmt>, cx: Context, ls: Labels, m: nat, fin: Labels, l: Label)
    requires ls.next <= n && LowerList(ss, cx, ls.(next := n)).1.next <= m
    requires Prepared(ls, LowerList(ss, cx, ls.(next := n)).1.(next := m), fin)
    ensures var ls1 := LowerList(ss, cx, ls.(next := n)).1;
            Within(ls.next, n, l) + ListCount(LowerList(ss, cx, ls.(next := n)).0, l) + Within(ls1.next, m, l)
            <= Fresh(ls.next, m, fin, l) + Hits(ss, fin, l)
    decreases ss, 1
  {
    hide Extends, Valid, LowerList, Hits, Fresh, Within;
    var ls0 := ls.(next := n);
    var ls1 := LowerList(ss, cx, ls0).1;
    ExtendsNext(ls, ls0);
    ListExtends(ss, cx, ls0);
    ExtendsNext(ls1, ls1.(next := m));
    ExtendsThen(ls1, ls1.(next := m), fin);
    ExtendsThen(ls0, ls1, fin);
    Unnamed(ls, n, fin, l);
    Unnamed(ls1, m, fin, l);
    CountStmts(ss, cx, ls0, fin, l);
    NextGrows(ls0, ls1);
    FreshThen(ls.next, n, ls1.next, fin, l);
    FreshThen(ls.next, ls1.next, m, fin, l);
  }

  lemma {:induction false} CountOne(s: Stmt, cx: Context, ls: Labels, fin: Labels, l: Label)
    requires Prepared(ls, LowerOne(s, cx, ls).1, fin)
    ensures ListCount(LowerOne(s, cx, ls).0, l)
         <= Fresh(ls.next, LowerOne(s, cx, ls).1.next, fin, l) + HitsOf(s, fin, l)
    decreases s, 5
  {
    hide Extends, Valid, Fresh, Lower, LowerList, AddCases, Table;
    match s {
      case Block(body) => CountStmts(body, cx, ls, fin, l);
      case Declare(ty, sym, init) => if init.Some? { CountNode(Assign(ty, Variable(sym), init.value), ls, fin, l); }
      case Expression(e) => CountNode(e, ls, fin, l);
      case Return(result) =>
        if result.Some? {
          CountNode(result.value, ls, fin, l);
          ConvertedCount(result.value, Lower(result.value, ls.next).0, cx.ret, l);
        }
      case If(_, _, _) => CountIf(s, cx, ls, fin, l);
      case While(_, _) => CountWhile(s, cx, ls, fin, l);
      case DoWhile(_, _) => CountDo(s, cx, ls, fin, l);
      case For(_, _, _, _) => CountFor(s, cx, ls, fin, l);
      case Switch(_, _) => CountSwitch(s, cx, ls, fin, l);
      case Case(id, _) => MarkLabel(s, ToCase(id), cx, ls, fin);
      case Default(id) => MarkLabel(s, ToCase(id), cx, ls, fin);
      case Label(name) => MarkLabel(s, ToName(name), cx, ls, fin);
      case _ =>
    }
  }

  lemma {:induction false} ConvertedCount(n: Node, e: Expr, ret: Ty, l: Label)
    ensures ExprCount(Converted(n, e, ret), l) == ExprCount(e, l)
  {
  }

  lemma {:induction false} CountNode(n: Node, ls: Labels, fin: Labels, l: Label)
    requires Prepared(ls, ls.(next := Lower(n, ls.next).1), fin)
    ensures ExprCount(Lower(n, ls.next).0, l) <= Fresh(ls.next, Lower(n, ls.next).1, fin, l)
  {
    NodeCount(n, ls.next, l);
    Unnamed(ls, Lower(n, ls.next).1, fin, l);
  }

  // Labels of a node lowered after some others were reserved.
  lemma {:induction false} ReservedCount(n: Node, a: nat, k: nat, l: Label)
    requires a <= k
    ensures Within(a, k, l) + ExprCount(Lower(n, k).0, l) <= Within(a, Lower(n, k).1, l) && k <= Lower(n, k).1
  {
    NodeCount(n, k, l);
    NodeLabelsGrow(n, k);
  }

  lemma {:induction false} CountIf(s: Stmt, cx: Context, ls: Labels, fin: Labels, l: Label)
    requires s.If? && Prepared(ls, LowerOne(s, cx, ls).1, fin)
    ensures ListCount(LowerOne(s, cx, ls).0, l)
         <= Fresh(ls.next, LowerOne(s, cx, ls).1.next, fin, l) + HitsOf(s, fin, l)
    decreases s, 4
  {
    hide Extends, Valid, Fresh, Lower, LowerList, Hits;
    var k := ls.next;
    var n := Lower(s.cond, k + 3).1;
    var (c1, ls2) := LowerList(s.yes, cx, ls.(next := n));
    ReservedCount(s.cond, k, k + 3, l);
    if s.no.None? {
      CountPart(n, s.yes, cx, ls, ls2.next, fin, l);
      var head := Cat(Tested(s.cond, k + 3, Reserve(ls, 3)).0, One(F.Mark(k + 1)));
      assert ListCount(head, l) == ExprCount(Lower(s.cond, k + 3).0, l) + One01(k + 1 == l);
      assert ListCount(Cat(c1, One(F.Mark(k + 3))), l) == ListCount(c1, l) + One01(k + 3 == l);
    } else {
      var (c2, ls3) := LowerList(s.no.value, cx, ls2);
      ListExtends(s.no.value, cx, ls2);
      ExtendsThen(ls2, ls3, fin);
      PartExtends(n, s.yes, cx, ls, ls2.next);
      CountPart(n, s.yes, cx, ls, ls2.next, fin, l);
      CountStmts(s.no.value, cx, ls2, fin, l);
      NextGrows(ls2, ls3);
      NextGrows(ls, ls2);
      FreshThen(k, ls2.next, ls3.next, fin, l);
      var head := Cat(Tested(s.cond, k + 2, Reserve(ls, 3)).0, One(F.Mark(k + 1)));
      assert ListCount(head, l) == ExprCount(Lower(s.cond, k + 3).0, l) + One01(k + 1 == l);
      assert ListCount(Between(k), l) == One01(k + 2 == l);
      assert ListCount(Cat(c1, Between(k)), l) == ListCount(c1, l) + One01(k + 2 == l);
      assert ListCount(Cat(c2, One(F.Mark(k + 3))), l) == ListCount(c2, l) + One01(k + 3 == l);
    }
  }

  lemma {:induction false} CountWhile(s: Stmt, cx: Context, ls: Labels, fin: Labels, l: Label)
    requires s.While? && Prepared(ls, LowerOne(s, cx, ls).1, fin)
    ensures ListCount(LowerOne(s, cx, ls).0, l)
         <= Fresh(ls.next, LowerOne(s, cx, ls).1.next, fin, l) + HitsOf(s, fin, l)
    decreases s, 4
  {
    hide Extends, Valid, Fresh, Lower, LowerList, Hits;
    var k := ls.next;
    var n := Lower(s.cond, k + 2).1;
    var cx1 := cx.(brk := k + 2, cont := k + 1);
    var (c, ls2) := LowerList(s.body, cx1, ls.(next := n));
    ReservedCount(s.cond, k, k + 2, l);
    CountPart(n, s.body, cx1, ls, ls2.next, fin, l);
    var head := WhileHead(k, Tested(s.cond, k + 2, Reserve(ls, 2)).0);
    assert ListCount(head, l) == One01(k + 1 == l) + ExprCount(Lower(s.cond, k + 2).0, l);
    assert ListCount(WhileTail(k), l) == One01(k + 2 == l);
    assert ListCount(Cat(c, WhileTail(k)), l) == ListCount(c, l) + One01(k + 2 == l);
  }

  lemma {:induction false} CountDo(s: Stmt, cx: Context, ls: Labels, fin: Labels, l: Label)
    requires s.DoWhile? && Prepared(ls, LowerOne(s, cx, ls).1, fin)
    ensures ListCount(LowerOne(s, cx, ls).0, l)
         <= Fresh(ls.next, LowerOne(s, cx, ls).1.next, fin, l) + HitsOf(s, fin, l)
    decreases s, 4
  {
    hide Extends, Valid, Fresh, Lower, LowerList, Hits;
    var k := ls.next;
    var cx1 := cx.(brk := k + 3, cont := k + 2);
    var (c, ls1) := LowerList(s.body, cx1, ls.(next := k + 3));
    var m := Lower(s.cond, ls1.next).1;
    NodeCount(s.cond, ls1.next, l);
    NodeLabelsGrow(s.cond, ls1.next);
    CountPart(k + 3, s.body, cx1, ls, m, fin, l);
    var test := Tested(s.cond, k + 3, ls1).0;
    LoopEndCount(k, l);
    assert ListCount(Cat(One(F.Mark(k + 2)), test), l) == One01(k + 2 == l) + ExprCount(Lower(s.cond, ls1.next).0, l);
    assert ListCount(DoTail(k, test), l) == One01(k + 2 == l) + ExprCount(Lower(s.cond, ls1.next).0, l) + One01(k + 3 == l);
    assert ListCount(Cat(One(F.Mark(k + 1)), c), l) == One01(k + 1 == l) + ListCount(c, l);
  }

  lemma {:induction false} LoopEndCount(k: nat, l: Label)
    ensures ListCount(LoopEnd(k), l) == One01(k + 3 == l)
  {
  }

  lemma {:induction false} CountFor(s: Stmt, cx: Context, ls: Labels, fin: Labels, l: Label)
    requires s.For? && Prepared(ls, LowerOne(s, cx, ls).1, fin)
    ensures ListCount(LowerOne(s, cx, ls).0, l)
         <= Fresh(ls.next, LowerOne(s, cx, ls).1.next, fin, l) + HitsOf(s, fin, l)
    decreases s, 4
  {
    hide Extends, Valid, Fresh, Lower, LowerList, Hits, Parts, LowerOne, Within;
    var k, p := ls.next, Parts(s, cx, ls);
    ForFirst(s, cx, ls);
    ForShape(s, cx, ls);
    ForNexts(s, cx, ls, l);
    ListExtends(s.first, cx, Reserve(ls, 3));
    ListExtends(s.body, Inside(cx, k), p.ls2);
    ExtendsNext(ls, Reserve(ls, 3));
    ExtendsNext(p.ls1, p.ls2);
    ExtendsNext(p.ls3, p.ls4);
    ExtendsThen(ls, Reserve(ls, 3), p.ls1);
    ExtendsThen(p.ls3, p.ls4, fin);
    ExtendsThen(p.ls1, p.ls2, p.ls3);
    ExtendsThen(p.ls1, p.ls3, fin);
    CountPart(k + 3, s.first, cx, ls, p.ls1.next, fin, l);
    CountPart(p.ls2.next, s.body, Inside(cx, k), p.ls1, p.ls4.next, fin, l);
    NextGrows(ls, p.ls1);
    NextGrows(p.ls1, fin);
    NextGrows(p.ls1, p.ls3);
    FreshThen(k, p.ls1.next, p.ls4.next, fin, l);
    ForCounts(p.first, p.test, p.body, p.step, k, l);
  }

  lemma {:induction false} ForNexts(s: Stmt, cx: Context, ls: Labels, l: Label)
    requires s.For?
    ensures var p := Parts(s, cx, ls);
            && p.ls2 == p.ls1.(next := p.ls2.next) && p.ls4 == p.ls3.(next := p.ls4.next)
            && p.ls1.next <= p.ls2.next && p.ls3.next <= p.ls4.next
            && ListCount(p.test, l) <= Within(p.ls1.next, p.ls2.next, l)
            && ListCount(p.step, l) <= Within(p.ls3.next, p.ls4.next, l)
            && One01(ls.next + 1 == l) + One01(ls.next + 2 == l) + One01(ls.next + 3 == l) <= Within(ls.next, ls.next + 3, l)
            && Within(p.ls1.next, p.ls1.next, l) == 0
  {
    var p := Parts(s, cx, ls);
    if s.test.Some? { NodeCount(s.test.value, p.ls1.next, l); NodeLabelsGrow(s.test.value, p.ls1.next); }
    if s.step.Some? { NodeCount(s.step.value, p.ls3.next, l); NodeLabelsGrow(s.step.value, p.ls3.next); }
  }

  lemma {:induction false} ForCounts(first: FlatCode, test: FlatCode, body: FlatCode, step: FlatCode, k: nat, l: Label)
    ensures ListCount(Cat(first, Cat(ForHead(k, test), Cat(body, ForTail(k, step)))), l)
         == ListCount(first, l) + ListCount(test, l) + ListCount(body, l) + ListCount(step, l)
            + One01(k + 1 == l) + One01(k + 2 == l) + One01(k + 3 == l)
  {
    LoopEndCount(k, l);
    assert ListCount(ForHead(k, test), l) == One01(k + 1 == l) + ListCount(test, l);
    assert ListCount(Cat(One(F.Mark(k + 2)), step), l) == One01(k + 2 == l) + ListCount(step, l);
    assert ListCount(ForTail(k, step), l) == One01(k + 2 == l) + ListCount(step, l) + One01(k + 3 == l);
    assert ListCount(Cat(body, ForTail(k, step)), l) == ListCount(body, l) + ListCount(ForTail(k, step), l);
    assert ListCount(Cat(ForHead(k, test), Cat(body, ForTail(k, step))), l)
        == ListCount(ForHead(k, test), l) + ListCount(Cat(body, ForTail(k, step)), l);
  }

  lemma {:induction false} CountSwitch(s: Stmt, cx: Context, ls: Labels, fin: Labels, l: Label)
    requires s.Switch? && Prepared(ls, LowerOne(s, cx, ls).1, fin)
    ensures ListCount(LowerOne(s, cx, ls).0, l)
         <= Fresh(ls.next, LowerOne(s, cx, ls).1.next, fin, l) + HitsOf(s, fin, l)
    decreases s, 4
  {
    hide Extends, Valid, Fresh, Lower, LowerList, Hits, AddCases, Table, Cases, DistinctCases, Within;
    var k, p, cases := ls.next, PartsOfSwitch(s, cx, ls), Cases(s.body);
    var ls0 := Reserve(ls, 1);
    ExtendsNext(ls, ls0);
    AddCasesExtends(cases, ls0);
    NodeLabelsGrow(s.cond, p.ls1.next);
    ExtendsNext(p.ls1, p.ls2);
    ListExtends(s.body, cx.(brk := k + 1), p.ls2);
    ExtendsThen(p.ls2, p.ls3, fin);
    ExtendsThen(p.ls1, p.ls2, fin);
    ExtendsThen(ls0, p.ls1, fin);
    NodeCount(s.cond, p.ls1.next, l);
    Unnamed(ls, k + 1, fin, l);
    UnnamedOk(p.ls1, p.ls2, fin, l);
    CountStmts(s.body, cx.(brk := k + 1), p.ls2, fin, l);
    NextGrows(ls0, p.ls1);
    NextGrows(p.ls2, p.ls3);
    FreshThen(k, k + 1, p.ls1.next, fin, l);
    FreshThen(k, p.ls1.next, p.ls2.next, fin, l);
    FreshThen(k, p.ls2.next, p.ls3.next, fin, l);
    OneWithin(k, l);
    assert ListCount(Cat(p.body, One(F.Mark(k + 1))), l) == ListCount(p.body, l) + One01(k + 1 == l);
  }

  lemma {:induction false} OneWithin(k: nat, l: Label)
    ensures Within(k, k + 1, l) == One01(k + 1 == l)
  {
  }

  lemma {:induction false} UnnamedOk(a: Labels, b: Labels, fin: Labels, l: Label)
    requires Valid(a) && b == a.(next := b.next, ok := b.ok) && Extends(b, fin)
    ensures Within(a.next, b.next, l) == Fresh(a.next, b.next, fin, l)
  {
  }
}
