// Every jump a function's code contains has a label to land on, so no fixup is
// left unresolved.
module Resolved {
  import opened Words
  import opened Lists
  import opened Ropes
  import opened Options
  import opened Ir
  import opened Ast
  import opened LowerNode
  import opened Statements
  import opened LowerStmt
  import opened StmtCorrect
  import opened LabelCounts
  import opened StmtCounts
  import opened Functions
  import opened Flow
  import opened GenFlat
  import opened Compiled
  import opened Codegen
  import M = Machine
  import F = FlatIr

  predicate Marks(r: FlatCode, l: Label) {
    match r
    case Empty => false
    case One(i) => i == F.Mark(l)
    case Cat(a, b) => Marks(a, l) || Marks(b, l)
  }

  predicate InTable(table: List<F.CaseTarget>, l: Label) {
    table.Cons? && (table.head.goal == l || InTable(table.tail, l))
  }

  // The labels the list jumps to.
  predicate Jumps(r: FlatCode, l: Label) {
    match r
    case Empty => false
    case One(Goto(m)) => m == l
    case One(Branch(_, m)) => m == l
    case One(Dispatch(_, table, default)) => default == l || InTable(table, l)
    case One(_) => false
    case Cat(a, b) => Jumps(a, l) || Jumps(b, l)
  }

  lemma {:induction false} CatJumps(a: FlatCode, b: FlatCode, l: Label)
    ensures Jumps(Cat(a, b), l) == (Jumps(a, l) || Jumps(b, l))
    ensures Marks(Cat(a, b), l) == (Marks(a, l) || Marks(b, l))
  {
  }

  lemma {:induction false} MarkFound(r: FlatCode, l: Label) returns (k: nat)
    requires Marks(r, l)
    ensures k < Size(r) && Flat(r)[k] == F.Mark(l)
    decreases r
  {
    match r {
      case One(_) => k := 0;
      case Cat(a, b) =>
        if Marks(a, l) { k := MarkFound(a, l); } else { k := MarkFound(b, l); k := Size(a) + k; }
    }
  }

  // A list marks the labels of the targets it contains.
  lemma {:induction false} Marked(ss: List<Stmt>, cx: Context, ls: Labels, fin: Labels, t: Target)
    requires Extends(LowerList(ss, cx, ls).1, fin) && fin.ok && Contains(ss, t)
    ensures Marks(LowerList(ss, cx, ls).0, LabelOf(fin, t))
    decreases ss
  {
    hide Extends, LowerOne, ContainsOne, LabelOf;
    match ss {
      case Cons(s, rest) =>
        var ls1 := LowerOne(s, cx, ls).1;
        ListExtends(rest, cx, ls1);
        ExtendsThen(ls1, LowerList(rest, cx, ls1).1, fin);
        if ContainsOne(s, t) { MarkedOne(s, cx, ls, fin, t); } else { Marked(rest, cx, ls1, fin, t); }
    }
  }

  lemma {:induction false} MarkedOne(s: Stmt, cx: Context, ls: Labels, fin: Labels, t: Target)
    requires Extends(LowerOne(s, cx, ls).1, fin) && fin.ok && ContainsOne(s, t)
    ensures Marks(LowerOne(s, cx, ls).0, LabelOf(fin, t))
    decreases s, 1
  {
    hide LowerList, Lower, AddCases, Table, LabelOf;
    match s {
      case Block(body) => Marked(body, cx, ls, fin, t);
      case If(_, _, _) => MarkedIf(s, cx, ls, fin, t);
      case While(cond, body) =>
        var p := PartsOfWhile(s, cx, ls);
        Marked(body, cx.(brk := ls.next + 2, cont := ls.next + 1), p.ls1, fin, t);
        assert Marks(Cat(p.body, WhileTail(ls.next)), LabelOf(fin, t));
      case DoWhile(body, cond) =>
        var cx1 := cx.(brk := ls.next + 3, cont := ls.next + 2);
        var (c, ls1) := LowerList(body, cx1, Reserve(ls, 3));
        NodeLabelsGrow(cond, ls1.next);
        ExtendsNext(ls1, LowerOne(s, cx, ls).1);
        ExtendsThen(ls1, LowerOne(s, cx, ls).1, fin);
        Marked(body, cx1, Reserve(ls, 3), fin, t);
        assert Marks(Cat(One(F.Mark(ls.next + 1)), c), LabelOf(fin, t));
      case For(_, _, _, _) => MarkedFor(s, cx, ls, fin, t);
      case Switch(_, body) =>
        var p := PartsOfSwitch(s, cx, ls);
        Marked(body, cx.(brk := ls.next + 1), p.ls2, fin, t);
        assert Marks(Cat(p.body, One(F.Mark(ls.next + 1))), LabelOf(fin, t));
      case Case(_, _) => MarkLabel(s, t, cx, ls, fin);
      case Default(_) => MarkLabel(s, t, cx, ls, fin);
      case Label(_) => MarkLabel(s, t, cx, ls, fin);
      case _ =>
    }
  }

  lemma {:induction false} MarkedIf(s: Stmt, cx: Context, ls: Labels, fin: Labels, t: Target)
    requires s.If? && Extends(LowerOne(s, cx, ls).1, fin) && fin.ok && ContainsOne(s, t)
    ensures Marks(LowerOne(s, cx, ls).0, LabelOf(fin, t))
    decreases s, 0
  {
    hide Extends, LowerList, Lower, LabelOf;
    var l, k, n := LabelOf(fin, t), ls.next, Lower(s.cond, ls.next + 3).1;
    var (c1, ls2) := LowerList(s.yes, cx, ls.(next := n));
    if s.no.Some? {
      var (c2, ls3) := LowerList(s.no.value, cx, ls2);
      ListExtends(s.no.value, cx, ls2);
      ExtendsThen(ls2, ls3, fin);
      if Contains(s.yes, t) {
        Marked(s.yes, cx, ls.(next := n), fin, t);
        assert Marks(Cat(c1, Between(k)), l);
      } else {
        Marked(s.no.value, cx, ls2, fin, t);
        assert Marks(Cat(c2, One(F.Mark(k + 3))), l);
      }
      assert Marks(Cat(Cat(c1, Between(k)), Cat(c2, One(F.Mark(k + 3)))), l);
    } else {
      Marked(s.yes, cx, ls.(next := n), fin, t);
      assert Marks(Cat(c1, One(F.Mark(k + 3))), l);
    }
  }

  lemma {:induction false} MarkedFor(s: Stmt, cx: Context, ls: Labels, fin: Labels, t: Target)
    requires s.For? && Extends(LowerOne(s, cx, ls).1, fin) && fin.ok && ContainsOne(s, t)
    ensures Marks(LowerOne(s, cx, ls).0, LabelOf(fin, t))
    decreases s, 0
  {
    hide Extends, LowerList, Lower, Parts, LowerOne, LabelOf;
    var p, k := Parts(s, cx, ls), ls.next;
    ForFirst(s, cx, ls);
    ForShape(s, cx, ls);
    ForNexts(s, cx, ls, 0);
    ExtendsNext(p.ls1, p.ls2);
    ListExtends(s.body, Inside(cx, ls.next), p.ls2);
    ExtendsNext(p.ls3, p.ls4);
    ExtendsThen(p.ls3, p.ls4, fin);
    ExtendsThen(p.ls1, p.ls2, p.ls3);
    ExtendsThen(p.ls1, p.ls3, fin);
    if Contains(s.first, t) {
      Marked(s.first, cx, Reserve(ls, 3), fin, t);
    } else {
      Marked(s.body, Inside(cx, ls.next), p.ls2, fin, t);
      assert Marks(Cat(p.body, ForTail(k, p.step)), LabelOf(fin, t));
      assert Marks(Cat(ForHead(k, p.test), Cat(p.body, ForTail(k, p.step))), LabelOf(fin, t));
    }
  }

  // A target the body contains has its label in the list.
  lemma {:induction false} FoundSomewhere(body: List<Stmt>, ret: Ty, t: Target, m: Mem)
    requires Accepted(body) && Contains(body, t)
    ensures var (r, fin) := FunctionList(body, ret);
            F.Go(Flat(r), LabelOf(fin, t), m).At?
  {
    var (r, fin) := FunctionList(body, ret);
    ExtendsNext(fin, fin);
    AcceptedLowers(body, ret);
    Marked(body, Context(0, 0, ret), Labels(0, map[], true), fin, t);
    var k := MarkFound(r, LabelOf(fin, t));
  }

  // Where a jump out of a list may go.
  ghost predicate Lands(ss: List<Stmt>, cx: Context, fin: Labels, inLoop: bool, inSwitch: bool, l: Label) {
    || (l == cx.brk && (inLoop || inSwitch))
    || (l == cx.cont && inLoop)
    || (exists name :: HasGoto(ss, name) && l == LabelOf(fin, ToName(name)))
  }

  ghost predicate LandsOne(s: Stmt, cx: Context, fin: Labels, inLoop: bool, inSwitch: bool, l: Label) {
    || (l == cx.brk && (inLoop || inSwitch))
    || (l == cx.cont && inLoop)
    || (exists name :: HasGotoOne(s, name) && l == LabelOf(fin, ToName(name)))
  }

  lemma {:induction false} Jumped(ss: List<Stmt>, cx: Context, ls: Labels, fin: Labels, inLoop: bool, inSwitch: bool, l: Label)
    requires Extends(LowerList(ss, cx, ls).1, fin) && fin.ok && WellPlaced(ss, inLoop, inSwitch)
    requires Jumps(LowerList(ss, cx, ls).0, l)
    ensures Marks(LowerList(ss, cx, ls).0, l) || Lands(ss, cx, fin, inLoop, inSwitch, l)
    decreases ss
  {
    hide Extends, LowerOne, LabelOf, HasGotoOne;
    match ss {
      case Cons(s, rest) =>
        var (c1, ls1) := LowerOne(s, cx, ls);
        ListExtends(rest, cx, ls1);
        ExtendsThen(ls1, LowerList(rest, cx, ls1).1, fin);
        if Jumps(c1, l) {
          JumpedOne(s, cx, ls, fin, inLoop, inSwitch, l);
          if !Marks(c1, l) && LandsOne(s, cx, fin, inLoop, inSwitch, l) { LandsHead(s, rest, cx, fin, inLoop, inSwitch, l); }
        } else {
          Jumped(rest, cx, ls1, fin, inLoop, inSwitch, l);
          if Lands(rest, cx, fin, inLoop, inSwitch, l) { LandsTail(s, rest, cx, fin, inLoop, inSwitch, l); }
        }
    }
  }

  lemma {:induction false} LandsHead(s: Stmt, rest: List<Stmt>, cx: Context, fin: Labels, inLoop: bool, inSwitch: bool, l: Label)
    requires LandsOne(s, cx, fin, inLoop, inSwitch, l)
    ensures Lands(Cons(s, rest), cx, fin, inLoop, inSwitch, l)
  {
    if name :| HasGotoOne(s, name) && l == LabelOf(fin, ToName(name)) { assert HasGoto(Cons(s, rest), name); }
  }

  lemma {:induction false} LandsTail(s: Stmt, rest: List<Stmt>, cx: Context, fin: Labels, inLoop: bool, inSwitch: bool, l: Label)
    requires Lands(rest, cx, fin, inLoop, inSwitch, l)
    ensures Lands(Cons(s, rest), cx, fin, inLoop, inSwitch, l)
  {
    if name :| HasGoto(rest, name) && l == LabelOf(fin, ToName(name)) { assert HasGoto(Cons(s, rest), name); }
  }

  // The body of a statement, whose gotos are the statement's.
  lemma {:induction false} LandsPart(s: Stmt, ss: List<Stmt>, cx1: Context, cx: Context, fin: Labels,
                                     inLoop1: bool, inSwitch1: bool, inLoop: bool, inSwitch: bool, l: Label)
    requires forall name :: HasGoto(ss, name) ==> HasGotoOne(s, name)
    requires Lands(ss, cx1, fin, inLoop1, inSwitch1, l)
    ensures LandsOne(s, cx, fin, inLoop, inSwitch, l) || l == cx1.brk || l == cx1.cont
    ensures cx1 == cx && inLoop1 == inLoop && inSwitch1 == inSwitch ==> LandsOne(s, cx, fin, inLoop, inSwitch, l)
    ensures cx1.cont == cx.cont && inLoop1 == inLoop ==> LandsOne(s, cx, fin, inLoop, inSwitch, l) || l == cx1.brk
  {
    if name :| HasGoto(ss, name) && l == LabelOf(fin, ToName(name)) { assert HasGotoOne(s, name); }
  }

  lemma {:induction false} JumpedOne(s: Stmt, cx: Context, ls: Labels, fin: Labels, inLoop: bool, inSwitch: bool, l: Label)
    requires Extends(LowerOne(s, cx, ls).1, fin) && fin.ok && WellPlacedOne(s, inLoop, inSwitch)
    requires Jumps(LowerOne(s, cx, ls).0, l)
    ensures Marks(LowerOne(s, cx, ls).0, l) || LandsOne(s, cx, fin, inLoop, inSwitch, l)
    decreases s, 1
  {
    hide LowerList, Lower, AddCases, Table, LabelOf, Lands, Jumps;
    match s {
      case Block(body) =>
        Jumped(body, cx, ls, fin, inLoop, inSwitch, l);
        if Lands(body, cx, fin, inLoop, inSwitch, l) {
          LandsPart(s, body, cx, cx, fin, inLoop, inSwitch, inLoop, inSwitch, l);
        }
      case If(_, _, _) => JumpedIf(s, cx, ls, fin, inLoop, inSwitch, l);
      case While(_, _) => JumpedWhile(s, cx, ls, fin, inLoop, inSwitch, l);
      case DoWhile(_, _) => JumpedDo(s, cx, ls, fin, inLoop, inSwitch, l);
      case For(_, _, _, _) => JumpedFor(s, cx, ls, fin, inLoop, inSwitch, l);
      case Switch(_, _) => JumpedSwitch(s, cx, ls, fin, inLoop, inSwitch, l);
      case Goto(name) => GotoLabel(name, cx, ls, fin); SimpleJumps(s, cx, ls, l); assert HasGotoOne(s, name);
      case _ => SimpleJumps(s, cx, ls, l);
    }
  }

  lemma {:induction false} GotoLabel(name: string, cx: Context, ls: Labels, fin: Labels)
    requires Extends(LowerOne(Goto(name), cx, ls).1, fin)
    ensures LowerOne(Goto(name), cx, ls).0 == One(F.Goto(LabelOf(fin, ToName(name))))
  {
  }

  lemma {:induction false} SimpleJumps(s: Stmt, cx: Context, ls: Labels, l: Label)
    requires !s.Block? && !s.If? && !s.While? && !s.DoWhile? && !s.For? && !s.Switch?
    requires Jumps(LowerOne(s, cx, ls).0, l)
    ensures (s.Break? && l == cx.brk) || (s.Continue? && l == cx.cont)
         || (s.Goto? && LowerOne(s, cx, ls).0 == One(F.Goto(l)))
  {
  }

  lemma {:induction false} JumpedIf(s: Stmt, cx: Context, ls: Labels, fin: Labels, inLoop: bool, inSwitch: bool, l: Label)
    requires s.If? && Extends(LowerOne(s, cx, ls).1, fin) && fin.ok && WellPlacedOne(s, inLoop, inSwitch)
    requires Jumps(LowerOne(s, cx, ls).0, l)
    ensures Marks(LowerOne(s, cx, ls).0, l) || LandsOne(s, cx, fin, inLoop, inSwitch, l)
    decreases s, 0
  {
    hide Extends, LowerList, Lower, LabelOf, Lands, LandsOne;
    var k := ls.next;
    var (test, ls1) := Tested(s.cond, if s.no.None? then k + 3 else k + 2, Reserve(ls, 3));
    var (c1, ls2) := LowerList(s.yes, cx, ls1);
    var head := Cat(test, One(F.Mark(k + 1)));
    CatJumps(test, One(F.Mark(k + 1)), l);
    assert Jumps(head, l) ==> l == if s.no.None? then k + 3 else k + 2;
    var rest := IfRest(s, cx, k, ls1).0;
    CatJumps(head, rest, l);
    if s.no.None? {
      CatJumps(c1, One(F.Mark(k + 3)), l);
      assert Marks(rest, k + 3);
      if !Jumps(head, l) {
        Jumped(s.yes, cx, ls1, fin, inLoop, inSwitch, l);
        if Lands(s.yes, cx, fin, inLoop, inSwitch, l) {
          LandsPart(s, s.yes, cx, cx, fin, inLoop, inSwitch, inLoop, inSwitch, l);
        }
      }
    } else {
      var (c2, ls3) := LowerList(s.no.value, cx, ls2);
      var first, last := Cat(c1, Between(k)), Cat(c2, One(F.Mark(k + 3)));
      ListExtends(s.no.value, cx, ls2);
      ExtendsThen(ls2, ls3, fin);
      BetweenJumps(k, l);
      CatJumps(c1, Between(k), l);
      CatJumps(c2, One(F.Mark(k + 3)), l);
      CatJumps(first, last, l);
      if Jumps(c1, l) {
        Jumped(s.yes, cx, ls1, fin, inLoop, inSwitch, l);
        if Lands(s.yes, cx, fin, inLoop, inSwitch, l) {
          LandsPart(s, s.yes, cx, cx, fin, inLoop, inSwitch, inLoop, inSwitch, l);
        }
      } else if Jumps(c2, l) {
        Jumped(s.no.value, cx, ls2, fin, inLoop, inSwitch, l);
        if Lands(s.no.value, cx, fin, inLoop, inSwitch, l) {
          LandsPart(s, s.no.value, cx, cx, fin, inLoop, inSwitch, inLoop, inSwitch, l);
        }
      }
    }
  }

  lemma {:induction false} BetweenJumps(k: nat, l: Label)
    ensures Jumps(Between(k), l) <==> l == k + 3
    ensures Marks(Between(k), l) <==> l == k + 2
  {
    CatJumps(One(F.Goto(k + 3)), One(F.Mark(k + 2)), l);
  }

  lemma {:induction false} JumpedWhile(s: Stmt, cx: Context, ls: Labels, fin: Labels, inLoop: bool, inSwitch: bool, l: Label)
    requires s.While? && Extends(LowerOne(s, cx, ls).1, fin) && fin.ok && WellPlacedOne(s, inLoop, inSwitch)
    requires Jumps(LowerOne(s, cx, ls).0, l)
    ensures Marks(LowerOne(s, cx, ls).0, l) || LandsOne(s, cx, fin, inLoop, inSwitch, l)
    decreases s, 0
  {
    hide Extends, LowerList, Lower, LabelOf, Lands, LandsOne;
    var k, p := ls.next, PartsOfWhile(s, cx, ls);
    var cx1 := cx.(brk := k + 2, cont := k + 1);
    var head, tail := WhileHead(k, p.test), WhileTail(k);
    CatJumps(One(F.Mark(k + 1)), p.test, l);
    CatJumps(One(F.Goto(k + 1)), One(F.Mark(k + 2)), l);
    CatJumps(p.body, tail, l);
    CatJumps(head, Cat(p.body, tail), l);
    if Jumps(p.body, l) {
      Jumped(s.body, cx1, p.ls1, fin, true, inSwitch, l);
      if Lands(s.body, cx1, fin, true, inSwitch, l) {
        LandsPart(s, s.body, cx1, cx, fin, true, inSwitch, inLoop, inSwitch, l);
      }
    }
  }

  lemma {:induction false} LoopEndJumps(k: nat, l: Label)
    ensures Jumps(LoopEnd(k), l) <==> l == k + 1
    ensures Marks(LoopEnd(k), l) <==> l == k + 3
  {
    CatJumps(One(F.Goto(k + 1)), One(F.Mark(k + 3)), l);
  }

  lemma {:induction false} JumpedDo(s: Stmt, cx: Context, ls: Labels, fin: Labels, inLoop: bool, inSwitch: bool, l: Label)
    requires s.DoWhile? && Extends(LowerOne(s, cx, ls).1, fin) && fin.ok && WellPlacedOne(s, inLoop, inSwitch)
    requires Jumps(LowerOne(s, cx, ls).0, l)
    ensures Marks(LowerOne(s, cx, ls).0, l) || LandsOne(s, cx, fin, inLoop, inSwitch, l)
    decreases s, 0
  {
    hide Extends, LowerList, Lower, LabelOf, Lands, LandsOne;
    var k := ls.next;
    var cx1 := cx.(brk := k + 3, cont := k + 2);
    var (c, ls1) := LowerList(s.body, cx1, Reserve(ls, 3));
    var (test, ls2) := Tested(s.cond, k + 3, ls1);
    NodeLabelsGrow(s.cond, ls1.next);
    ExtendsNext(ls1, ls2);
    ExtendsThen(ls1, ls2, fin);
    LoopEndJumps(k, l);
    var head, middle := Cat(One(F.Mark(k + 1)), c), Cat(One(F.Mark(k + 2)), test);
    CatJumps(One(F.Mark(k + 2)), test, l);
    CatJumps(middle, LoopEnd(k), l);
    CatJumps(One(F.Mark(k + 1)), c, l);
    CatJumps(head, DoTail(k, test), l);
    if Jumps(c, l) {
      Jumped(s.body, cx1, Reserve(ls, 3), fin, true, inSwitch, l);
      if Lands(s.body, cx1, fin, true, inSwitch, l) {
        LandsPart(s, s.body, cx1, cx, fin, true, inSwitch, inLoop, inSwitch, l);
      }
    }
  }

  lemma {:induction false} JumpedFor(s: Stmt, cx: Context, ls: Labels, fin: Labels, inLoop: bool, inSwitch: bool, l: Label)
    requires s.For? && Extends(LowerOne(s, cx, ls).1, fin) && fin.ok && WellPlacedOne(s, inLoop, inSwitch)
    requires Jumps(LowerOne(s, cx, ls).0, l)
    ensures Marks(LowerOne(s, cx, ls).0, l) || LandsOne(s, cx, fin, inLoop, inSwitch, l)
    decreases s, 0
  {
    hide Extends, LowerList, Lower, LabelOf, Lands, LandsOne, Parts, LowerOne;
    var k, p := ls.next, Parts(s, cx, ls);
    ForFirst(s, cx, ls);
    ForShape(s, cx, ls);
    ForNexts(s, cx, ls, 0);
    ExtendsNext(p.ls1, p.ls2);
    ListExtends(s.body, Inside(cx, k), p.ls2);
    ExtendsNext(p.ls3, p.ls4);
    ExtendsThen(p.ls3, p.ls4, fin);
    ExtendsThen(p.ls1, p.ls2, p.ls3);
    ExtendsThen(p.ls1, p.ls3, fin);
    ForJumps(p.first, p.test, p.body, p.step, s, ls, p.ls1.next, p.ls3.next, l);
    if Jumps(p.first, l) {
      Jumped(s.first, cx, Reserve(ls, 3), fin, inLoop, inSwitch, l);
      if Lands(s.first, cx, fin, inLoop, inSwitch, l) {
        LandsPart(s, s.first, cx, cx, fin, inLoop, inSwitch, inLoop, inSwitch, l);
      }
    } else if Jumps(p.body, l) {
      Jumped(s.body, Inside(cx, k), p.ls2, fin, true, inSwitch, l);
      if Lands(s.body, Inside(cx, k), fin, true, inSwitch, l) {
        LandsPart(s, s.body, Inside(cx, k), cx, fin, true, inSwitch, inLoop, inSwitch, l);
      }
    }
  }

  lemma {:induction false} ForJumps(first: FlatCode, test: FlatCode, body: FlatCode, step: FlatCode, s: Stmt, ls: Labels,
                                    k1: nat, k3: nat, l: Label)
    requires s.For?
    requires test == if s.test.None? then Empty else One(F.Branch(Lower(s.test.value, k1).0, ls.next + 3))
    requires step == if s.step.None? then Empty else One(F.Evaluate(Lower(s.step.value, k3).0))
    ensures var k := ls.next;
            var code := Cat(first, Cat(ForHead(k, test), Cat(body, ForTail(k, step))));
            && (Jumps(code, l) ==> Jumps(first, l) || Jumps(body, l) || Marks(code, l))
            && (Marks(first, l) || Marks(body, l) || l == k + 1 || l == k + 2 || l == k + 3 ==> Marks(code, l))
  {
    hide Lower;
    var k := ls.next;
    LoopEndJumps(k, l);
    var middle := Cat(One(F.Mark(k + 2)), step);
    CatJumps(One(F.Mark(k + 2)), step, l);
    CatJumps(middle, LoopEnd(k), l);
    CatJumps(body, ForTail(k, step), l);
    CatJumps(One(F.Mark(k + 1)), test, l);
    CatJumps(ForHead(k, test), Cat(body, ForTail(k, step)), l);
    CatJumps(first, Cat(ForHead(k, test), Cat(body, ForTail(k, step))), l);
  }

  lemma {:induction false} TableEntry(cases: List<CaseEntry>, ty: Ty, ls: Labels, l: Label)
    requires InTable(Table(cases, ty, ls), l)
    ensures exists c :: Holds(cases, c) && l == LabelOf(ls, ToCase(c.id))
    decreases cases
  {
    match cases {
      case Cons(c, rest) =>
        assert Holds(cases, c);
        if c.value.None? || l != LabelOf(ls, ToCase(c.id)) {
          TableEntry(rest, ty, ls, l);
          var d :| Holds(rest, d) && l == LabelOf(ls, ToCase(d.id));
          assert Holds(cases, d);
        }
    }
  }

  // A switch jumps to its end or to a case its body marks.
  lemma {:induction false} DispatchJumps(s: Stmt, cx: Context, ls: Labels, fin: Labels, l: Label)
    requires s.Switch? && Extends(PartsOfSwitch(s, cx, ls).ls3, fin) && Extends(PartsOfSwitch(s, cx, ls).ls1, fin) && fin.ok
    requires Jumps(One(PartsOfSwitch(s, cx, ls).dispatch), l)
    ensures l == ls.next + 1 || Marks(PartsOfSwitch(s, cx, ls).body, l)
  {
    hide LowerList, Lower, AddCases, Table, Cases;
    var p, cases := PartsOfSwitch(s, cx, ls), Cases(s.body);
    if l == ls.next + 1 { return; }
    DefaultIsCase(cases);
    if InTable(Table(cases, TypeOfNode(s.cond), p.ls1), l) { TableEntry(cases, TypeOfNode(s.cond), p.ls1, l); }
    var c :| Holds(cases, c) && l == LabelOf(p.ls1, ToCase(c.id));
    AddedCase(cases, Reserve(ls, 1), c);
    CasesContained(s.body, c);
    Marked(s.body, cx.(brk := ls.next + 1), p.ls2, fin, ToCase(c.id));
    assert LabelOf(fin, ToCase(c.id)) == LabelOf(p.ls1, ToCase(c.id));
    assert LowerList(s.body, cx.(brk := ls.next + 1), p.ls2).0 == p.body;
  }

  lemma {:induction false} JumpedSwitch(s: Stmt, cx: Context, ls: Labels, fin: Labels, inLoop: bool, inSwitch: bool, l: Label)
    requires s.Switch? && Extends(LowerOne(s, cx, ls).1, fin) && fin.ok && WellPlacedOne(s, inLoop, inSwitch)
    requires Jumps(LowerOne(s, cx, ls).0, l)
    ensures Marks(LowerOne(s, cx, ls).0, l) || LandsOne(s, cx, fin, inLoop, inSwitch, l)
    decreases s, 0
  {
    hide Extends, LowerList, Lower, LabelOf, Lands, LandsOne, AddCases, Table, Cases, DistinctCases;
    var k, p := ls.next, PartsOfSwitch(s, cx, ls);
    NodeLabelsGrow(s.cond, p.ls1.next);
    ExtendsNext(p.ls1, p.ls2);
    ListExtends(s.body, cx.(brk := k + 1), p.ls2);
    ExtendsThen(p.ls1, p.ls2, p.ls3);
    ExtendsThen(p.ls1, p.ls3, fin);
    var rest := Cat(p.body, One(F.Mark(k + 1)));
    CatJumps(p.body, One(F.Mark(k + 1)), l);
    CatJumps(One(p.dispatch), rest, l);
    if Jumps(One(p.dispatch), l) {
      DispatchJumps(s, cx, ls, fin, l);
    } else {
      Jumped(s.body, cx.(brk := k + 1), p.ls2, fin, inLoop, true, l);
      if Lands(s.body, cx.(brk := k + 1), fin, inLoop, true, l) {
        LandsPart(s, s.body, cx.(brk := k + 1), cx, fin, inLoop, true, inLoop, inSwitch, l);
      }
    }
  }

  // Every jump in the list of an accepted function has its label in the list.
  lemma {:induction false} ListJumpsLand(body: List<Stmt>, ret: Ty, l: Label)
    requires Accepted(body) && Jumps(FunctionList(body, ret).0, l)
    ensures Marks(FunctionList(body, ret).0, l)
  {
    var cx, ls, fin := Context(0, 0, ret), Labels(0, map[], true), FunctionList(body, ret).1;
    ExtendsNext(fin, fin);
    AcceptedLowers(body, ret);
    Jumped(body, cx, ls, fin, false, false, l);
    if name :| HasGoto(body, name) && l == LabelOf(fin, ToName(name)) {
      Marked(body, cx, ls, fin, ToName(name));
    }
  }
}
