// A whole function body: what the program means is what the machine code does.
module Functions {
  import opened Words
  import opened Lists
  import opened Ropes
  import opened Options
  import opened Ir
  import opened Ast
  import opened LowerNode
  import opened Statements
  import opened LowerStmt
  import opened StmtCorrect
  import opened LabelCounts
  import opened StmtCounts
  import opened Lowerable
  import opened Flow
  import opened GenFlat
  import opened Compiled
  import M = Machine
  import F = FlatIr

  predicate HasGoto(ss: List<Stmt>, name: string) {
    match ss
    case Nil => false
    case Cons(s, rest) => HasGotoOne(s, name) || HasGoto(rest, name)
  }

  predicate HasGotoOne(s: Stmt, name: string) {
    match s
    case Block(body) => HasGoto(body, name)
    case If(_, yes, no) => HasGoto(yes, name) || (no.Some? && HasGoto(no.value, name))
    case While(_, body) => HasGoto(body, name)
    case DoWhile(body, _) => HasGoto(body, name)
    case For(first, _, _, body) => HasGoto(first, name) || HasGoto(body, name)
    case Switch(_, body) => HasGoto(body, name)
    case Goto(x) => x == name
    case _ => false
  }

  // The parser accepts break only in a loop or a switch and continue only in a loop.
  predicate WellPlaced(ss: List<Stmt>, inLoop: bool, inSwitch: bool) {
    match ss
    case Nil => true
    case Cons(s, rest) => WellPlacedOne(s, inLoop, inSwitch) && WellPlaced(rest, inLoop, inSwitch)
  }

  predicate WellPlacedOne(s: Stmt, inLoop: bool, inSwitch: bool) {
    match s
    case Block(body) => WellPlaced(body, inLoop, inSwitch)
    case If(_, yes, no) => WellPlaced(yes, inLoop, inSwitch) && (no.Some? ==> WellPlaced(no.value, inLoop, inSwitch))
    case While(_, body) => WellPlaced(body, true, inSwitch)
    case DoWhile(body, _) => WellPlaced(body, true, inSwitch)
    case For(first, _, _, body) => WellPlaced(first, inLoop, inSwitch) && WellPlaced(body, true, inSwitch)
    case Switch(_, body) => WellPlaced(body, inLoop, true)
    case Break => inLoop || inSwitch
    case Continue => inLoop
    case _ => true
  }

  ghost predicate Placed(sig: Signal, inLoop: bool, inSwitch: bool) {
    (sig.Broke? ==> inLoop || inSwitch) && (sig.Continued? ==> inLoop)
  }

  // A thread leaves a list bound for a goto's name, or still without its target.
  ghost predicate Bounds(sig: Signal, mode: Mode, contained: bool, ss: List<Stmt>) {
    sig.Jumping? ==> (mode.Seek? && sig.to == mode.to && !contained) || (sig.to.ToName? && HasGoto(ss, sig.to.name))
  }

  ghost predicate BoundsOne(sig: Signal, mode: Mode, contained: bool, s: Stmt) {
    sig.Jumping? ==> (mode.Seek? && sig.to == mode.to && !contained) || (sig.to.ToName? && HasGotoOne(s, sig.to.name))
  }

  lemma {:induction false} ListSignals(ss: List<Stmt>, mode: Mode, env: Env, ret: Ty, fuel: nat, inLoop: bool, inSwitch: bool)
    requires WellPlaced(ss, inLoop, inSwitch)
    ensures Placed(ExecList(ss, mode, env, ret, fuel), inLoop, inSwitch)
    ensures Bounds(ExecList(ss, mode, env, ret, fuel), mode, mode.Seek? && Contains(ss, mode.to), ss)
    decreases fuel, ss
  {
    match ss {
      case Nil =>
      case Cons(s, rest) =>
        OneSignals(s, mode, env, ret, fuel, inLoop, inSwitch);
        var sig := Exec(s, mode, env, ret, fuel);
        if sig.Done? { ListSignals(rest, Run(sig.m), env, ret, fuel, inLoop, inSwitch); }
        if sig.Jumping? { ListSignals(rest, Seek(sig.to, sig.m), env, ret, fuel, inLoop, inSwitch); }
    }
  }

  lemma {:induction false} OneSignals(s: Stmt, mode: Mode, env: Env, ret: Ty, fuel: nat, inLoop: bool, inSwitch: bool)
    requires WellPlacedOne(s, inLoop, inSwitch)
    ensures Placed(Exec(s, mode, env, ret, fuel), inLoop, inSwitch)
    ensures BoundsOne(Exec(s, mode, env, ret, fuel), mode, mode.Seek? && ContainsOne(s, mode.to), s)
    decreases fuel, s, 3
  {
    match s {
      case Block(body) => ListSignals(body, mode, env, ret, fuel, inLoop, inSwitch);
      case If(cond, yes, no) =>
        if mode.Seek? { ThenSignals(s, mode, env, ret, fuel, inLoop, inSwitch); }
        else {
          var o := Meaning(cond, env, mode.m);
          if o.Means? {
            if o.value != 0 { ThenSignals(s, Run(o.mem), env, ret, fuel, inLoop, inSwitch); }
            else if no.Some? { ListSignals(no.value, Run(o.mem), env, ret, fuel, inLoop, inSwitch); }
          }
        }
      case While(cond, _) =>
        if mode.Seek? { BodySignals(s, mode, env, ret, fuel, inLoop, inSwitch); }
        else {
          var o := Meaning(cond, env, mode.m);
          if o.Means? && o.value != 0 { BodySignals(s, Run(o.mem), env, ret, fuel, inLoop, inSwitch); }
        }
      case DoWhile(_, _) => BodySignals(s, mode, env, ret, fuel, inLoop, inSwitch);
      case For(first, _, _, _) =>
        ListSignals(first, mode, env, ret, fuel, inLoop, inSwitch);
        var sig := ExecList(first, mode, env, ret, fuel);
        if sig.Done? { ForSignals(s, Run(sig.m), env, ret, fuel, inLoop, inSwitch); }
        if sig.Jumping? { ForSignals(s, Seek(sig.to, sig.m), env, ret, fuel, inLoop, inSwitch); }
      case Switch(_, _) => SwitchSignals(s, mode, env, ret, fuel, inLoop, inSwitch);
      case _ =>
    }
  }

  lemma {:induction false} ThenSignals(s: Stmt, mode: Mode, env: Env, ret: Ty, fuel: nat, inLoop: bool, inSwitch: bool)
    requires s.If? && WellPlacedOne(s, inLoop, inSwitch)
    ensures Placed(ExecThen(s, mode, env, ret, fuel), inLoop, inSwitch)
    ensures BoundsOne(ExecThen(s, mode, env, ret, fuel), mode, mode.Seek? && ContainsOne(s, mode.to), s)
    decreases fuel, s, 2
  {
    ListSignals(s.yes, mode, env, ret, fuel, inLoop, inSwitch);
    var sig := ExecList(s.yes, mode, env, ret, fuel);
    if sig.Jumping? && s.no.Some? { ListSignals(s.no.value, Seek(sig.to, sig.m), env, ret, fuel, inLoop, inSwitch); }
  }

  lemma {:induction false} BodySignals(s: Stmt, mode: Mode, env: Env, ret: Ty, fuel: nat, inLoop: bool, inSwitch: bool)
    requires (s.While? || s.DoWhile?) && WellPlacedOne(s, inLoop, inSwitch)
    ensures Placed(ExecBody(s, mode, env, ret, fuel), inLoop, inSwitch)
    ensures BoundsOne(ExecBody(s, mode, env, ret, fuel), mode, mode.Seek? && ContainsOne(s, mode.to), s)
    decreases fuel, s, 2
  {
    ListSignals(s.body, mode, env, ret, fuel, true, inSwitch);
    var sig := ExecList(s.body, mode, env, ret, fuel);
    if sig.Done? || sig.Continued? { AgainSignals(s, sig.m, env, ret, fuel, inLoop, inSwitch); }
  }

  lemma {:induction false} AgainSignals(s: Stmt, m: Mem, env: Env, ret: Ty, fuel: nat, inLoop: bool, inSwitch: bool)
    requires (s.While? || s.DoWhile?) && WellPlacedOne(s, inLoop, inSwitch)
    ensures Placed(Again(s, m, env, ret, fuel), inLoop, inSwitch)
    ensures BoundsOne(Again(s, m, env, ret, fuel), Run(m), false, s)
    decreases fuel, s, 1
  {
    if fuel > 0 {
      if s.While? {
        OneSignals(s, Run(m), env, ret, fuel - 1, inLoop, inSwitch);
      } else {
        var o := Meaning(s.cond, env, m);
        if o.Means? { OneSignals(s, Run(o.mem), env, ret, fuel - 1, inLoop, inSwitch); }
      }
    }
  }

  lemma {:induction false} ForSignals(s: Stmt, mode: Mode, env: Env, ret: Ty, fuel: nat, inLoop: bool, inSwitch: bool)
    requires s.For? && WellPlacedOne(s, inLoop, inSwitch)
    ensures Placed(ExecFor(s, mode, env, ret, fuel), inLoop, inSwitch)
    ensures BoundsOne(ExecFor(s, mode, env, ret, fuel), mode, mode.Seek? && Contains(s.body, mode.to), s)
    decreases fuel, s, 2
  {
    if mode.Seek? { ForBodySignals(s, mode, env, ret, fuel, inLoop, inSwitch); }
    else if s.test.None? { ForBodySignals(s, mode, env, ret, fuel, inLoop, inSwitch); }
    else {
      var o := Meaning(s.test.value, env, mode.m);
      if o.Means? { ForBodySignals(s, Run(o.mem), env, ret, fuel, inLoop, inSwitch); }
    }
  }

  lemma {:induction false} ForBodySignals(s: Stmt, mode: Mode, env: Env, ret: Ty, fuel: nat, inLoop: bool, inSwitch: bool)
    requires s.For? && WellPlacedOne(s, inLoop, inSwitch)
    ensures Placed(ForBody(s, mode, env, ret, fuel), inLoop, inSwitch)
    ensures BoundsOne(ForBody(s, mode, env, ret, fuel), mode, mode.Seek? && Contains(s.body, mode.to), s)
    decreases fuel, s, 1
  {
    ListSignals(s.body, mode, env, ret, fuel, true, inSwitch);
    var sig := ExecList(s.body, mode, env, ret, fuel);
    if sig.Done? || sig.Continued? { TurnSignals(s, sig.m, env, ret, fuel, inLoop, inSwitch); }
  }

  lemma {:induction false} TurnSignals(s: Stmt, m: Mem, env: Env, ret: Ty, fuel: nat, inLoop: bool, inSwitch: bool)
    requires s.For? && WellPlacedOne(s, inLoop, inSwitch)
    ensures Placed(NextTurn(s, m, env, ret, fuel), inLoop, inSwitch)
    ensures BoundsOne(NextTurn(s, m, env, ret, fuel), Run(m), false, s)
    decreases fuel, s, 0
  {
    if fuel > 0 {
      if s.step.None? {
        ForSignals(s, Run(m), env, ret, fuel - 1, inLoop, inSwitch);
      } else {
        var o := Effect(s.step.value, env, m);
        if o.Means? { ForSignals(s, Run(o.mem), env, ret, fuel - 1, inLoop, inSwitch); }
      }
    }
  }

  lemma {:induction false} SwitchSignals(s: Stmt, mode: Mode, env: Env, ret: Ty, fuel: nat, inLoop: bool, inSwitch: bool)
    requires s.Switch? && WellPlacedOne(s, inLoop, inSwitch)
    ensures Placed(Exec(s, mode, env, ret, fuel), inLoop, inSwitch)
    ensures BoundsOne(Exec(s, mode, env, ret, fuel), mode, mode.Seek? && ContainsOne(s, mode.to), s)
    decreases fuel, s, 2
  {
    if mode.Seek? { ListSignals(s.body, mode, env, ret, fuel, inLoop, true); }
    else {
      var o := Meaning(s.cond, env, mode.m);
      if o.Means? {
        var cases := Cases(s.body);
        var chosen := Select(cases, Promoted(TypeOfNode(s.cond)), o.value, DefaultOf(cases));
        if chosen.Some? {
          ListSignals(s.body, Seek(ToCase(chosen.value), o.mem), env, ret, fuel, inLoop, true);
          ChosenIsContained(s.body, Promoted(TypeOfNode(s.cond)), o.value);
        }
      }
    }
  }

  lemma {:induction false} ChosenIsContained(body: List<Stmt>, ty: Ty, v: int)
    ensures var chosen := Select(Cases(body), ty, v, DefaultOf(Cases(body)));
            chosen.Some? ==> Contains(body, ToCase(chosen.value))
  {
    var cases := Cases(body);
    var chosen := Select(cases, ty, v, DefaultOf(cases));
    SelectedIsCase(cases, ty, v, DefaultOf(cases));
    DefaultIsCase(cases);
    if chosen.Some? {
      var c :| Holds(cases, c) && c.id == chosen.value;
      CasesContained(body, c);
    }
  }

  lemma {:induction false} HoldsAppend(xs: List<CaseEntry>, ys: List<CaseEntry>, c: CaseEntry)
    ensures Holds(Append(xs, ys), c) <==> Holds(xs, c) || Holds(ys, c)
    decreases xs
  {
    if xs.Cons? { HoldsAppend(xs.tail, ys, c); }
  }

  lemma {:induction false} CasesContained(ss: List<Stmt>, c: CaseEntry)
    requires Holds(Cases(ss), c)
    ensures Contains(ss, ToCase(c.id))
    decreases ss
  {
    match ss {
      case Cons(s, rest) =>
        HoldsAppend(CasesOf(s), Cases(rest), c);
        if Holds(CasesOf(s), c) { CasesContainedOne(s, c); } else { CasesContained(rest, c); }
    }
  }

  lemma {:induction false} CasesContainedOne(s: Stmt, c: CaseEntry)
    requires Holds(CasesOf(s), c)
    ensures ContainsOne(s, ToCase(c.id))
    decreases s
  {
    match s {
      case Block(body) => CasesContained(body, c);
      case If(_, yes, no) =>
        if no.Some? { HoldsAppend(Cases(yes), Cases(no.value), c); }
        if Holds(Cases(yes), c) { CasesContained(yes, c); } else if no.Some? { CasesContained(no.value, c); }
      case While(_, body) => CasesContained(body, c);
      case DoWhile(body, _) => CasesContained(body, c);
      case For(first, _, _, body) =>
        HoldsAppend(Cases(first), Cases(body), c);
        if Holds(Cases(first), c) { CasesContained(first, c); } else { CasesContained(body, c); }
      case _ =>
    }
  }

  // The flat list of a function body, and the labels it ends up with.
  function FunctionList(body: List<Stmt>, ret: Ty): (r: (FlatCode, Labels)) {
    LowerList(body, Context(0, 0, ret), Labels(0, map[], true))
  }

  // What is accepted: well-typed statements, every break, continue, case and goto
  // with somewhere to go, and no label and no case twice.
  ghost predicate Accepted(body: List<Stmt>) {
    && Lowers(body)
    && WellTypedStmts(body)
    && WellPlaced(body, false, false)
    && (forall t :: DefCount(body, t) <= 1)
    && (forall name :: HasGoto(body, name) ==> Contains(body, ToName(name)))
  }

  lemma {:induction false} AcceptedLowers(body: List<Stmt>, ret: Ty)
    requires Accepted(body)
    ensures FunctionList(body, ret).1.ok
  {
    hide LowerList, Lowers, WellTypedStmts, WellPlaced, DefCount;
    LowersWhen(body, Context(0, 0, ret));
  }

  // Every target a list contains has a label in the end.
  lemma {:induction false} Mentioned(ss: List<Stmt>, cx: Context, ls: Labels, fin: Labels, t: Target)
    requires Extends(LowerList(ss, cx, ls).1, fin) && fin.ok && Contains(ss, t)
    ensures t in fin.of
    decreases ss
  {
    hide Extends, LowerOne, ContainsOne;
    match ss {
      case Cons(s, rest) =>
        var ls1 := LowerOne(s, cx, ls).1;
        ListExtends(rest, cx, ls1);
        ExtendsThen(ls1, LowerList(rest, cx, ls1).1, fin);
        if ContainsOne(s, t) { MentionedOne(s, cx, ls, fin, t); } else { Mentioned(rest, cx, ls1, fin, t); }
    }
  }

  lemma {:induction false} Known(ls: Labels, fin: Labels, t: Target)
    requires Extends(ls, fin) && t in ls.of
    ensures t in fin.of
  {
  }

  lemma {:induction false} MentionedOne(s: Stmt, cx: Context, ls: Labels, fin: Labels, t: Target)
    requires Extends(LowerOne(s, cx, ls).1, fin) && fin.ok && ContainsOne(s, t)
    ensures t in fin.of
    decreases s, 1
  {
    hide LowerList, Lower, AddCases, Table;
    match s {
      case Block(body) => Mentioned(body, cx, ls, fin, t);
      case If(_, _, _) => MentionedIf(s, cx, ls, fin, t);
      case While(cond, body) =>
        Mentioned(body, cx.(brk := ls.next + 2, cont := ls.next + 1), ls.(next := Lower(cond, ls.next + 2).1), fin, t);
      case DoWhile(body, cond) =>
        var cx1 := cx.(brk := ls.next + 3, cont := ls.next + 2);
        var ls1 := LowerList(body, cx1, Reserve(ls, 3)).1;
        NodeLabelsGrow(cond, ls1.next);
        ExtendsNext(ls1, LowerOne(s, cx, ls).1);
        ExtendsThen(ls1, LowerOne(s, cx, ls).1, fin);
        Mentioned(body, cx1, Reserve(ls, 3), fin, t);
      case For(_, _, _, _) => MentionedFor(s, cx, ls, fin, t);
      case Switch(_, body) => Mentioned(body, cx.(brk := ls.next + 1), PartsOfSwitch(s, cx, ls).ls2, fin, t);
      case Case(_, _) => Known(LowerOne(s, cx, ls).1, fin, t);
      case Default(_) => Known(LowerOne(s, cx, ls).1, fin, t);
      case Label(_) => Known(LowerOne(s, cx, ls).1, fin, t);
      case _ =>
    }
  }

  lemma {:induction false} MentionedIf(s: Stmt, cx: Context, ls: Labels, fin: Labels, t: Target)
    requires s.If? && Extends(LowerOne(s, cx, ls).1, fin) && fin.ok && ContainsOne(s, t)
    ensures t in fin.of
    decreases s, 0
  {
    hide Extends, LowerList, Lower;
    var n := Lower(s.cond, ls.next + 3).1;
    var ls2 := LowerList(s.yes, cx, ls.(next := n)).1;
    if s.no.Some? {
      ListExtends(s.no.value, cx, ls2);
      ExtendsThen(ls2, LowerList(s.no.value, cx, ls2).1, fin);
    }
    if Contains(s.yes, t) { Mentioned(s.yes, cx, ls.(next := n), fin, t); } else { Mentioned(s.no.value, cx, ls2, fin, t); }
  }

  lemma {:induction false} MentionedFor(s: Stmt, cx: Context, ls: Labels, fin: Labels, t: Target)
    requires s.For? && Extends(LowerOne(s, cx, ls).1, fin) && fin.ok && ContainsOne(s, t)
    ensures t in fin.of
    decreases s, 0
  {
    hide Extends, LowerList, Lower, Parts, LowerOne;
    var p := Parts(s, cx, ls);
    ForFirst(s, cx, ls);
    ForShape(s, cx, ls);
    ForNexts(s, cx, ls, 0);
    ExtendsNext(p.ls1, p.ls2);
    ListExtends(s.body, Inside(cx, ls.next), p.ls2);
    ExtendsNext(p.ls3, p.ls4);
    ExtendsThen(p.ls3, p.ls4, fin);
    ExtendsThen(p.ls1, p.ls2, p.ls3);
    ExtendsThen(p.ls1, p.ls3, fin);
    if Contains(s.first, t) { Mentioned(s.first, cx, Reserve(ls, 3), fin, t); }
    else { Mentioned(s.body, Inside(cx, ls.next), p.ls2, fin, t); }
  }

  // A label belongs to one target at most, so it is hit as often as that target
  // is given a place.
  lemma {:induction false} HitsAre(ss: List<Stmt>, fin: Labels, l: Label, t: Target)
    requires Valid(fin) && t in fin.of && fin.of[t] == l
    ensures Hits(ss, fin, l) == DefCount(ss, t)
    decreases ss
  {
    match ss
    case Nil =>
    case Cons(s, rest) => HitsAreOne(s, fin, l, t); HitsAre(rest, fin, l, t);
  }

  lemma {:induction false} HitsAreOne(s: Stmt, fin: Labels, l: Label, t: Target)
    requires Valid(fin) && t in fin.of && fin.of[t] == l
    ensures HitsOf(s, fin, l) == DefCountOf(s, t)
    decreases s
  {
    match s {
      case Block(body) => HitsAre(body, fin, l, t);
      case If(_, yes, no) =>
        HitsAre(yes, fin, l, t);
        if no.Some? { HitsAre(no.value, fin, l, t); }
      case While(_, body) => HitsAre(body, fin, l, t);
      case DoWhile(body, _) => HitsAre(body, fin, l, t);
      case For(first, _, _, body) => HitsAre(first, fin, l, t); HitsAre(body, fin, l, t);
      case Switch(_, body) => HitsAre(body, fin, l, t);
      case _ =>
    }
  }

  lemma {:induction false} NoHits(ss: List<Stmt>, fin: Labels, l: Label)
    requires !OfTarget(fin, l) && forall t :: Contains(ss, t) ==> t in fin.of
    ensures Hits(ss, fin, l) == 0
    decreases ss
  {
    match ss {
      case Nil =>
      case Cons(s, rest) =>
        forall t | ContainsOne(s, t) ensures t in fin.of { assert Contains(ss, t); }
        NoHitsOne(s, fin, l);
        forall t | Contains(rest, t) ensures t in fin.of { assert Contains(ss, t); }
        NoHits(rest, fin, l);
    }
  }

  lemma {:induction false} NoHitsOne(s: Stmt, fin: Labels, l: Label)
    requires !OfTarget(fin, l) && forall t :: ContainsOne(s, t) ==> t in fin.of
    ensures HitsOf(s, fin, l) == 0
    decreases s
  {
    match s {
      case Block(body) => PartNoHits(s, body, fin, l);
      case If(_, yes, no) =>
        PartNoHits(s, yes, fin, l);
        if no.Some? { PartNoHits(s, no.value, fin, l); }
      case While(_, body) => PartNoHits(s, body, fin, l);
      case DoWhile(body, _) => PartNoHits(s, body, fin, l);
      case For(first, _, _, body) => PartNoHits(s, first, fin, l); PartNoHits(s, body, fin, l);
      case Switch(_, body) => PartNoHits(s, body, fin, l);
      case Case(id, _) => assert ContainsOne(s, ToCase(id));
      case Default(id) => assert ContainsOne(s, ToCase(id));
      case Label(name) => assert ContainsOne(s, ToName(name));
      case _ =>
    }
  }

  lemma {:induction false} PartNoHits(s: Stmt, ss: List<Stmt>, fin: Labels, l: Label)
    requires ss < s && !OfTarget(fin, l) && forall t :: ContainsOne(s, t) ==> t in fin.of
    requires forall t :: Contains(ss, t) ==> ContainsOne(s, t)
    ensures Hits(ss, fin, l) == 0
    decreases s, 0
  {
    NoHits(ss, fin, l);
  }

  // No label is defined twice anywhere in a function, expressions included.
  lemma {:induction false} FunctionLabelsUnique(body: List<Stmt>, ret: Ty, l: Label)
    requires Accepted(body)
    ensures ListCount(FunctionList(body, ret).0, l) <= 1
  {
    hide Extends, LowerList, Fresh, Hits, DefCount, ListCount, Lowers;
    AcceptedLowers(body, ret);
    var ls, fin := Labels(0, map[], true), FunctionList(body, ret).1;
    StartsValid(ls);
    ListExtends(body, Context(0, 0, ret), ls);
    ExtendsNext(fin, fin);
    CountStmts(body, Context(0, 0, ret), ls, fin, l);
    if OfTarget(fin, l) {
      var t :| t in fin.of && fin.of[t] == l;
      HitsAre(body, fin, l, t);
      FreshUnnamed(ls.next, fin, l);
    } else {
      forall t | Contains(body, t) ensures t in fin.of { Mentioned(body, Context(0, 0, ret), ls, fin, t); }
      NoHits(body, fin, l);
      FreshUnnamed(ls.next, fin, l);
    }
  }

  lemma {:induction false} StartsValid(ls: Labels)
    requires ls.of == map[]
    ensures Valid(ls)
  {
  }

  lemma {:induction false} FreshUnnamed(a: nat, fin: Labels, l: Label)
    ensures Fresh(a, fin.next, fin, l) <= if OfTarget(fin, l) then 0 else 1
  {
  }
}
