// Which bodies the lowering takes without an error.
module Lowerable {
  import opened Lists
  import opened Ropes
  import opened Options
  import opened Ast
  import opened LowerNode
  import opened Statements
  import opened LowerStmt
  import opened StmtCorrect
  import opened LabelCounts

  // How often a target is given a place.
  function DefCount(ss: List<Stmt>, t: Target): nat {
    match ss
    case Nil => 0
    case Cons(s, rest) => DefCountOf(s, t) + DefCount(rest, t)
  }

  function DefCountOf(s: Stmt, t: Target): nat {
    match s
    case Block(body) => DefCount(body, t)
    case If(_, yes, no) => DefCount(yes, t) + (if no.Some? then DefCount(no.value, t) else 0)
    case While(_, body) => DefCount(body, t)
    case DoWhile(body, _) => DefCount(body, t)
    case For(first, _, _, body) => DefCount(first, t) + DefCount(body, t)
    case Switch(_, body) => DefCount(body, t)
    case Case(id, _) => One01(t == ToCase(id))
    case Default(id) => One01(t == ToCase(id))
    case Label(name) => One01(t == ToName(name))
    case _ => 0
  }

  // Every case and every default lies in a switch.
  predicate CasesPlaced(ss: List<Stmt>) {
    match ss
    case Nil => true
    case Cons(s, rest) => CasesPlacedOne(s) && CasesPlaced(rest)
  }

  predicate CasesPlacedOne(s: Stmt) {
    match s
    case Block(body) => CasesPlaced(body)
    case If(_, yes, no) => CasesPlaced(yes) && (no.Some? ==> CasesPlaced(no.value))
    case While(_, body) => CasesPlaced(body)
    case DoWhile(body, _) => CasesPlaced(body)
    case For(first, _, _, body) => CasesPlaced(first) && CasesPlaced(body)
    case Case(_, _) => false
    case Default(_) => false
    case _ => true
  }

  function Entry(cases: List<CaseEntry>, i: nat): CaseEntry
    requires i < Len(cases)
  {
    if i == 0 then cases.head else Entry(cases.tail, i - 1)
  }

  // No two cases of a switch have the same value, and no two are defaults.
  ghost predicate Apart(cases: List<CaseEntry>) {
    forall i, j :: 0 <= i < j < Len(cases) ==> Entry(cases, i).value != Entry(cases, j).value
  }

  // So it is in every switch, however deep.
  ghost predicate SwitchesApart(ss: List<Stmt>) {
    match ss
    case Nil => true
    case Cons(s, rest) => SwitchesApartOne(s) && SwitchesApart(rest)
  }

  ghost predicate SwitchesApartOne(s: Stmt) {
    match s
    case Block(body) => SwitchesApart(body)
    case If(_, yes, no) => SwitchesApart(yes) && (no.Some? ==> SwitchesApart(no.value))
    case While(_, body) => SwitchesApart(body)
    case DoWhile(body, _) => SwitchesApart(body)
    case For(first, _, _, body) => SwitchesApart(first) && SwitchesApart(body)
    case Switch(_, body) => Apart(Cases(body)) && SwitchesApart(body)
    case _ => true
  }

  // A body the lowering has no objection to.
  ghost predicate Lowers(body: List<Stmt>) { CasesPlaced(body) && SwitchesApart(body) }

  // The lowering's own check.

  ghost predicate Somewhere(cases: List<CaseEntry>, value: Option<int>) {
    exists i :: 0 <= i < Len(cases) && Entry(cases, i).value == value
  }

  lemma {:induction false} SomewhereFirst(cases: List<CaseEntry>, value: Option<int>)
    requires cases.Cons?
    ensures Somewhere(cases, value) <==> cases.head.value == value || Somewhere(cases.tail, value)
  {
    assert Entry(cases, 0) == cases.head;
    if Somewhere(cases.tail, value) {
      var i :| 0 <= i < Len(cases.tail) && Entry(cases.tail, i).value == value;
      assert Entry(cases, i + 1) == Entry(cases.tail, i);
    }
    if Somewhere(cases, value) {
      var i :| 0 <= i < Len(cases) && Entry(cases, i).value == value;
      if i > 0 { assert Entry(cases, i) == Entry(cases.tail, i - 1); }
    }
  }

  lemma {:induction false} FoundByValue(cases: List<CaseEntry>, value: int)
    ensures HasValue(cases, value) <==> Somewhere(cases, Some(value))
    ensures DefaultOf(cases).Some? <==> Somewhere(cases, None)
    decreases cases
  {
    hide Somewhere;
    if cases.Cons? {
      SomewhereFirst(cases, Some(value));
      SomewhereFirst(cases, None);
      FoundByValue(cases.tail, value);
    } else {
      NotInNothing(Some(value));
      NotInNothing(None);
    }
  }

  lemma {:induction false} NotInNothing(value: Option<int>)
    ensures !Somewhere(Nil, value)
  {
  }

  lemma {:induction false} DistinctIsApart(cases: List<CaseEntry>)
    ensures DistinctCases(cases) <==> Apart(cases)
    decreases cases
  {
    if cases.Cons? {
      hide Apart, Somewhere;
      var c, rest := cases.head, cases.tail;
      DistinctIsApart(rest);
      FoundByValue(rest, if c.value.Some? then c.value.value else 0);
      ApartFirst(cases);
    }
  }

  lemma {:induction false} ApartFirst(cases: List<CaseEntry>)
    requires cases.Cons?
    ensures Apart(cases) <==> Apart(cases.tail) && !Somewhere(cases.tail, cases.head.value)
  {
    var c, rest := cases.head, cases.tail;
    assert Entry(cases, 0) == c;
    if Apart(cases) {
      forall i, j | 0 <= i < j < Len(rest) ensures Entry(rest, i).value != Entry(rest, j).value {
        assert Entry(cases, i + 1) == Entry(rest, i) && Entry(cases, j + 1) == Entry(rest, j);
      }
      forall i | 0 <= i < Len(rest) ensures Entry(rest, i).value != c.value { assert Entry(cases, i + 1) == Entry(rest, i); }
    }
    if Apart(rest) && !Somewhere(rest, c.value) {
      forall i, j | 0 <= i < j < Len(cases) ensures Entry(cases, i).value != Entry(cases, j).value {
        assert Entry(cases, j) == Entry(rest, j - 1);
        if i > 0 { assert Entry(cases, i) == Entry(rest, i - 1); }
      }
    }
  }

  // How often a target is among the cases of a list.
  function CaseCount(cases: List<CaseEntry>, t: Target): nat {
    match cases
    case Nil => 0
    case Cons(c, rest) => One01(t == ToCase(c.id)) + CaseCount(rest, t)
  }

  lemma {:induction false} CountAppend(xs: List<CaseEntry>, ys: List<CaseEntry>, t: Target)
    ensures CaseCount(Append(xs, ys), t) == CaseCount(xs, t) + CaseCount(ys, t)
    decreases xs
  {
    if xs.Cons? { CountAppend(xs.tail, ys, t); }
  }

  // What matters of a piece of a body: where targets are given a place in it, the
  // cases that belong to a switch around it, and its own switches.
  ghost predicate Ready(defs: Target -> nat, cases: Target -> nat, ls: Labels) {
    forall t: Target :: t.ToCase? ==> cases(t) <= defs(t) <= 1 && (cases(t) < defs(t) ==> t !in ls.of)
  }

  // The piece is lowered without an error exactly when the switch around it has
  // entered its cases and its own switches are in order; it enters the cases of
  // its own switches.
  ghost predicate Goes(defs: Target -> nat, cases: Target -> nat, apart: bool, ls: Labels, out: Labels) {
    && (out.ok <==> ls.ok && apart && forall t: Target :: t.ToCase? && cases(t) > 0 ==> t in ls.of)
    && (forall t: Target :: t.ToCase? && t in ls.of ==> t in out.of)
    && (forall t: Target :: t.ToCase? && t in out.of && t !in ls.of ==> cases(t) < defs(t))
  }

  function Defs(ss: List<Stmt>): Target -> nat { t => DefCount(ss, t) }
  function DefsOf(s: Stmt): Target -> nat { t => DefCountOf(s, t) }
  function Outer(ss: List<Stmt>): Target -> nat { t => CaseCount(Cases(ss), t) }
  function OuterOf(s: Stmt): Target -> nat { t => CaseCount(CasesOf(s), t) }
  function Both(a: Target -> nat, b: Target -> nat): Target -> nat { t => a(t) + b(t) }

  // One piece after the other.
  lemma {:induction false} BothReady(d1: Target -> nat, c1: Target -> nat, a1: bool, d2: Target -> nat, c2: Target -> nat,
                                     ls: Labels, ls1: Labels)
    requires Ready(Both(d1, d2), Both(c1, c2), ls) && Goes(d1, c1, a1, ls, ls1)
    requires forall t: Target :: t.ToCase? ==> c1(t) <= d1(t) && c2(t) <= d2(t)
    ensures Ready(d2, c2, ls1)
  {
    forall t: Target | t.ToCase? ensures d2(t) <= 1 && (c2(t) < d2(t) ==> t !in ls1.of) {
      assert Both(d1, d2)(t) == d1(t) + d2(t) && Both(c1, c2)(t) == c1(t) + c2(t);
    }
  }

  lemma {:induction false} BothGo(d1: Target -> nat, c1: Target -> nat, a1: bool, d2: Target -> nat, c2: Target -> nat, a2: bool,
                                  ls: Labels, ls1: Labels, ls2: Labels)
    requires Ready(Both(d1, d2), Both(c1, c2), ls) && Goes(d1, c1, a1, ls, ls1) && Goes(d2, c2, a2, ls1, ls2)
    requires forall t: Target :: t.ToCase? ==> c1(t) <= d1(t) && c2(t) <= d2(t)
    ensures Goes(Both(d1, d2), Both(c1, c2), a1 && a2, ls, ls2)
  {
    forall t: Target | t.ToCase? ensures Both(c1, c2)(t) == c1(t) + c2(t) && Both(d1, d2)(t) == d1(t) + d2(t) {}
    if ls1.ok {
      forall t: Target | t.ToCase? && c2(t) > 0 && t in ls1.of ensures t in ls.of {
        assert d1(t) == c1(t) || Both(d1, d2)(t) > 1;
      }
    }
  }

  // Moving the counter on changes nothing here.
  lemma {:induction false} Counter(d: Target -> nat, c: Target -> nat, a: bool, ls: Labels, out: Labels, ls': Labels, out': Labels)
    requires ls'.of == ls.of && ls'.ok == ls.ok && out'.of == out.of && out'.ok == out.ok
    ensures Goes(d, c, a, ls, out) == Goes(d, c, a, ls', out') && Ready(d, c, ls) == Ready(d, c, ls')
  {
  }

  // Only the counts matter.
  lemma {:induction false} SameCounts(d: Target -> nat, c: Target -> nat, a: bool, d': Target -> nat, c': Target -> nat, ls: Labels, out: Labels)
    requires forall t: Target :: t.ToCase? ==> d(t) == d'(t) && c(t) == c'(t)
    ensures Goes(d, c, a, ls, out) == Goes(d', c', a, ls, out) && Ready(d, c, ls) == Ready(d', c', ls)
  {
  }

  // Every case of a piece has its place in it.
  lemma {:induction false} CasesHavePlaces(ss: List<Stmt>, t: Target)
    requires t.ToCase?
    ensures CaseCount(Cases(ss), t) <= DefCount(ss, t)
    decreases ss
  {
    if ss.Cons? {
      CountAppend(CasesOf(ss.head), Cases(ss.tail), t);
      CasesHavePlacesOne(ss.head, t);
      CasesHavePlaces(ss.tail, t);
    }
  }

  lemma {:induction false} CasesHavePlacesOne(s: Stmt, t: Target)
    requires t.ToCase?
    ensures CaseCount(CasesOf(s), t) <= DefCountOf(s, t)
    decreases s
  {
    match s {
      case Block(body) => CasesHavePlaces(body, t);
      case If(_, yes, no) =>
        CasesHavePlaces(yes, t);
        if no.Some? {
          CasesHavePlaces(no.value, t);
          CountAppend(Cases(yes), Cases(no.value), t);
        }
      case While(_, body) => CasesHavePlaces(body, t);
      case DoWhile(body, _) => CasesHavePlaces(body, t);
      case For(first, _, _, body) =>
        CasesHavePlaces(first, t);
        CasesHavePlaces(body, t);
        CountAppend(Cases(first), Cases(body), t);
      case _ =>
    }
  }

  lemma {:induction false} ListGoes(ss: List<Stmt>, cx: Context, ls: Labels)
    requires Ready(Defs(ss), Outer(ss), ls)
    ensures Goes(Defs(ss), Outer(ss), SwitchesApart(ss), ls, LowerList(ss, cx, ls).1)
    decreases ss, 0
  {
    hide LowerOne, Cases, CasesOf, DefCountOf, SwitchesApartOne;
    match ss {
      case Nil => NoCases();
      case Cons(s, rest) =>
        var ls1 := LowerOne(s, cx, ls).1;
        HeadAndTail(s, rest);
        SameCounts(Defs(ss), Outer(ss), SwitchesApart(ss), Both(DefsOf(s), Defs(rest)), Both(OuterOf(s), Outer(rest)), ls, ls);
        FirstReady(DefsOf(s), OuterOf(s), Defs(rest), Outer(rest), ls);
        OneGoes(s, cx, ls);
        BothReady(DefsOf(s), OuterOf(s), SwitchesApartOne(s), Defs(rest), Outer(rest), ls, ls1);
        ListGoes(rest, cx, ls1);
        BothGo(DefsOf(s), OuterOf(s), SwitchesApartOne(s), Defs(rest), Outer(rest), SwitchesApart(rest), ls, ls1, LowerList(rest, cx, ls1).1);
        SameCounts(Defs(ss), Outer(ss), SwitchesApart(ss), Both(DefsOf(s), Defs(rest)), Both(OuterOf(s), Outer(rest)), ls, LowerList(ss, cx, ls).1);
    }
  }

  lemma {:induction false} NoCases()
    ensures Cases(Nil) == Nil
  {
  }

  lemma {:induction false} HeadAndTail(s: Stmt, rest: List<Stmt>)
    ensures forall t: Target :: t.ToCase? ==>
              && Defs(Cons(s, rest))(t) == Both(DefsOf(s), Defs(rest))(t) && Outer(Cons(s, rest))(t) == Both(OuterOf(s), Outer(rest))(t)
              && OuterOf(s)(t) <= DefsOf(s)(t) && Outer(rest)(t) <= Defs(rest)(t)
  {
    forall t: Target | t.ToCase?
      ensures CaseCount(Cases(Cons(s, rest)), t) == CaseCount(CasesOf(s), t) + CaseCount(Cases(rest), t)
      ensures CaseCount(CasesOf(s), t) <= DefCountOf(s, t) && CaseCount(Cases(rest), t) <= DefCount(rest, t)
    {
      CountAppend(CasesOf(s), Cases(rest), t);
      CasesHavePlacesOne(s, t);
      CasesHavePlaces(rest, t);
    }
  }

  lemma {:induction false} TwoLists(xs: List<Stmt>, ys: List<Stmt>)
    ensures forall t: Target :: t.ToCase? ==>
              && CaseCount(Append(Cases(xs), Cases(ys)), t) == Both(Outer(xs), Outer(ys))(t)
              && Outer(xs)(t) <= Defs(xs)(t) && Outer(ys)(t) <= Defs(ys)(t)
  {
    forall t: Target | t.ToCase?
      ensures CaseCount(Append(Cases(xs), Cases(ys)), t) == CaseCount(Cases(xs), t) + CaseCount(Cases(ys), t)
      ensures CaseCount(Cases(xs), t) <= DefCount(xs, t) && CaseCount(Cases(ys), t) <= DefCount(ys, t)
    {
      CountAppend(Cases(xs), Cases(ys), t);
      CasesHavePlaces(xs, t);
      CasesHavePlaces(ys, t);
    }
  }

  lemma {:induction false} FirstReady(d1: Target -> nat, c1: Target -> nat, d2: Target -> nat, c2: Target -> nat, ls: Labels)
    requires Ready(Both(d1, d2), Both(c1, c2), ls)
    requires forall t: Target :: t.ToCase? ==> c1(t) <= d1(t) && c2(t) <= d2(t)
    ensures Ready(d1, c1, ls)
  {
    forall t: Target | t.ToCase? ensures d1(t) <= 1 && (c1(t) < d1(t) ==> t !in ls.of) {
      assert Both(d1, d2)(t) == d1(t) + d2(t) && Both(c1, c2)(t) == c1(t) + c2(t);
    }
  }

  lemma {:induction false} OneGoes(s: Stmt, cx: Context, ls: Labels)
    requires Ready(DefsOf(s), OuterOf(s), ls)
    ensures Goes(DefsOf(s), OuterOf(s), SwitchesApartOne(s), ls, LowerOne(s, cx, ls).1)
    decreases s, 1
  {
    hide Goes, Ready, LowerOne, SwitchesApartOne;
    if s.Block? || s.While? || s.DoWhile? { BodyGoes(s, cx, ls); }
    else if s.If? { IfGoes(s, cx, ls); }
    else if s.For? { ForGoes(s, cx, ls); }
    else if s.Switch? { SwitchGoes(s, cx, ls); }
    else { SimpleGoes(s, cx, ls); }
  }

  lemma {:induction false} SimpleGoes(s: Stmt, cx: Context, ls: Labels)
    requires !s.Block? && !s.While? && !s.DoWhile? && !s.If? && !s.For? && !s.Switch?
    ensures Goes(DefsOf(s), OuterOf(s), SwitchesApartOne(s), ls, LowerOne(s, cx, ls).1)
  {
    hide Lower;
    if s.Case? || s.Default? {
      var c := CaseEntry(s.id, if s.Case? then Some(s.value) else None);
      assert CasesOf(s) == Cons(c, Nil);
      forall t ensures OuterOf(s)(t) == One01(t == ToCase(s.id)) { OneCase(c, t); }
      assert OuterOf(s)(ToCase(s.id)) == 1;
    }
  }

  lemma {:induction false} OneCase(c: CaseEntry, t: Target)
    ensures CaseCount(Cons(c, Nil), t) == One01(t == ToCase(c.id))
  {
    assert CaseCount(Nil, t) == 0;
  }

  lemma {:induction false} BodyGoes(s: Stmt, cx: Context, ls: Labels)
    requires (s.Block? || s.While? || s.DoWhile?) && Ready(DefsOf(s), OuterOf(s), ls)
    ensures Goes(DefsOf(s), OuterOf(s), SwitchesApartOne(s), ls, LowerOne(s, cx, ls).1)
    decreases s, 0
  {
    hide Goes, Ready, LowerList, Lower, Cases, DefCount, SwitchesApart, CaseCount;
    var k := ls.next;
    var cx1 := if s.Block? then cx else if s.While? then cx.(brk := k + 2, cont := k + 1) else cx.(brk := k + 3, cont := k + 2);
    var ls0 := if s.Block? then ls else if s.While? then Tested(s.cond, k + 2, Reserve(ls, 2)).1 else Reserve(ls, 3);
    var out := LowerList(s.body, cx1, ls0).1;
    Counter(Defs(s.body), Outer(s.body), SwitchesApart(s.body), ls, out, ls0, LowerOne(s, cx, ls).1);
    SameCounts(DefsOf(s), OuterOf(s), SwitchesApart(s.body), Defs(s.body), Outer(s.body), ls, LowerOne(s, cx, ls).1);
    ListGoes(s.body, cx1, ls0);
    Counter(Defs(s.body), Outer(s.body), SwitchesApart(s.body), ls0, out, ls, LowerOne(s, cx, ls).1);
  }

  lemma {:induction false} IfGoes(s: Stmt, cx: Context, ls: Labels)
    requires s.If? && Ready(DefsOf(s), OuterOf(s), ls)
    ensures Goes(DefsOf(s), OuterOf(s), SwitchesApartOne(s), ls, LowerOne(s, cx, ls).1)
    decreases s, 0
  {
    hide Goes, Ready, LowerList, Lower, Cases, DefCount, SwitchesApart, CaseCount, Append;
    var ls0 := Tested(s.cond, if s.no.None? then ls.next + 3 else ls.next + 2, Reserve(ls, 3)).1;
    var ls1 := LowerList(s.yes, cx, ls0).1;
    var yes, apart := s.yes, SwitchesApart(s.yes);
    if s.no.None? {
      SameCounts(DefsOf(s), OuterOf(s), apart, Defs(yes), Outer(yes), ls, ls1);
      Counter(Defs(yes), Outer(yes), apart, ls, ls1, ls0, ls1);
      ListGoes(yes, cx, ls0);
    } else {
      var no := s.no.value;
      TwoLists(yes, no);
      var d, c := Both(Defs(yes), Defs(no)), Both(Outer(yes), Outer(no));
      var ls2 := LowerList(no, cx, ls1).1;
      SameCounts(DefsOf(s), OuterOf(s), SwitchesApartOne(s), d, c, ls, ls2);
      Counter(d, c, SwitchesApartOne(s), ls, ls2, ls0, ls2);
      PairGoes(yes, no, cx, cx, ls0, ls1, ls1, s);
    }
  }

  // Two lists, the counter moving on in between.
  lemma {:induction false} PairGoes(xs: List<Stmt>, ys: List<Stmt>, cx: Context, cy: Context, ls: Labels, ls1: Labels, ls1': Labels, s: Stmt)
    requires xs < s && ys < s && ls1 == LowerList(xs, cx, ls).1 && ls1'.of == ls1.of && ls1'.ok == ls1.ok
    requires Ready(Both(Defs(xs), Defs(ys)), Both(Outer(xs), Outer(ys)), ls)
    ensures Goes(Both(Defs(xs), Defs(ys)), Both(Outer(xs), Outer(ys)), SwitchesApart(xs) && SwitchesApart(ys), ls, LowerList(ys, cy, ls1').1)
    decreases s, 0, 0
  {
    hide Goes, Ready, LowerList, Cases, DefCount, SwitchesApart, CaseCount, Append;
    TwoLists(xs, ys);
    var out := LowerList(ys, cy, ls1').1;
    FirstReady(Defs(xs), Outer(xs), Defs(ys), Outer(ys), ls);
    ListGoes(xs, cx, ls);
    BothReady(Defs(xs), Outer(xs), SwitchesApart(xs), Defs(ys), Outer(ys), ls, ls1);
    Counter(Defs(ys), Outer(ys), SwitchesApart(ys), ls1, out, ls1', out);
    ListGoes(ys, cy, ls1');
    BothGo(Defs(xs), Outer(xs), SwitchesApart(xs), Defs(ys), Outer(ys), SwitchesApart(ys), ls, ls1, out);
  }

  lemma {:induction false} ForGoes(s: Stmt, cx: Context, ls: Labels)
    requires s.For? && Ready(DefsOf(s), OuterOf(s), ls)
    ensures Goes(DefsOf(s), OuterOf(s), SwitchesApartOne(s), ls, LowerOne(s, cx, ls).1)
    decreases s, 0
  {
    hide Goes, Ready, LowerList, Lower, Cases, DefCount, SwitchesApart, CaseCount, Append;
    var p, ls0 := Parts(s, cx, ls), Reserve(ls, 3);
    var d, c := Both(Defs(s.first), Defs(s.body)), Both(Outer(s.first), Outer(s.body));
    TwoLists(s.first, s.body);
    SameCounts(DefsOf(s), OuterOf(s), SwitchesApartOne(s), d, c, ls, p.ls4);
    Counter(d, c, SwitchesApartOne(s), ls, p.ls4, ls0, p.ls3);
    PairGoes(s.first, s.body, cx, Inside(cx, ls.next), ls0, p.ls1, p.ls2, s);
  }

  // A switch enters its cases, each for the first time.
  lemma {:induction false} CasesEntered(cases: List<CaseEntry>, ls: Labels)
    requires forall t: Target :: t.ToCase? ==> CaseCount(cases, t) <= 1 && (CaseCount(cases, t) > 0 ==> t !in ls.of)
    ensures var out := AddCases(cases, ls);
            out.ok == ls.ok && forall t: Target :: t.ToCase? ==> (t in out.of <==> t in ls.of || CaseCount(cases, t) > 0)
    decreases cases
  {
    if cases.Cons? {
      var c, ls1 := cases.head, AddCase(cases.head.id, ls);
      assert CaseCount(cases, ToCase(c.id)) == 1 + CaseCount(cases.tail, ToCase(c.id));
      forall t: Target | t.ToCase? ensures CaseCount(cases.tail, t) <= 1 && (CaseCount(cases.tail, t) > 0 ==> t !in ls1.of) {
        assert CaseCount(cases, t) == One01(t == ToCase(c.id)) + CaseCount(cases.tail, t);
      }
      CasesEntered(cases.tail, ls1);
    }
  }

  lemma {:induction false} SwitchGoes(s: Stmt, cx: Context, ls: Labels)
    requires s.Switch? && Ready(DefsOf(s), OuterOf(s), ls)
    ensures Goes(DefsOf(s), OuterOf(s), SwitchesApartOne(s), ls, LowerOne(s, cx, ls).1)
    decreases s, 0
  {
    hide LowerList, Lower, Cases, DefCount, SwitchesApart, AddCases, Table, DistinctCases, Apart, LabelOf;
    var p, cases := PartsOfSwitch(s, cx, ls), Cases(s.body);
    assert LowerOne(s, cx, ls).1 == p.ls3;
    forall t: Target | t.ToCase?
      ensures DefCount(s.body, t) == DefsOf(s)(t) <= 1 && OuterOf(s)(t) == 0 && CaseCount(cases, t) == Outer(s.body)(t) <= DefCount(s.body, t)
      ensures CaseCount(cases, t) > 0 ==> t !in ls.of
    {
      CasesHavePlaces(s.body, t);
    }
    CasesEntered(cases, Reserve(ls, 1));
    DistinctIsApart(cases);
    ListGoes(s.body, cx.(brk := ls.next + 1), p.ls2);
  }

  // No case of a switch further out.
  lemma {:induction false} PlacedHasNone(ss: List<Stmt>)
    ensures CasesPlaced(ss) <==> Cases(ss) == Nil
    decreases ss
  {
    if ss.Cons? {
      PlacedHasNoneOne(ss.head);
      PlacedHasNone(ss.tail);
    }
  }

  lemma {:induction false} PlacedHasNoneOne(s: Stmt)
    ensures CasesPlacedOne(s) <==> CasesOf(s) == Nil
    decreases s
  {
    match s {
      case Block(body) => PlacedHasNone(body);
      case If(_, yes, no) =>
        PlacedHasNone(yes);
        if no.Some? { PlacedHasNone(no.value); }
      case While(_, body) => PlacedHasNone(body);
      case DoWhile(body, _) => PlacedHasNone(body);
      case For(first, _, _, body) =>
        PlacedHasNone(first);
        PlacedHasNone(body);
      case _ =>
    }
  }

  // A body in which nothing is given two places is lowered without an error exactly
  // when every case and default lies in a switch, and no switch has a value twice or
  // two defaults.
  lemma {:induction false} LowersWhen(body: List<Stmt>, cx: Context)
    requires forall t :: DefCount(body, t) <= 1
    ensures LowerList(body, cx, Labels(0, map[], true)).1.ok <==> Lowers(body)
  {
    hide LowerList, DefCount, SwitchesApart, Cases, CasesPlaced;
    var ls := Labels(0, map[], true);
    forall t: Target | t.ToCase? ensures Outer(body)(t) <= Defs(body)(t) { CasesHavePlaces(body, t); }
    ListGoes(body, cx, ls);
    PlacedHasNone(body);
    if Cases(body).Cons? { assert Outer(body)(ToCase(Cases(body).head.id)) > 0; }
  }
}
