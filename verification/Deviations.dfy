// Where the generated code departs from C: the conversions the parser does not
// insert, unary plus, and the cases of a narrow switch; each with the exact
// condition under which nothing is lost.  The meanings of Ast and Statements stop
// there with Departs or Unspecified.
module Deviations {
  import opened Words
  import opened Lists
  import opened Options
  import opened Ir
  import opened Ast
  import opened LowerNode
  import opened Conversions
  import opened NodeCorrect
  import opened Statements
  import opened StmtCorrect

  // The value of +a is that of a exactly when a is its own negative.
  lemma {:induction false} PlusDeviates(ty: Ty, a: Node, k: nat, env: Env, m: Mem)
    requires WellTyped(a) && TypeOfNode(a) == ty && Meaning(a, env, m).Means?
    ensures var o, e := Meaning(a, env, m), Eval(Lower(Sign(ty, true, a), k).0, env, m);
            && e.Ok? && e.mem == o.mem && e.value == Wrap(ty, -o.value)
            && (U64(e.value) == U64(o.value) <==> OwnNegative(ty, o.value))
  {
    hide Wrap, U64, OwnNegative;
    Correct(a, k, env, m);
    var v, v' := Meaning(a, env, m).value, Eval(Lower(a, k).0, env, m).value;
    SameNegation(ty, v, v');
    NegationFixes(ty, v);
    SameOfType(ty, Wrap(ty, -v), v);
  }

  lemma {:induction false} SameOfType(ty: Ty, x: int, y: int)
    requires InRange(ty, x) && InRange(ty, y)
    ensures U64(x) == U64(y) <==> x == y
  {
    ValueFromImage(ty, x);
    ValueFromImage(ty, y);
    if U64(x) == U64(y) { SameImage(x, y); }
  }

  // +1 is -1.
  lemma {:induction false} PlusOne(env: Env, m: Mem)
    ensures Eval(Lower(Sign(INT, true, Number(INT, 1)), 0).0, env, m) == Ok(-1, m)
    ensures Meaning(Number(INT, 1), env, m) == Means(1, m)
  {
    PlusDeviates(INT, Number(INT, 1), 0, env, m);
  }

  // An assignment stores C's value, and leaves behind the value of its right side:
  // C's value of the assignment exactly when that passes.
  lemma {:induction false} AssignDeviates(ty: Ty, place: Place, right: Node, k: nat, env: Env, m: Mem)
    requires var n := Assign(ty, place, right); WellTyped(n) && Assigned(n, env, m).Means?
    ensures var n := Assign(ty, place, right);
            var o, e := Effect(n, env, m), Eval(Lower(n, k).0, env, m);
            && o.Means? && e.Ok? && e.mem == o.mem
            && (U64(e.value) == U64(o.value) <==> Passes(ty, Assigned(n, env, m).value))
  {
    hide Wrap, U64, Passes, Assigned, Lower, Eval;
    var n := Assign(ty, place, right);
    AssignedCorrect(n, k, env, m);
    Unconverted(ty, Assigned(n, env, m).value);
  }

  // Unless an unsigned 64-bit value meets a signed target, passing is being in the
  // range of the target.
  lemma {:induction false} PassesInRange(t: Ty, ty: Ty, v: int)
    requires InRange(t, v) && (t.width < 8 || t.signed || !ty.signed)
    ensures Passes(ty, v) <==> ty.width == 8 || InRange(ty, v)
  {
    hide U64, S64;
    Images(t, v);
  }

  const UCHAR: Ty := Ty(1, false)

  lemma {:induction false} VariableAssigned(ty: Ty, sym: Symbol, right: Node, v: int, env: Env, m: Mem)
    requires Meaning(right, env, m) == Means(v, m) && Eval(Lower(right, 0).0, env, m) == Ok(v, m)
    ensures var n, at := Assign(ty, Variable(sym), right), AddressOfSymbol(env, sym);
            && Effect(n, env, m) == Means(Wrap(ty, v), StoreValue(m, ty, at, Wrap(ty, v)))
            && Eval(Lower(n, 0).0, env, m) == Ok(v, StoreValue(m, ty, at, Wrap(ty, v)))
  {
    hide StoreValue, LoadValue, Wrap, AddressOfSymbol;
    assert LowerPlace(Variable(sym), 0) == (AddrSym(sym), 0) && Location(Variable(sym), env, m) == Means(AddressOfSymbol(env, sym), m);
    assert Lower(Assign(ty, Variable(sym), right), 0).0 == Store(ty, AddrSym(sym), Lower(right, 0).0);
    assert Eval(AddrSym(sym), env, m) == Ok(AddressOfSymbol(env, sym), m);
    StoreConverts(m, ty, AddressOfSymbol(env, sym), v);
  }

  // For unsigned char c, the value of c = 300 is 44 in C and 300 in the generated
  // code; c itself is 44 in both.
  lemma {:induction false} AssignExample(sym: Symbol, env: Env, m: Mem)
    ensures var n, at := Assign(UCHAR, Variable(sym), Convert(INT, Number(INT, 300))), AddressOfSymbol(env, sym);
            && Effect(n, env, m) == Means(44, StoreValue(m, UCHAR, at, 44))
            && Eval(Lower(n, 0).0, env, m) == Ok(300, StoreValue(m, UCHAR, at, 44))
  {
    hide StoreValue, LoadValue, Meaning, Effect, Eval, Lower, U64;
    IntConstant(300, env, m);
    VariableAssigned(UCHAR, sym, Convert(INT, Number(INT, 300)), 300, env, m);
  }

  lemma {:induction false} IntConstant(v: int, env: Env, m: Mem)
    requires InRange(INT, v)
    ensures var n := Convert(INT, Number(INT, v)); Meaning(n, env, m) == Means(v, m) && Eval(Lower(n, 0).0, env, m) == Ok(v, m)
  {
    hide Wrap, U64;
    var n := Convert(INT, Number(INT, v));
    assert Lower(n, 0).0 == Cast(INT, Const(INT, U64(v)));
    WrapOfRegister(INT, v);
    WrapInRange(INT, v);
  }

  const UINT: Ty := Ty(4, false)

  // The lowered comparison of two expressions of any types.
  lemma {:induction false} TestDeviates(cmp: Comparison, a: Node, b: Node, k: nat, env: Env, m: Mem)
    requires WellTyped(a) && WellTyped(b) && Meaning(a, env, m).Means? && Meaning(b, env, Meaning(a, env, m).mem).Means?
    ensures var x := Meaning(a, env, m).value;
            var r := Meaning(b, env, Meaning(a, env, m).mem);
            var c, o := CommonType(TypeOfNode(a), TypeOfNode(b)), Eval(Lower(Test(cmp, a, b), k).0, env, m);
            && o.Ok? && o.mem == r.mem
            && (o.value == Bool(Related(cmp, Wrap(c, x), Wrap(c, r.value)))
                <==> SameTest(cmp, TypeOfNode(a), TypeOfNode(b), x, r.value))
  {
    hide CommonType, SameTest, Related, Wrap, WellTyped, S64, U64, Compares;
    Correct(a, k, env, m);
    var o := Meaning(a, env, m);
    Correct(b, Lower(a, k).1, env, o.mem);
    var r := Meaning(b, env, o.mem);
    LoweredType(a, k);
    SameCompare(cmp, TypeOfNode(a).signed, o.value, r.value, Eval(Lower(a, k).0, env, m).value,
                Eval(Lower(b, Lower(a, k).1).0, env, o.mem).value);
    MixedTest(cmp, TypeOfNode(a), TypeOfNode(b), o.value, r.value);
  }

  // -1 < 1u holds in the generated code and not in C; 4294967295u == -1 holds in C
  // and not in the generated code.
  lemma {:induction false} MixedExamples()
    ensures Compares(Less, true, -1, 1) && !Related(Less, Wrap(CommonType(INT, UINT), -1), Wrap(CommonType(INT, UINT), 1))
    ensures !Compares(Equal, false, 0xffff_ffff, -1)
            && Related(Equal, Wrap(CommonType(UINT, INT), 0xffff_ffff), Wrap(CommonType(UINT, INT), -1))
  {
    MixedTest(Less, INT, UINT, -1, 1);
    MixedTest(Equal, UINT, INT, 0xffff_ffff, -1);
    Images(UINT, 0xffff_ffff);
    Images(INT, -1);
    Images(UINT, 1);
  }

  lemma {:induction false} ChooseShape(ty: Ty, a: Node, b: Node, c: Node, k: nat, env: Env, m: Mem)
    ensures var (x, k1) := Lower(a, k + 3);
            var (y, k2) := Lower(b, k1);
            Eval(Lower(Choose(ty, a, b, c), k).0, env, m)
            == match Eval(x, env, m)
               case Ok(v, m1) => if Truth(v) then Eval(y, env, m1) else Eval(Lower(c, k2).0, env, m1)
               case other => other
  {
  }

  // A branch of ?: keeps its own type: what is passed on is the value converted to
  // the type of the whole exactly when it passes.
  lemma {:induction false} BranchDeviates(ty: Ty, a: Node, b: Node, c: Node, k: nat, env: Env, m: Mem)
    requires WellTyped(a) && WellTyped(b) && WellTyped(c) && Meaning(a, env, m).Means?
    requires var o := Meaning(a, env, m); Meaning(if o.value != 0 then b else c, env, o.mem).Means?
    ensures var o := Meaning(a, env, m);
            var r := Meaning(if o.value != 0 then b else c, env, o.mem);
            var e := Eval(Lower(Choose(ty, a, b, c), k).0, env, m);
            e.Ok? && e.mem == r.mem && (U64(e.value) == U64(Wrap(ty, r.value)) <==> Passes(ty, r.value))
  {
    hide Wrap, U64, Lower, Eval, Meaning, InRange, Passes;
    ChooseShape(ty, a, b, c, k, env, m);
    var o := Meaning(a, env, m);
    Correct(a, k + 3, env, m);
    var k1 := Lower(a, k + 3).1;
    var chosen, kc := if o.value != 0 then b else c, if o.value != 0 then k1 else Lower(b, k1).1;
    Correct(chosen, kc, env, o.mem);
    ValueFromImage(TypeOfNode(a), o.value);
    Unconverted(ty, Meaning(chosen, env, o.mem).value);
  }

  // Compound division.

  // The lowered compound assignment: it stores C's value exactly under
  // SameDivision.
  lemma {:induction false} UpdateDeviates(op: Operator, ty: Ty, c: Ty, place: Place, right: Node, k: nat, env: Env, m: Mem)
    requires Divides(op) && Commons(c, ty) && WellTypedPlace(place) && WellTyped(right) && TypeOfNode(right) == c
    requires Location(place, env, m).Means? && Meaning(right, env, Location(place, env, m).mem).Means?
    requires var p := Location(place, env, m);
             InCommon(op, ty, c, LoadValue(p.mem, ty, p.value), Meaning(right, env, p.mem).value).Some?
    ensures var p := Location(place, env, m);
            var x, r := LoadValue(p.mem, ty, p.value), Meaning(right, env, p.mem);
            var v := InCommon(op, ty, c, x, r.value).value;
            Eval(Lower(Update(ty, op, c, place, right), k).0, env, m) == Ok(v, StoreValue(r.mem, ty, p.value, v))
            <==> SameDivision(op, ty, c, x, r.value)
  {
    hide InCommon, Operate, SameDivision, LoadBytes, StoreBytes, Wrap;
    PlaceCorrect(place, k, env, m);
    var p := Location(place, env, m);
    Correct(right, LowerPlace(place, k).1, env, p.mem);
    var r, x := Meaning(right, env, p.mem), LoadValue(p.mem, ty, p.value);
    var e, y := Eval(LowerPlace(place, k).0, env, m), Eval(Lower(right, LowerPlace(place, k).1).0, env, p.mem);
    OperateOnImages(ty, op, x, r.value, x, y.value);
    MixedDivision(op, ty, c, x, r.value);
  }

  // An unsigned char divided in place by -1: C leaves 256 less the quotient, the
  // generated code leaves 0.
  lemma {:induction false} DivisionExample()
    ensures InCommon(Div, Ty(1, false), INT, 200, -1) == Some(56) && Operate(Ty(1, false), Div, 200, -1) == Some(0)
  {
    Images(INT, -1);
    ModUnique(200, 0, 200, WORD - 1);
  }

  // Switches.

  // No two cases are the same node.
  ghost predicate DistinctIds(cases: List<CaseEntry>) {
    match cases
    case Nil => true
    case Cons(c, rest) => (forall d :: Holds(rest, d) ==> d.id != c.id) && DistinctIds(rest)
  }

  lemma {:induction false} ChosenHasValue(cases: List<CaseEntry>, ty: Ty, v: int, default: Option<nat>)
    ensures var r := Select(cases, ty, v, default);
            r == default || (r.Some? && exists c :: Holds(cases, c) && c.value.Some? && c.id == r.value)
    decreases cases
  {
    match cases {
      case Nil =>
      case Cons(c, rest) =>
        ChosenHasValue(rest, ty, v, default);
        assert Holds(cases, c);
        var r := Select(rest, ty, v, default);
        if r != default {
          var d :| Holds(rest, d) && d.value.Some? && d.id == r.value;
          assert Holds(cases, d);
        }
    }
  }

  lemma {:induction false} ChoiceDiffers(cases: List<CaseEntry>, ty: Ty, v: int, default: Option<nat>)
    requires InRange(ty, v) && DistinctIds(cases) && !SameChoice(cases, ty, v)
    requires forall c :: Holds(cases, c) && c.value.Some? ==> default != Some(c.id)
    ensures Select(cases, ty, v, default) != Select(cases, Promoted(ty), v, default)
    decreases cases
  {
    var c, rest := cases.head, cases.tail;
    assert Holds(cases, c);
    assert forall d :: Holds(rest, d) ==> Holds(cases, d);
    if c.value.Some? { CaseConverted(ty, c.value.value, v); }
    if c.value.Some? && Wrap(ty, c.value.value) == v {
      ChosenHasValue(rest, Promoted(ty), v, default);
    } else {
      ChoiceDiffers(rest, ty, v, default);
    }
  }

  lemma {:induction false} DefaultApart(cases: List<CaseEntry>, c: CaseEntry)
    requires DistinctIds(cases) && Holds(cases, c) && c.value.Some?
    ensures DefaultOf(cases) != Some(c.id)
    decreases cases
  {
    DefaultIsCase(cases.tail);
    if cases.head != c { DefaultApart(cases.tail, c); }
  }

  // The code chooses what C chooses exactly when the first case it finds lies, as C
  // converts it, in the condition's type, or when it finds none.
  lemma {:induction false} SwitchDeviates(cases: List<CaseEntry>, ty: Ty, v: int)
    requires InRange(ty, v) && DistinctIds(cases)
    ensures Select(cases, ty, v, DefaultOf(cases)) == Select(cases, Promoted(ty), v, DefaultOf(cases)) <==> SameChoice(cases, ty, v)
  {
    if SameChoice(cases, ty, v) {
      ChoiceAgrees(cases, ty, v, DefaultOf(cases));
    } else {
      forall c | Holds(cases, c) && c.value.Some? ensures DefaultOf(cases) != Some(c.id) { DefaultApart(cases, c); }
      ChoiceDiffers(cases, ty, v, DefaultOf(cases));
    }
  }

  // A condition as wide as int is compared as C compares it.
  lemma {:induction false} WideSwitch(cases: List<CaseEntry>, ty: Ty, v: int)
    requires ty.width >= 4
    ensures SameChoice(cases, ty, v)
    decreases cases
  {
    if cases.Cons? { WideSwitch(cases.tail, ty, v); }
  }

  // An unsigned char 0 goes to case 256 in the generated code, past it in C.
  lemma {:induction false} SwitchExample(id: nat)
    ensures var cases := Cons(CaseEntry(id, Some(256)), Nil);
            Select(cases, UCHAR, 0, None) == Some(id) && Select(cases, Promoted(UCHAR), 0, None) == None
  {
  }
}
