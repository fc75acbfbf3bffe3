// The flat instruction list a function body becomes, and the machine that runs
// it.
module FlatIr {
  import opened Words
  import opened Lists
  import opened Options
  import opened Ir
  import opened Ropes

  datatype CaseTarget = CaseTarget(value: int, goal: Label)

  datatype Inst =
    | Evaluate(e: Expr)
    | Mark(id: Label)
    | Goto(target: Label)
    | Branch(cond: Expr, otherwise: Label)
    | Dispatch(cond: Expr, table: List<CaseTarget>, default: Label)
    | Return(value: Option<Expr>, ty: Ty)

  // At is a running state.  Lost is a jump to a label that does not exist.
  datatype State = At(pc: nat, m: Mem) | Left(result: Option<int>, m: Mem) | Trapped | Unspecified | Lost

  // Where the flow of control is when it reaches some point of the list:
  // arriving there, bound for a label, or stopped.
  datatype Thread = Here(m: Mem) | Bound(l: Label, m: Mem) | Stopped(s: State)

  function Find(code: seq<Inst>, l: Label, from: nat): (at: nat)
    requires from <= |code|
    ensures from <= at <= |code|
    ensures at < |code| ==> code[at] == Mark(l)
    ensures forall i :: from <= i < at ==> code[i] != Mark(l)
    decreases |code| - from
  {
    if from == |code| || code[from] == Mark(l) then from else Find(code, l, from + 1)
  }

  function Go(code: seq<Inst>, l: Label, m: Mem): State {
    var at := Find(code, l, 0);
    if at < |code| then At(at, m) else Lost
  }

  // The first case whose value is that of the condition, as 64-bit words.
  function Lookup(table: List<CaseTarget>, v: int, default: Label): Label {
    match table
    case Nil => default
    case Cons(c, rest) => if U64(c.value) == U64(v) then c.goal else Lookup(rest, v, default)
  }

  // A 32-bit condition is extended by its type before it is compared.
  function Extended(ty: Ty, v: int): int { if ty.width == 4 then Wrap(ty, v) else v }

  function Perform(i: Inst, env: Env, m: Mem): Thread {
    match i
    case Evaluate(e) =>
      (match Eval(e, env, m)
       case Ok(_, m1) => Here(m1)
       case Trap => Stopped(Trapped)
       case Undefined => Stopped(Unspecified))
    case Mark(_) => Here(m)
    case Goto(l) => Bound(l, m)
    case Branch(cond, otherwise) =>
      (match Eval(cond, env, m)
       case Ok(v, m1) => if Truth(v) then Here(m1) else Bound(otherwise, m1)
       case Trap => Stopped(Trapped)
       case Undefined => Stopped(Unspecified))
    case Dispatch(cond, table, default) =>
      (match Eval(cond, env, m)
       case Ok(v, m1) => Bound(Lookup(table, Extended(TypeOf(cond), v), default), m1)
       case Trap => Stopped(Trapped)
       case Undefined => Stopped(Unspecified))
    case Return(None, _) => Stopped(Left(None, m))
    case Return(Some(e), ty) =>
      (match Eval(e, env, m)
       case Ok(v, m1) => Stopped(Left(Some(Wrap(ty, v)), m1))
       case Trap => Stopped(Trapped)
       case Undefined => Stopped(Unspecified))
  }

  function Place(code: seq<Inst>, pc: nat, t: Thread): State {
    match t
    case Here(m) => At(pc, m)
    case Bound(l, m) => Go(code, l, m)
    case Stopped(s) => s
  }

  // Control that runs off the end leaves the function without a value.
  function Step(code: seq<Inst>, env: Env, s: State): State {
    match s
    case At(pc, m) =>
      if pc >= |code| then Left(None, m) else Place(code, pc + 1, Perform(code[pc], env, m))
    case _ => s
  }

  function Run(code: seq<Inst>, env: Env, s: State, n: nat): State
    decreases n
  {
    if n == 0 then s else Run(code, env, Step(code, env, s), n - 1)
  }

  lemma {:induction false} RunAdd(code: seq<Inst>, env: Env, s: State, m: nat, n: nat)
    ensures Run(code, env, s, m + n) == Run(code, env, Run(code, env, s, m), n)
    decreases m
  {
    if m > 0 { RunAdd(code, env, Step(code, env, s), m - 1, n); }
  }

  lemma {:induction false} RunOne(code: seq<Inst>, env: Env, s: State)
    ensures Run(code, env, s, 1) == Step(code, env, s)
  {
    assert Run(code, env, Step(code, env, s), 0) == Step(code, env, s);
  }

  ghost predicate UniqueMarks(code: seq<Inst>) {
    forall i, j :: 0 <= i < j < |code| && code[i].Mark? && code[j].Mark? ==> code[i].id != code[j].id
  }

  lemma {:induction false} Found(code: seq<Inst>, l: Label, at: nat)
    requires UniqueMarks(code) && at < |code| && code[at] == Mark(l)
    ensures Find(code, l, 0) == at
  {
    var p := Find(code, l, 0);
    assert p <= at && code[p] == Mark(l);
    assert code[p].Mark? && code[at].Mark? && code[p].id == code[at].id;
  }

  // A stretch of the list read once from top to bottom, a jump being a search
  // for its label.
  function Through(i: Inst, env: Env, t: Thread): Thread {
    match t
    case Here(m) => Perform(i, env, m)
    case Bound(l, m) => if i == Mark(l) then Here(m) else t
    case Stopped(_) => t
  }

  function Pass(r: Rope<Inst>, env: Env, t: Thread): Thread {
    match r
    case Empty => t
    case One(i) => Through(i, env, t)
    case Cat(a, b) => Pass(b, env, Pass(a, env, t))
  }

  predicate Starts(r: Rope<Inst>) {
    match r
    case Empty => false
    case One(_) => true
    case Cat(a, _) => Starts(a)
  }

  lemma {:induction false} ThroughRuns(code: seq<Inst>, env: Env, pc: nat, i: Inst, t: Thread) returns (n: nat)
    requires UniqueMarks(code) && pc < |code| && code[pc] == i
    ensures Run(code, env, Place(code, pc, t), n) == Place(code, pc + 1, Through(i, env, t))
    ensures t.Here? ==> n > 0
  {
    n := if t.Here? || (t.Bound? && i == Mark(t.l)) then 1 else 0;
    if t.Bound? && i == Mark(t.l) { Found(code, t.l, pc); }
    RunOne(code, env, Place(code, pc, t));
  }

  lemma {:induction false} PassRuns(code: seq<Inst>, env: Env, pc: nat, r: Rope<Inst>, t: Thread) returns (n: nat)
    requires UniqueMarks(code) && Ropes.At(code, pc, r)
    ensures Run(code, env, Place(code, pc, t), n) == Place(code, pc + Size(r), Pass(r, env, t))
    ensures t.Here? && Starts(r) ==> n > 0
    decreases r
  {
    hide Ropes.At, Flat, Through, UniqueMarks;
    match r {
      case Empty => n := 0;
      case One(i) =>
        AtOne(code, pc, i);
        n := ThroughRuns(code, env, pc, i, t);
      case Cat(a, b) =>
        AtCat(code, pc, a, b);
        var m := PassRuns(code, env, pc, a, t);
        var k := PassRuns(code, env, pc + Size(a), b, Pass(a, env, t));
        RunAdd(code, env, Place(code, pc, t), m, k);
        n := m + k;
    }
  }
}
