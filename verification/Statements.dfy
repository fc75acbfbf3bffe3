// Statements as the parser builds them, and what they mean.  A thread of
// execution either runs a statement or looks in it for the place it is bound
// for: a case chosen by a switch, or the target of a goto.  Fuel bounds the
// number of times a loop is taken round.
module Statements {
  import opened Words
  import opened Lists
  import opened Options
  import opened Ir
  import opened Ast

  datatype Stmt =
    | Block(body: List<Stmt>)
    | Null
    | Declare(ty: Ty, sym: Symbol, init: Option<Node>)
    | Expression(e: Node)
    | If(cond: Node, yes: List<Stmt>, no: Option<List<Stmt>>)
    | While(cond: Node, body: List<Stmt>)
    | DoWhile(body: List<Stmt>, cond: Node)
    | For(first: List<Stmt>, test: Option<Node>, step: Option<Node>, body: List<Stmt>)
    | Switch(cond: Node, body: List<Stmt>)
    | Case(id: nat, value: int)
    | Default(id: nat)
    | Break
    | Continue
    | Return(result: Option<Node>)
    | Label(name: string)
    | Goto(name: string)

  // A case is known by the identity of its node.
  datatype Target = ToCase(id: nat) | ToName(name: string)

  datatype Mode = Run(m: Mem) | Seek(to: Target, m: Mem)

  // Jumping is a thread that has left the statement for a target not in it, or
  // has not found its target there.  Unspecified is the end of what is said: C
  // leaves the rest undefined, or the generated code departs from it.
  datatype Signal =
    | Done(m: Mem)
    | Broke(m: Mem)
    | Continued(m: Mem)
    | Jumping(to: Target, m: Mem)
    | Returned(result: Option<int>, m: Mem)
    | OutOfFuel
    | Unspecified

  function Idle(mode: Mode): Signal {
    match mode
    case Run(m) => Done(m)
    case Seek(t, m) => Jumping(t, m)
  }

  function Arrive(mode: Mode, here: Target): Signal {
    match mode
    case Run(m) => Done(m)
    case Seek(t, m) => if t == here then Done(m) else Jumping(t, m)
  }

  function After(o: Meant<int>): Signal { if o.Means? then Done(o.mem) else Unspecified }

  datatype CaseEntry = CaseEntry(id: nat, value: Option<int>)

  // The cases of a switch, in order; those of a nested switch are its own.
  function Cases(ss: List<Stmt>): List<CaseEntry> {
    match ss
    case Nil => Nil
    case Cons(s, rest) => Append(CasesOf(s), Cases(rest))
  }

  function CasesOf(s: Stmt): List<CaseEntry> {
    match s
    case Block(body) => Cases(body)
    case If(_, yes, None) => Cases(yes)
    case If(_, yes, Some(no)) => Append(Cases(yes), Cases(no))
    case While(_, body) => Cases(body)
    case DoWhile(body, _) => Cases(body)
    case For(first, _, _, body) => Append(Cases(first), Cases(body))
    case Case(id, value) => Cons(CaseEntry(id, Some(value)), Nil)
    case Default(id) => Cons(CaseEntry(id, None), Nil)
    case _ => Nil
  }

  function DefaultOf(cases: List<CaseEntry>): Option<nat> {
    match cases
    case Nil => None
    case Cons(c, rest) => if c.value.None? then Some(c.id) else DefaultOf(rest)
  }

  // The first case equal to v once converted to type ty, otherwise the default.
  function Select(cases: List<CaseEntry>, ty: Ty, v: int, default: Option<nat>): Option<nat> {
    match cases
    case Nil => default
    case Cons(c, rest) =>
      if c.value.Some? && Wrap(ty, c.value.value) == v then Some(c.id) else Select(rest, ty, v, default)
  }

  // C converts the cases to the promoted type of the condition (section 6.8.4.2 of
  // C17), the code to its own type.  The choice is the same when the first case
  // that the code finds lies, as C converts it, in the condition's type.
  predicate SameChoice(cases: List<CaseEntry>, ty: Ty, v: int) {
    match cases
    case Nil => true
    case Cons(c, rest) =>
      if c.value.Some? && Wrap(ty, c.value.value) == v then InRange(ty, Wrap(Promoted(ty), c.value.value))
      else SameChoice(rest, ty, v)
  }

  function ExecList(ss: List<Stmt>, mode: Mode, env: Env, ret: Ty, fuel: nat): Signal
    decreases fuel, ss
  {
    match ss
    case Nil => Idle(mode)
    case Cons(s, rest) =>
      match Exec(s, mode, env, ret, fuel)
      case Done(m) => ExecList(rest, Run(m), env, ret, fuel)
      case Jumping(t, m) => ExecList(rest, Seek(t, m), env, ret, fuel)
      case other => other
  }

  function Exec(s: Stmt, mode: Mode, env: Env, ret: Ty, fuel: nat): Signal
    decreases fuel, s, 1
  {
    match s
    case Block(body) => ExecList(body, mode, env, ret, fuel)
    case If(cond, yes, no) =>
      (match mode
       case Run(m) =>
         (match Meaning(cond, env, m)
          case Means(v, m1) =>
            if v != 0 then ExecThen(s, Run(m1), env, ret, fuel)
            else if no.None? then Done(m1)
            else ExecList(no.value, Run(m1), env, ret, fuel)
          case _ => Unspecified)
       case Seek(_, _) => ExecThen(s, mode, env, ret, fuel))
    case While(cond, body) =>
      (match mode
       case Run(m) =>
         (match Meaning(cond, env, m)
          case Means(v, m1) => if v == 0 then Done(m1) else ExecBody(s, Run(m1), env, ret, fuel)
          case _ => Unspecified)
       case Seek(_, _) => ExecBody(s, mode, env, ret, fuel))
    case DoWhile(body, cond) => ExecBody(s, mode, env, ret, fuel)
    case For(first, _, _, _) =>
      (match ExecList(first, mode, env, ret, fuel)
       case Done(m) => ExecFor(s, Run(m), env, ret, fuel)
       case Jumping(t, m) => ExecFor(s, Seek(t, m), env, ret, fuel)
       case other => other)
    case Switch(cond, body) =>
      (match mode
       case Run(m) =>
         (match Meaning(cond, env, m)
          case Means(v, m1) =>
            if !SameChoice(Cases(body), TypeOfNode(cond), v) then Unspecified
            else
              (match Select(Cases(body), Promoted(TypeOfNode(cond)), v, DefaultOf(Cases(body)))
               case Some(id) => EndSwitch(ExecList(body, Seek(ToCase(id), m1), env, ret, fuel))
               case None => Done(m1))
          case _ => Unspecified)
       case Seek(_, _) => EndSwitch(ExecList(body, mode, env, ret, fuel)))
    case Case(id, _) => Arrive(mode, ToCase(id))
    case Default(id) => Arrive(mode, ToCase(id))
    case Label(name) => Arrive(mode, ToName(name))
    case _ => if mode.Run? then Act(s, mode.m, env, ret) else Idle(mode)
  }

  // Statements without parts.
  function Act(s: Stmt, m: Mem, env: Env, ret: Ty): Signal {
    match s
    case Declare(ty, sym, Some(init)) => After(Effect(Assign(ty, Variable(sym), init), env, m))
    case Expression(e) => After(Effect(e, env, m))
    case Break => Broke(m)
    case Continue => Continued(m)
    case Return(None) => Returned(None, m)
    case Return(Some(e)) =>
      (match Meaning(e, env, m)
       case Means(v, m1) => Returned(Some(Wrap(ret, v)), m1)
       case _ => Unspecified)
    case Goto(name) => Jumping(ToName(name), m)
    case _ => Done(m)
  }

  function EndSwitch(r: Signal): Signal {
    match r
    case Broke(m) => Done(m)
    case other => other
  }

  // The first branch; a thread leaving it for a target may enter the second.
  function ExecThen(s: Stmt, mode: Mode, env: Env, ret: Ty, fuel: nat): Signal
    requires s.If?
    decreases fuel, s, 0
  {
    match ExecList(s.yes, mode, env, ret, fuel)
    case Jumping(t, m) => if s.no.None? then Jumping(t, m) else ExecList(s.no.value, Seek(t, m), env, ret, fuel)
    case other => other
  }

  // One turn of a while or do loop, from its body on.
  function ExecBody(s: Stmt, mode: Mode, env: Env, ret: Ty, fuel: nat): Signal
    requires s.While? || s.DoWhile?
    decreases fuel, s, 0
  {
    match ExecList(s.body, mode, env, ret, fuel)
    case Done(m) => Again(s, m, env, ret, fuel)
    case Continued(m) => Again(s, m, env, ret, fuel)
    case Broke(m) => Done(m)
    case other => other
  }

  function Again(s: Stmt, m: Mem, env: Env, ret: Ty, fuel: nat): Signal
    requires s.While? || s.DoWhile?
    decreases fuel, s, 0, 0
  {
    if s.While? then
      if fuel == 0 then OutOfFuel else Exec(s, Run(m), env, ret, fuel - 1)
    else
      match Meaning(s.cond, env, m)
      case Means(v, m1) =>
        if v == 0 then Done(m1)
        else if fuel == 0 then OutOfFuel else Exec(s, Run(m1), env, ret, fuel - 1)
      case _ => Unspecified
  }

  // A for loop once its initialization is done.
  function ExecFor(s: Stmt, mode: Mode, env: Env, ret: Ty, fuel: nat): Signal
    requires s.For?
    decreases fuel, s, 0
  {
    match mode
    case Run(m) =>
      (match s.test
       case None => ForBody(s, Run(m), env, ret, fuel)
       case Some(test) =>
         (match Meaning(test, env, m)
          case Means(v, m1) => if v == 0 then Done(m1) else ForBody(s, Run(m1), env, ret, fuel)
          case _ => Unspecified))
    case Seek(_, _) => ForBody(s, mode, env, ret, fuel)
  }

  function ForBody(s: Stmt, mode: Mode, env: Env, ret: Ty, fuel: nat): Signal
    requires s.For?
    decreases fuel, s, 0, 1
  {
    match ExecList(s.body, mode, env, ret, fuel)
    case Done(m) => NextTurn(s, m, env, ret, fuel)
    case Continued(m) => NextTurn(s, m, env, ret, fuel)
    case Broke(m) => Done(m)
    case other => other
  }

  function NextTurn(s: Stmt, m: Mem, env: Env, ret: Ty, fuel: nat): Signal
    requires s.For?
    decreases fuel, s, 0, 0
  {
    match s.step
    case None => if fuel == 0 then OutOfFuel else ExecFor(s, Run(m), env, ret, fuel - 1)
    case Some(step) =>
      (match Effect(step, env, m)
       case Means(_, m1) => if fuel == 0 then OutOfFuel else ExecFor(s, Run(m1), env, ret, fuel - 1)
       case _ => Unspecified)
  }

  // A function body.  A goto is followed by looking for its label from the top.
  function ExecFunction(body: List<Stmt>, mode: Mode, env: Env, ret: Ty, fuel: nat): Signal
    decreases fuel
  {
    match ExecList(body, mode, env, ret, fuel)
    case Done(m) => Returned(None, m)
    case Jumping(t, m) => if fuel == 0 then OutOfFuel else ExecFunction(body, Seek(t, m), env, ret, fuel - 1)
    case other => other
  }
}
