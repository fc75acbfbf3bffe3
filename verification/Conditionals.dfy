// Conditional inclusion (section 6.10.1 of C17): a stack of flags against the
// nested meaning of #if, #elif, #else and #endif.
module Conditionals {
  import opened Results
  import opened Lists

  // #ifdef and #ifndef are #if with a condition of their own.
  datatype Directive = Line(id: nat) | If(condition: nat) | Elif(condition: nat) | Else | Endif

  datatype Entry = Entry(parentActive: bool, active: bool, seenTrue: bool)

  // Innermost entry first, and the lines passed on so far.
  datatype State = State(stack: List<Entry>, output: seq<nat>)

  // What a condition amounts to may depend on the definitions passed on before
  // it; a condition that cannot be evaluated counts as false.
  type Oracle = (nat, seq<nat>) -> bool

  function Active(stack: List<Entry>): bool { stack.Nil? || stack.head.active }

  function Step(holds: Oracle, d: Directive, st: State): Result<State> {
    match d
    case Line(id) => Ok(if Active(st.stack) then st.(output := st.output + [id]) else st)
    case If(c) =>
      var active := Active(st.stack);
      var value := active && holds(c, st.output);
      Ok(st.(stack := Cons(Entry(active, value, value), st.stack)))
    case Elif(c) =>
      if st.stack.Nil? then Error(1124)
      else
        var e := st.stack.head;
        if e.seenTrue || !e.parentActive then Ok(st.(stack := Cons(e.(active := false), st.stack.tail)))
        else
          var value := holds(c, st.output);
          Ok(st.(stack := Cons(e.(active := value, seenTrue := value), st.stack.tail)))
    case Else =>
      if st.stack.Nil? then Error(1125)
      else
        var e := st.stack.head;
        if e.seenTrue then Ok(st.(stack := Cons(e.(active := false), st.stack.tail)))
        else Ok(st.(stack := Cons(e.(active := e.parentActive, seenTrue := true), st.stack.tail)))
    case Endif => if st.stack.Nil? then Error(1126) else Ok(st.(stack := st.stack.tail))
  }

  function Run(holds: Oracle, ds: List<Directive>, st: State): Result<State>
    decreases ds
  {
    match ds
    case Nil => Ok(st)
    case Cons(d, rest) =>
      var next := Step(holds, d, st);
      if next.Error? then next else Run(holds, rest, next.value)
  }

  // Lines and conditionals, nested.
  datatype Part = Text(id: nat) | Conditional(condition: nat, body: List<Part>, rest: Chain)

  datatype Chain = NoMore | Otherwise(condition: nat, body: List<Part>, rest: Chain) | Finally(body: List<Part>)

  function Flatten(parts: List<Part>, more: List<Directive>): List<Directive> {
    match parts
    case Nil => more
    case Cons(Text(id), tail) => Cons(Line(id), Flatten(tail, more))
    case Cons(Conditional(c, body, rest), tail) => Cons(If(c), Flatten(body, FlattenChain(rest, Flatten(tail, more))))
  }

  function FlattenChain(chain: Chain, more: List<Directive>): List<Directive> {
    match chain
    case NoMore => Cons(Endif, more)
    case Otherwise(c, body, rest) => Cons(Elif(c), Flatten(body, FlattenChain(rest, more)))
    case Finally(body) => Cons(Else, Flatten(body, Cons(Endif, more)))
  }

  // The first group whose condition holds, or else that of #else.
  function Meaning(holds: Oracle, parts: List<Part>, output: seq<nat>): seq<nat> {
    match parts
    case Nil => output
    case Cons(Text(id), tail) => Meaning(holds, tail, output + [id])
    case Cons(Conditional(c, body, rest), tail) =>
      Meaning(holds, tail, if holds(c, output) then Meaning(holds, body, output) else ChainMeaning(holds, rest, output))
  }

  function ChainMeaning(holds: Oracle, chain: Chain, output: seq<nat>): seq<nat> {
    match chain
    case NoMore => output
    case Otherwise(c, body, rest) => if holds(c, output) then Meaning(holds, body, output) else ChainMeaning(holds, rest, output)
    case Finally(body) => Meaning(holds, body, output)
  }

  // Nested text passes on its meaning where it is read and nothing where it is
  // skipped, and leaves the stack as it was.
  lemma {:induction false} RunNested(holds: Oracle, parts: List<Part>, more: List<Directive>, st: State)
    ensures Run(holds, Flatten(parts, more), st)
         == Run(holds, more, if Active(st.stack) then st.(output := Meaning(holds, parts, st.output)) else st)
    decreases parts
  {
    match parts {
      case Nil =>
      case Cons(Text(id), tail) => RunNested(holds, tail, more, Step(holds, Line(id), st).value);
      case Cons(Conditional(c, body, rest), tail) =>
        var inner := Step(holds, If(c), st).value;
        var after := FlattenChain(rest, Flatten(tail, more));
        RunNested(holds, body, after, inner);
        var done := if Active(inner.stack) then inner.(output := Meaning(holds, body, st.output)) else inner;
        RunChain(holds, rest, Flatten(tail, more), done);
        RunNested(holds, tail, more,
                  if Active(st.stack) && !inner.stack.head.seenTrue then st.(output := ChainMeaning(holds, rest, st.output))
                  else st.(output := done.output));
    }
  }

  // The rest of a chain whose groups so far have run.
  lemma {:induction false} RunChain(holds: Oracle, chain: Chain, more: List<Directive>, st: State)
    requires st.stack.Cons? && (st.stack.head.active ==> st.stack.head.seenTrue)
    requires !st.stack.head.parentActive ==> !st.stack.head.active
    ensures var e := st.stack.head;
            Run(holds, FlattenChain(chain, more), st)
            == Run(holds, more, State(st.stack.tail,
                 if e.parentActive && !e.seenTrue then ChainMeaning(holds, chain, st.output) else st.output))
    decreases chain
  {
    match chain {
      case NoMore =>
      case Otherwise(c, body, rest) =>
        var next := Step(holds, Elif(c), st).value;
        RunNested(holds, body, FlattenChain(rest, more), next);
        RunChain(holds, rest, more, if next.stack.head.active then next.(output := Meaning(holds, body, st.output)) else next);
      case Finally(body) =>
        var next := Step(holds, Else, st).value;
        RunNested(holds, body, Cons(Endif, more), next);
    }
  }

  // A whole source passes on exactly its nested meaning.
  lemma {:induction false} SourceMeaning(holds: Oracle, parts: List<Part>)
    ensures Run(holds, Flatten(parts, Nil), State(Nil, [])) == Ok(State(Nil, Meaning(holds, parts, [])))
  {
    RunNested(holds, parts, Nil, State(Nil, []));
  }

  // In every reachable state an entry's parent flag is the activity of the entry
  // below it, and only a group inside active ones is active.
  predicate Linked(stack: List<Entry>) {
    stack.Cons? ==>
      && stack.head.parentActive == Active(stack.tail) && (stack.head.active ==> stack.head.parentActive && stack.head.seenTrue)
      && Linked(stack.tail)
  }

  predicate AllActive(stack: List<Entry>) { stack.Cons? ==> stack.head.active && AllActive(stack.tail) }

  lemma {:induction false} StepLinked(holds: Oracle, d: Directive, st: State)
    requires Linked(st.stack) && Step(holds, d, st).Ok?
    ensures Linked(Step(holds, d, st).value.stack)
  {
  }

  lemma {:induction false} ReachableLinked(holds: Oracle, ds: List<Directive>, st: State)
    requires Linked(st.stack) && Run(holds, ds, st).Ok?
    ensures Linked(Run(holds, ds, st).value.stack)
    decreases ds
  {
    if ds.Cons? {
      StepLinked(holds, ds.head, st);
      ReachableLinked(holds, ds.tail, Step(holds, ds.head, st).value);
    }
  }

  // A line is passed on only when every group around it is active.
  lemma {:induction false} ActiveThroughout(stack: List<Entry>)
    requires Linked(stack)
    ensures Active(stack) <==> AllActive(stack)
    decreases stack
  {
    if stack.Cons? { ActiveThroughout(stack.tail); }
  }

  // The outermost n entries.
  function Outer(stack: List<Entry>, n: nat): (r: List<Entry>)
    ensures n <= Len(stack) ==> Len(r) == n
  {
    if Len(stack) <= n then stack else Outer(stack.tail, n)
  }

  // No directive closes any of the outermost n conditionals.
  predicate Stays(holds: Oracle, ds: List<Directive>, st: State, n: nat)
    decreases ds
  {
    && n <= Len(st.stack)
    && (ds.Cons? && Step(holds, ds.head, st).Ok? ==> Stays(holds, ds.tail, Step(holds, ds.head, st).value, n))
  }

  // A group that was read is over, and its chain is not.
  predicate Over(e: Entry) { e.seenTrue && !e.active }

  lemma {:induction false} StepOver(holds: Oracle, d: Directive, st: State, n: nat)
    requires Linked(st.stack) && 0 < n <= Len(st.stack) && Over(Outer(st.stack, n).head) && Step(holds, d, st).Ok?
    requires n <= Len(Step(holds, d, st).value.stack)
    ensures var next := Step(holds, d, st).value;
            next.output == st.output && Over(Outer(next.stack, n).head) && Outer(next.stack, n).tail == Outer(st.stack, n).tail
  {
    InsideOver(st.stack, n);
  }

  // Inside a group that is over nothing is active.
  lemma {:induction false} InsideOver(stack: List<Entry>, n: nat)
    requires Linked(stack) && 0 < n <= Len(stack) && !Outer(stack, n).head.active
    ensures !Active(stack)
    decreases stack
  {
    if Len(stack) > n { InsideOver(stack.tail, n); }
  }

  lemma {:induction false} OverStays(holds: Oracle, ds: List<Directive>, st: State, n: nat)
    requires Linked(st.stack) && 0 < n <= Len(st.stack) && Over(Outer(st.stack, n).head)
    requires Stays(holds, ds, st, n) && Run(holds, ds, st).Ok?
    ensures var last := Run(holds, ds, st).value;
            && n <= Len(last.stack) && Over(Outer(last.stack, n).head) && Outer(last.stack, n).tail == Outer(st.stack, n).tail
            && last.output == st.output
    decreases ds
  {
    if ds.Cons? {
      var next := Step(holds, ds.head, st).value;
      StepLinked(holds, ds.head, st);
      StepOver(holds, ds.head, st, n);
      OverStays(holds, ds.tail, next, n);
    }
  }

  // A chain that has had a true group never has another.  From the #elif or #else
  // that ends the group, as long as the chain's own #endif has not come, whatever
  // the directives and however they nest, the chain is inactive and no line is
  // passed on.
  lemma {:induction false} OneGroup(holds: Oracle, d: Directive, ds: List<Directive>, st: State)
    requires Linked(st.stack) && st.stack.Cons? && st.stack.head.seenTrue && (d.Elif? || d.Else?)
    requires Stays(holds, Cons(d, ds), st, Len(st.stack)) && Run(holds, Cons(d, ds), st).Ok?
    ensures var n, last := Len(st.stack), Run(holds, Cons(d, ds), st).value;
            && n <= Len(last.stack) && !Outer(last.stack, n).head.active && Outer(last.stack, n).tail == st.stack.tail
            && !Active(last.stack) && last.output == st.output
  {
    var next, n := Step(holds, d, st).value, Len(st.stack);
    StepLinked(holds, d, st);
    OverStays(holds, ds, next, n);
    ReachableLinked(holds, ds, next);
    InsideOver(Run(holds, ds, next).value.stack, n);
  }

  // What is accepted.

  // Every #elif, #else and #endif inside a conditional, and every conditional
  // closed.
  predicate Balanced(ds: List<Directive>, depth: nat) {
    match ds
    case Nil => depth == 0
    case Cons(Line(_), rest) => Balanced(rest, depth)
    case Cons(If(_), rest) => Balanced(rest, depth + 1)
    case Cons(Elif(_), rest) => depth > 0 && Balanced(rest, depth)
    case Cons(Else, rest) => depth > 0 && Balanced(rest, depth)
    case Cons(Endif, rest) => depth > 0 && Balanced(rest, depth - 1)
  }

  // No #elif and no #else after the #else of the same conditional; of the open
  // conditionals, those that have had it.
  predicate ElseLast(ds: List<Directive>, open: List<bool>) {
    match ds
    case Nil => true
    case Cons(Line(_), rest) => ElseLast(rest, open)
    case Cons(If(_), rest) => ElseLast(rest, Cons(false, open))
    case Cons(Elif(_), rest) => open.Cons? && !open.head && ElseLast(rest, open)
    case Cons(Else, rest) => open.Cons? && !open.head && ElseLast(rest, Cons(true, open.tail))
    case Cons(Endif, rest) => open.Cons? && ElseLast(rest, open.tail)
  }

  predicate Accepts(holds: Oracle, ds: List<Directive>) {
    var r := Run(holds, ds, State(Nil, []));
    r.Ok? && r.value.stack.Nil?
  }

  lemma {:induction false} AcceptsBalanced(holds: Oracle, ds: List<Directive>, st: State)
    ensures var r := Run(holds, ds, st); r.Ok? && r.value.stack.Nil? <==> Balanced(ds, Len(st.stack))
    decreases ds
  {
    if ds.Cons? {
      var next := Step(holds, ds.head, st);
      if next.Ok? { AcceptsBalanced(holds, ds.tail, next.value); }
    }
  }

  lemma {:induction false} FlattenBalanced(parts: List<Part>, more: List<Directive>, open: List<bool>)
    ensures Balanced(Flatten(parts, more), Len(open)) <==> Balanced(more, Len(open))
    ensures ElseLast(Flatten(parts, more), open) <==> ElseLast(more, open)
    decreases parts
  {
    match parts {
      case Nil =>
      case Cons(Text(_), tail) => FlattenBalanced(tail, more, open);
      case Cons(Conditional(_, body, rest), tail) =>
        FlattenBalanced(body, FlattenChain(rest, Flatten(tail, more)), Cons(false, open));
        ChainBalanced(rest, Flatten(tail, more), open);
        FlattenBalanced(tail, more, open);
    }
  }

  lemma {:induction false} ChainBalanced(chain: Chain, more: List<Directive>, open: List<bool>)
    ensures Balanced(FlattenChain(chain, more), Len(open) + 1) <==> Balanced(more, Len(open))
    ensures ElseLast(FlattenChain(chain, more), Cons(false, open)) <==> ElseLast(more, open)
    decreases chain
  {
    match chain {
      case NoMore =>
      case Otherwise(_, body, rest) =>
        FlattenBalanced(body, FlattenChain(rest, more), Cons(false, open));
        ChainBalanced(rest, more, open);
      case Finally(body) =>
        FlattenBalanced(body, Cons(Endif, more), Cons(false, open));
        FlattenBalanced(body, Cons(Endif, more), Cons(true, open));
    }
  }

  predicate Closing(ds: List<Directive>) { ds.Nil? || ds.head.Elif? || ds.head.Else? || ds.head.Endif? }

  // The parts a list begins with, up to the end of the group they are in.
  lemma {:induction false} PartsOf(ds: List<Directive>, open: List<bool>) returns (parts: List<Part>, more: List<Directive>)
    requires Balanced(ds, Len(open)) && ElseLast(ds, open)
    ensures ds == Flatten(parts, more) && Closing(more) && Len(more) <= Len(ds)
    ensures Balanced(more, Len(open)) && ElseLast(more, open)
    decreases Len(ds)
  {
    if Closing(ds) { return Nil, ds; }
    var tail;
    if ds.head.Line? {
      tail, more := PartsOf(ds.tail, open);
      parts := Cons(Text(ds.head.id), tail);
    } else {
      var body, after := PartsOf(ds.tail, Cons(false, open));
      var rest, next := ChainOf(after, open);
      tail, more := PartsOf(next, open);
      parts := Cons(Conditional(ds.head.condition, body, rest), tail);
    }
  }

  lemma {:induction false} ChainOf(ds: List<Directive>, open: List<bool>) returns (chain: Chain, more: List<Directive>)
    requires Closing(ds) && Balanced(ds, Len(open) + 1) && ElseLast(ds, Cons(false, open))
    ensures ds == FlattenChain(chain, more) && Len(more) < Len(ds)
    ensures Balanced(more, Len(open)) && ElseLast(more, open)
    decreases Len(ds)
  {
    if ds.head.Endif? { return NoMore, ds.tail; }
    if ds.head.Elif? {
      var body, after := PartsOf(ds.tail, Cons(false, open));
      var rest;
      rest, more := ChainOf(after, open);
      chain := Otherwise(ds.head.condition, body, rest);
    } else {
      var body, after := PartsOf(ds.tail, Cons(true, open));
      chain, more := Finally(body), after.tail;
    }
  }

  // The accepted sources in which #else comes last in its conditional are exactly
  // the nested ones.
  lemma {:induction false} AcceptsNested(holds: Oracle, ds: List<Directive>)
    ensures Accepts(holds, ds) && ElseLast(ds, Nil) <==> exists parts :: ds == Flatten(parts, Nil)
  {
    AcceptsBalanced(holds, ds, State(Nil, []));
    if Accepts(holds, ds) && ElseLast(ds, Nil) {
      var parts, more := PartsOf(ds, Nil);
      assert ds == Flatten(parts, Nil);
    }
    if exists parts :: ds == Flatten(parts, Nil) {
      var parts :| ds == Flatten(parts, Nil);
      FlattenBalanced(parts, Nil, Nil);
    }
  }

  // A second #else is accepted; C does not allow it.
  lemma {:induction false} SecondElse(holds: Oracle, c: nat)
    ensures var ds := Cons(If(c), Cons(Else, Cons(Else, Cons(Endif, Nil)))); Accepts(holds, ds) && !ElseLast(ds, Nil)
  {
    AcceptsBalanced(holds, Cons(If(c), Cons(Else, Cons(Else, Cons(Endif, Nil)))), State(Nil, []));
  }

  // The stack as the preprocessor keeps it, innermost entry last.
  function Listed(entries: seq<Entry>): List<Entry>
    decreases |entries|
  {
    if entries == [] then Nil else Cons(entries[|entries| - 1], Listed(entries[..|entries| - 1]))
  }

  function From(ds: seq<Directive>, i: nat): List<Directive>
    requires i <= |ds|
    decreases |ds| - i
  {
    if i == |ds| then Nil else Cons(ds[i], From(ds, i + 1))
  }

  class Conditions {
    var entries: seq<Entry>

    constructor ()
      ensures entries == []
    {
      entries := [];
    }

    predicate IsActive()
      reads this
    {
      entries == [] || entries[|entries| - 1].active
    }

    method Begin(value: bool)
      modifies this
      ensures Listed(entries) == Cons(Entry(old(IsActive()), old(IsActive()) && value, old(IsActive()) && value), Listed(old(entries)))
    {
      var active := IsActive();
      entries := entries + [Entry(active, active && value, active && value)];
      assert entries[..|entries| - 1] == old(entries);
    }

    // The condition is evaluated only where no group has been chosen.
    method Alternative(holds: Oracle, condition: nat, output: seq<nat>) returns (ok: bool)
      modifies this
      ensures var r := Step(holds, Elif(condition), State(Listed(old(entries)), output));
              ok == r.Ok? && (ok ==> r.value == State(Listed(entries), output)) && (!ok ==> entries == old(entries))
    {
      if entries == [] { return false; }
      var e := entries[|entries| - 1];
      if e.seenTrue || !e.parentActive {
        Replace(e.(active := false));
      } else {
        var value := holds(condition, output);
        Replace(e.(active := value, seenTrue := value));
      }
      ok := true;
    }

    method Last(holds: Oracle, output: seq<nat>) returns (ok: bool)
      modifies this
      ensures var r := Step(holds, Else, State(Listed(old(entries)), output));
              ok == r.Ok? && (ok ==> r.value == State(Listed(entries), output)) && (!ok ==> entries == old(entries))
    {
      if entries == [] { return false; }
      var e := entries[|entries| - 1];
      if e.seenTrue { Replace(e.(active := false)); } else { Replace(e.(active := e.parentActive, seenTrue := true)); }
      ok := true;
    }

    method Replace(e: Entry)
      requires entries != []
      modifies this
      ensures entries != [] && Listed(entries) == Cons(e, Listed(old(entries)).tail)
    {
      entries := entries[..|entries| - 1] + [e];
      assert entries[..|entries| - 1] == old(entries)[..|old(entries)| - 1];
    }
  }

  // The loop over a source's lines: an unfinished conditional is an error too.
  method Process(holds: Oracle, ds: seq<Directive>) returns (ok: bool, output: seq<nat>)
    ensures var r := Run(holds, From(ds, 0), State(Nil, []));
            ok == (r.Ok? && r.value.stack.Nil?) && (ok ==> output == r.value.output)
  {
    var conditions := new Conditions();
    output := [];
    var i := 0;
    while i < |ds|
      invariant 0 <= i <= |ds|
      invariant Run(holds, From(ds, i), State(Listed(conditions.entries), output)) == Run(holds, From(ds, 0), State(Nil, []))
    {
      match ds[i] {
        case Line(id) => if conditions.IsActive() { output := output + [id]; }
        case If(c) =>
          var value := false;
          if conditions.IsActive() { value := holds(c, output); }
          conditions.Begin(value);
        case Elif(c) =>
          ok := conditions.Alternative(holds, c, output);
          if !ok { return; }
        case Else =>
          ok := conditions.Last(holds, output);
          if !ok { return; }
        case Endif =>
          if conditions.entries == [] { return false, output; }
          conditions.entries := conditions.entries[..|conditions.entries| - 1];
      }
      i := i + 1;
    }
    ok := conditions.entries == [];
  }
}
