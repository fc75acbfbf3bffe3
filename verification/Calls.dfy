// A call from the caller's last instruction to the callee's return: what the
// convention, the frame, the prologue and the compiled body do together.
module Calls {
  import opened Words
  import opened Lists
  import opened Options
  import opened Ir
  import opened Ast
  import opened Statements
  import opened Functions
  import opened EndToEnd
  import M = Machine
  import Frame
  import Prologue

  function OnStack(n: nat): nat { if n <= REGISTER_ARGS then 0 else n - REGISTER_ARGS }

  // The words a call passes, as the callee comes to them.
  function Passed(h: M.Host, d: M.Data, n: nat): List<int> {
    Append(M.Registers(d.r, 0, n - OnStack(n)), M.StackParameters(Cons(h.stale(0), Cons(h.stale(1), d.stack)), 0, OnStack(n)))
  }

  function WordList(vs: seq<int>, i: nat): List<int>
    requires i <= |vs|
    decreases |vs| - i
  {
    if i == |vs| then Nil else Cons(U64(vs[i]), WordList(vs, i + 1))
  }

  // The caller's pushed words, where the callee's frame pointer finds them.
  ghost predicate Visible(h: M.Host, d: M.Data, n: nat, rbp: int, m: Mem) {
    forall i :: 0 <= i < OnStack(n) ==>
      LoadBytes(m, rbp + M.SAVED_BYTES + 8 * i, 8) == M.WordAt(Cons(h.stale(0), Cons(h.stale(1), d.stack)), M.SAVED_BYTES + 8 * i)
  }

  // Memory when the prologue is done.
  function Entered(types: seq<Ty>, at: seq<int>, r: M.Regs, rbp: int, m: Mem): Mem
    requires |types| == |at|
  {
    var s := Prologue.Stores(types, at, |types|);
    Prologue.Run(s, |s|, r, rbp, m)
  }

  // The frame holds an object for each register parameter, and the names of the
  // parameters stand for these objects.
  ghost predicate Bound(types: seq<Ty>, names: seq<Symbol>, at: seq<int>, first: nat, objects: seq<Frame.Extent>, frameSize: nat, env: Env) {
    && |types| == |names| == |at|
    && Frame.ParametersKept(Prologue.Parameters(types), at, first, objects) && Frame.Stacked(objects, frameSize)
    && Prologue.Addressable(env.rbp, frameSize, |types|)
    && forall k :: 0 <= k < |names| ==> names[k] in env.locals && env.locals[names[k]] == at[k]
  }

  function Nth(xs: List<int>, k: nat): int {
    if xs.Nil? then 0 else if k == 0 then xs.head else Nth(xs.tail, k - 1)
  }

  lemma {:induction false} NthWord(vs: seq<int>, i: nat, k: nat)
    requires i + k < |vs|
    ensures Nth(WordList(vs, i), k) == U64(vs[i + k])
    decreases k
  {
    if k > 0 { NthWord(vs, i + 1, k - 1); }
  }

  lemma {:induction false} NthRegister(r: M.Regs, i: nat, n: nat, k: nat)
    requires i + k < n <= REGISTER_ARGS
    ensures Nth(M.Registers(r, i, n), k) == r.Get(M.ArgumentRegister(i + k))
    decreases k
  {
    if k > 0 { NthRegister(r, i + 1, n, k - 1); }
  }

  lemma {:induction false} NthParameter(inCallee: List<int>, i: nat, n: nat, k: nat)
    requires i + k < n
    ensures Nth(M.StackParameters(inCallee, i, n), k) == M.WordAt(inCallee, M.SAVED_BYTES + 8 * (i + k))
    decreases k
  {
    if k > 0 { NthParameter(inCallee, i + 1, n, k - 1); }
  }

  lemma {:induction false} NthAppend(xs: List<int>, ys: List<int>, k: nat)
    ensures Nth(Append(xs, ys), k) == if k < Len(xs) then Nth(xs, k) else Nth(ys, k - Len(xs))
    decreases xs
  {
    if xs.Cons? && k > 0 { NthAppend(xs.tail, ys, k - 1); }
  }

  lemma {:induction false} RegistersLen(r: M.Regs, i: nat, n: nat)
    requires i <= n <= REGISTER_ARGS
    ensures Len(M.Registers(r, i, n)) == n - i
    decreases n - i
  {
    if i < n { RegistersLen(r, i + 1, n); }
  }

  // What the call passes is what the prologue takes delivery of.
  lemma {:induction false} PassedIsDelivered(h: M.Host, d: M.Data, vs: seq<int>, rbp: int, m: Mem)
    requires Passed(h, d, |vs|) == WordList(vs, 0) && Visible(h, d, |vs|, rbp, m)
    ensures Prologue.Delivered(vs, d.r, rbp, m)
  {
    hide LoadBytes, M.WordAt, U64, M.Registers, M.StackParameters, WordList, Append;
    var n, inCallee := |vs|, Cons(h.stale(0), Cons(h.stale(1), d.stack));
    var rs, ws := M.Registers(d.r, 0, n - OnStack(n)), M.StackParameters(inCallee, 0, OnStack(n));
    RegistersLen(d.r, 0, n - OnStack(n));
    forall k | 0 <= k < n
      ensures if k < REGISTER_ARGS then d.r.Get(M.ArgumentRegister(k)) == U64(vs[k])
              else LoadBytes(m, Prologue.StackSlot(rbp, k), 8) == U64(vs[k])
    {
      NthWord(vs, 0, k);
      NthAppend(rs, ws, k);
      if k < REGISTER_ARGS {
        NthRegister(d.r, 0, n - OnStack(n), k);
      } else {
        NthParameter(inCallee, 0, OnStack(n), k - REGISTER_ARGS);
      }
    }
  }

  // The call goes on with what its callee makes of the words passed.
  lemma {:induction false} CallContinues(h: M.Host, target: int, d: M.Data)
    requires M.DoCall(h, target, d).Some?
    ensures var (v, m) := h.env.call(target, Passed(h, d, h.env.arity(target)), d.mem);
            M.DoCall(h, target, d).value.r.rax == U64(v) && M.DoCall(h, target, d).value.mem == m
  {
  }

  // From the call to the returned value.  The caller passes the values vs; once the
  // callee's prologue is done every parameter's name means the value passed, in the
  // parameter's type; and when the body, run from there, returns, so does its
  // machine code, with the value in RAX and the body's memory.  A caller for whom
  // the call means just that goes on with that value and that memory.
  lemma {:induction false} CallReturns(caller: M.Host, d: M.Data, target: int, vs: seq<int>, types: seq<Ty>, names: seq<Symbol>,
                                       at: seq<int>, first: nat, objects: seq<Frame.Extent>, frameSize: nat,
                                       body: List<Stmt>, ret: Ty, callee: M.Host, m: Mem, fuel: nat)
    returns (n: nat)
    requires M.DoCall(caller, target, d).Some? && caller.env.arity(target) == |vs| == |types|
    requires Passed(caller, d, |vs|) == WordList(vs, 0) && Visible(caller, d, |vs|, callee.env.rbp, m)
    requires Bound(types, names, at, first, objects, frameSize, callee.env) && Accepted(body)
    requires ExecFunction(body, Run(Entered(types, at, d.r, callee.env.rbp, m)), callee.env, ret, fuel).Returned?
    ensures var entered := Entered(types, at, d.r, callee.env.rbp, m);
            var sig := ExecFunction(body, Run(entered), callee.env, ret, fuel);
            var s := M.Run(CompiledFunction(body, ret, callee.env), callee, M.Running(0, M.Data(d.r, None, Nil, entered)), n);
            && (forall k :: 0 <= k < |vs| ==> Meaning(Name(types[k], names[k]), callee.env, entered) == Means(Wrap(types[k], vs[k]), entered))
            && s.Returned? && s.mem == sig.m && (sig.result.Some? ==> s.rax == U64(sig.result.value))
            && (caller.env.call(target, WordList(vs, 0), d.mem) == (s.rax, s.mem) ==>
                  M.DoCall(caller, target, d).value.r.rax == U64(s.rax) && M.DoCall(caller, target, d).value.mem == s.mem)
  {
    hide M.Run, ExecFunction, Accepted, CompiledFunction, Passed, M.DoCall, Entered;
    var entered := Entered(types, at, d.r, callee.env.rbp, m);
    PassedIsDelivered(caller, d, vs, callee.env.rbp, m);
    forall k | 0 <= k < |vs|
      ensures Meaning(Name(types[k], names[k]), callee.env, entered) == Means(Wrap(types[k], vs[k]), entered)
    {
      ParameterMeans(types, vs, names, at, first, objects, frameSize, callee.env, d.r, m, k);
    }
    CallContinues(caller, target, d);
    n := FunctionReturns(body, ret, callee, M.Data(d.r, None, Nil, entered), fuel);
  }

  lemma {:induction false} ParameterMeans(types: seq<Ty>, vs: seq<int>, names: seq<Symbol>, at: seq<int>, first: nat,
                                          objects: seq<Frame.Extent>, frameSize: nat, env: Env, r: M.Regs, m: Mem, k: nat)
    requires |types| == |vs| && k < |vs| && Bound(types, names, at, first, objects, frameSize, env)
    requires Prologue.Delivered(vs, r, env.rbp, m)
    ensures var entered := Entered(types, at, r, env.rbp, m);
            Meaning(Name(types[k], names[k]), env, entered) == Means(Wrap(types[k], vs[k]), entered)
  {
    hide LoadBytes, Wrap, Prologue.Delivered, Frame.ParametersKept, Frame.Stacked, Prologue.Stores, Prologue.Run;
    Prologue.ParametersHeld(types, vs, at, first, objects, frameSize, r, env.rbp, m, k);
    U64Twice(env.rbp + at[k]);
  }
}
