// The machine code of a flat list runs the list.
module Compiled {
  import opened Words
  import opened Lists
  import opened Ropes
  import opened Options
  import opened Ir
  import opened Machine
  import opened Flow
  import opened GenFlat
  import F = FlatIr

  // Where the code of the k-th instruction starts.
  function Offset(r: Rope<F.Inst>, k: nat, env: Env): nat {
    if k >= Size(r) then Size(ListCode(r, env))
    else
      match r
      case Cat(a, b) =>
        if k < Size(a) then Offset(a, k, env) else Size(ListCode(a, env)) + Offset(b, k - Size(a), env)
      case _ => 0
  }

  lemma {:induction false} EmptyList(r: Rope<F.Inst>, env: Env)
    requires Size(r) == 0
    ensures Size(ListCode(r, env)) == 0
  {
    match r
    case Empty =>
    case One(_) =>
    case Cat(a, b) => EmptyList(a, env); EmptyList(b, env);
  }

  lemma {:induction false} OffsetStart(r: Rope<F.Inst>, env: Env)
    ensures Offset(r, 0, env) == 0
  {
    if Size(r) == 0 {
      EmptyList(r, env);
    } else if r.Cat? {
      OffsetStart(r.left, env);
      OffsetStart(r.right, env);
      if Size(r.left) == 0 { EmptyList(r.left, env); }
    }
  }

  // Each instruction's code stands between its offset and the next.
  lemma {:induction false} InstPlaced(code: seq<Instr>, pos: nat, r: Rope<F.Inst>, k: nat, env: Env)
    requires At(code, pos, ListCode(r, env)) && k < Size(r)
    ensures At(code, pos + Offset(r, k, env), InstCode(Flat(r)[k], env))
    ensures Offset(r, k + 1, env) == Offset(r, k, env) + Size(InstCode(Flat(r)[k], env))
    decreases r
  {
    hide At, InstCode;
    match r {
      case One(_) =>
      case Cat(a, b) =>
        AtCat(code, pos, ListCode(a, env), ListCode(b, env));
        if k < Size(a) {
          InstPlaced(code, pos, a, k, env);
          OffsetStart(b, env);
        } else {
          InstPlaced(code, pos + Size(ListCode(a, env)), b, k - Size(a), env);
        }
    }
  }

  lemma {:induction false} CountPiece(r: Rope<F.Inst>, k: nat, env: Env, l: Label)
    requires k < Size(r)
    ensures Count(InstCode(Flat(r)[k], env), l) <= Count(ListCode(r, env), l)
    decreases r
  {
    hide InstCode;
    match r {
      case One(_) =>
      case Cat(a, b) =>
        if k < Size(a) { CountPiece(a, k, env, l); } else { CountPiece(b, k - Size(a), env, l); }
    }
  }

  lemma {:induction false} WellFormedPiece(r: Rope<F.Inst>, k: nat)
    requires WellFormedList(r) && k < Size(r)
    ensures WellFormedInst(Flat(r)[k])
    decreases r
  {
    match r {
      case One(_) =>
      case Cat(a, b) => if k < Size(a) { WellFormedPiece(a, k); } else { WellFormedPiece(b, k - Size(a)); }
    }
  }

  // The whole function after its prologue.
  function FunctionCode(r: Rope<F.Inst>, env: Env): Code { Cat(ListCode(r, env), Epilogue()) }

  ghost predicate Ready(r: Rope<F.Inst>, env: Env) {
    WellFormedList(r) && Unique(FunctionCode(r, env))
  }

  // A running list and a running machine at the same instruction.
  ghost predicate Same(r: Rope<F.Inst>, env: Env, s: F.State, t: State) {
    match s
    case At(pc, m) => pc <= Size(r) && t.Running? && t.pc == Offset(r, pc, env) && Rests(t.d, m)
    case Left(None, m) => t.Returned? && t.mem == m
    case Left(Some(v), m) => t == Returned(U64(v), m)
    case Trapped => t == Fault
    case _ => true
  }

  // A label of the list and a label of the machine code stand at the same place.
  lemma {:induction false} MarkPlaced(code: seq<Instr>, r: Rope<F.Inst>, env: Env, l: Label, q: nat)
    requires code == Flat(FunctionCode(r, env)) && UniqueLabels(code)
    requires q < Size(r) && Flat(r)[q] == F.Mark(l)
    ensures Position(code, l, 0) == Offset(r, q, env) < |code|
  {
    AtAll(FunctionCode(r, env));
    AtCat(code, 0, ListCode(r, env), Epilogue());
    InstPlaced(code, 0, r, q, env);
    AtOne(code, Offset(r, q, env), Lab(l));
    Lands(code, l, Offset(r, q, env));
  }

  lemma {:induction false} EndMirrored(code: seq<Instr>, h: Host, r: Rope<F.Inst>, m: Mem, t: State) returns (n: nat)
    requires code == Flat(FunctionCode(r, h.env)) && UniqueLabels(code)
    requires Same(r, h.env, F.At(Size(r), m), t)
    ensures n > 0 && Same(r, h.env, F.Left(None, m), Run(code, h, t, n))
  {
    hide ListCode, Epilogue, Flat;
    AtAll(FunctionCode(r, h.env));
    AtCat(code, 0, ListCode(r, h.env), Epilogue());
    n := PassRuns(code, h, Size(ListCode(r, h.env)), Epilogue(), Going(t.d));
    EpiloguePass(h, t.d);
  }

  lemma {:induction false} InstMirrored(code: seq<Instr>, h: Host, r: Rope<F.Inst>, pc: nat, m: Mem, t: State)
    returns (n: nat)
    requires code == Flat(FunctionCode(r, h.env)) && UniqueLabels(code) && Ready(r, h.env)
    requires pc < Size(r) && Same(r, h.env, F.At(pc, m), t)
    ensures n > 0
    ensures var f := Pass(h, InstCode(Flat(r)[pc], h.env), Going(t.d));
            && Run(code, h, t, n) == Image(code, Offset(r, pc + 1, h.env), f)
            && Mirrors(F.Perform(Flat(r)[pc], h.env, m), f)
  {
    hide InstCode, Offset, Pass, UniqueLabels, F.Perform, Image, Flat, ListCode;
    var i, list := Flat(r)[pc], ListCode(r, h.env);
    AtAll(FunctionCode(r, h.env));
    AtCat(code, 0, list, Epilogue());
    InstPlaced(code, 0, r, pc, h.env);
    UniqueParts(list, Epilogue());
    forall l ensures Count(InstCode(i, h.env), l) <= 1 { CountPiece(r, pc, h.env, l); }
    WellFormedPiece(r, pc);
    InstCorrect(h, i, t.d);
    InstNonempty(i, h.env);
    n := PassRuns(code, h, Offset(r, pc, h.env), InstCode(i, h.env), Going(t.d));
    RunningImage(code, t);
  }

  lemma {:induction false} RunningImage(code: seq<Instr>, t: State)
    requires t.Running?
    ensures Image(code, t.pc, Going(t.d)) == t
  {
  }

  // One step of the list is one or more steps of the machine.
  lemma {:induction false} StepMirrored(code: seq<Instr>, h: Host, r: Rope<F.Inst>, pc: nat, m: Mem, t: State)
    returns (n: nat)
    requires code == Flat(FunctionCode(r, h.env)) && UniqueLabels(code) && Ready(r, h.env)
    requires Same(r, h.env, F.At(pc, m), t)
    requires !F.Step(Flat(r), h.env, F.At(pc, m)).Lost?
    ensures n > 0 && Same(r, h.env, F.Step(Flat(r), h.env, F.At(pc, m)), Run(code, h, t, n))
  {
    hide UniqueLabels, Ready, Run, Pass, InstCode, ListCode, Mirrors, Image, Offset;
    if pc == Size(r) {
      n := EndMirrored(code, h, r, m, t);
      return;
    }
    n := InstMirrored(code, h, r, pc, m, t);
    ThreadMirrored(code, r, h.env, pc + 1, F.Perform(Flat(r)[pc], h.env, m), Pass(h, InstCode(Flat(r)[pc], h.env), Going(t.d)));
  }

  lemma {:induction false} ThreadMirrored(code: seq<Instr>, r: Rope<F.Inst>, env: Env, pc: nat, thread: F.Thread, f: Flow)
    requires code == Flat(FunctionCode(r, env)) && UniqueLabels(code)
    requires pc <= Size(r) && Mirrors(thread, f) && !F.Place(Flat(r), pc, thread).Lost?
    requires thread.Stopped? ==> !thread.s.At?
    ensures Same(r, env, F.Place(Flat(r), pc, thread), Image(code, Offset(r, pc, env), f))
  {
    hide UniqueLabels, ListCode, InstCode, Offset;
    if thread.Bound? {
      MarkPlaced(code, r, env, thread.l, F.Find(Flat(r), thread.l, 0));
    }
  }

  lemma {:induction false} StoppedList(code: seq<F.Inst>, env: Env, s: F.State, k: nat)
    requires !s.At?
    ensures F.Run(code, env, s, k) == s
    decreases k
  {
    if k > 0 { StoppedList(code, env, s, k - 1); }
  }

  // A run of the list is a run of the machine, no shorter as long as it goes on.
  lemma {:induction false} RunMirrored(code: seq<Instr>, h: Host, r: Rope<F.Inst>, s: F.State, t: State, k: nat)
    returns (n: nat)
    requires code == Flat(FunctionCode(r, h.env)) && UniqueLabels(code) && Ready(r, h.env)
    requires Same(r, h.env, s, t)
    requires !F.Run(Flat(r), h.env, s, k).Lost? && !F.Run(Flat(r), h.env, s, k).Unspecified?
    ensures Same(r, h.env, F.Run(Flat(r), h.env, s, k), Run(code, h, t, n))
    ensures F.Run(Flat(r), h.env, s, k).At? ==> n >= k
    decreases k
  {
    hide UniqueLabels, Ready, F.Step, Step, Same;
    n := 0;
    if k > 0 && !s.At? {
      StoppedList(Flat(r), h.env, s, k);
    } else if k > 0 {
      var s1 := F.Step(Flat(r), h.env, s);
      if s1.Lost? { StoppedList(Flat(r), h.env, s1, k - 1); }
      var n1 := StepMirrored(code, h, r, s.pc, s.m, t);
      var n2 := RunMirrored(code, h, r, s1, Run(code, h, t, n1), k - 1);
      RunAdd(code, h, t, n1, n2);
      n := n1 + n2;
    }
  }
}
