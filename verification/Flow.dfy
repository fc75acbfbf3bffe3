// Code read once from top to bottom.  A jump is a search that skips instructions
// until its label comes by, so a stretch of code acts on the state that enters
// it without reference to where it stands.  PassRuns ties this reading to the
// machine.
module Flow {
  import opened Options
  import opened Ir
  import opened Lists
  import opened Machine
  import opened Ropes

  type Code = Rope<Instr>

  datatype Flow = Going(d: Data) | Seeking(l: Label, d: Data) | Ended(rax: int, mem: Mem) | Faulted

  function Execute(h: Host, i: Instr, d: Data): Flow {
    match i
    case Jmp(l) => Seeking(l, d)
    case Jcc(cond, l) =>
      if d.flags == None then Faulted
      else if Holds(cond, d.flags.value.0, d.flags.value.1) then Seeking(l, d)
      else Going(d)
    case Ret => if d.stack.Nil? then Ended(d.r.rax, d.mem) else Faulted
    case _ =>
      match Do(h, i, d)
      case None => Faulted
      case Some(d') => Going(d')
  }

  function Through(h: Host, i: Instr, f: Flow): Flow {
    match f
    case Going(d) => Execute(h, i, d)
    case Seeking(l, d) => if i == Lab(l) then Going(d) else f
    case _ => f
  }

  function Pass(h: Host, r: Code, f: Flow): Flow {
    match r
    case Empty => f
    case One(i) => Through(h, i, f)
    case Cat(a, b) => Pass(h, b, Pass(h, a, f))
  }

  // How often a label is defined.
  function Count(r: Code, l: Label): nat {
    match r
    case Empty => 0
    case One(i) => if i == Lab(l) then 1 else 0
    case Cat(a, b) => Count(a, l) + Count(b, l)
  }

  ghost predicate Unique(r: Code) {
    forall l :: Count(r, l) <= 1
  }

  lemma {:induction false} UniqueParts(a: Code, b: Code)
    requires Unique(Cat(a, b))
    ensures Unique(a) && Unique(b)
    ensures forall l :: Count(a, l) > 0 ==> Count(b, l) == 0
  {
    forall l ensures Count(a, l) <= 1 && Count(b, l) <= 1 && (Count(a, l) > 0 ==> Count(b, l) == 0) {
      assert Count(Cat(a, b), l) <= 1;
    }
  }

  // A search passes over code that does not define its label.
  lemma {:induction false} PassOver(h: Host, r: Code, l: Label, d: Data)
    requires Count(r, l) == 0
    ensures Pass(h, r, Seeking(l, d)) == Seeking(l, d)
  {
    match r
    case Empty =>
    case One(_) =>
    case Cat(a, b) => PassOver(h, a, l, d); PassOver(h, b, l, d);
  }

  lemma {:induction false} PassStopped(h: Host, r: Code, f: Flow)
    requires f.Ended? || f.Faulted?
    ensures Pass(h, r, f) == f
  {
    match r
    case Empty =>
    case One(_) =>
    case Cat(a, b) => PassStopped(h, a, f); PassStopped(h, b, f);
  }

  lemma {:induction false} EmptyPass(h: Host, r: Code, f: Flow)
    requires Size(r) == 0
    ensures Pass(h, r, f) == f
  {
    match r
    case Empty =>
    case One(_) =>
    case Cat(a, b) => EmptyPass(h, a, f); EmptyPass(h, b, f);
  }

  // The machine state a flow stands for at a point of the code.
  function Image(code: seq<Instr>, pc: nat, f: Flow): State {
    match f
    case Going(d) => Running(pc, d)
    case Seeking(l, d) => Jump(code, l, d)
    case Ended(rax, m) => Returned(rax, m)
    case Faulted => Fault
  }

  ghost predicate UniqueLabels(code: seq<Instr>) {
    forall i, j :: 0 <= i < j < |code| && code[i].Lab? && code[j].Lab? ==> code[i].id != code[j].id
  }

  lemma {:induction false} Lands(code: seq<Instr>, l: Label, at: nat)
    requires UniqueLabels(code) && at < |code| && code[at] == Lab(l)
    ensures Position(code, l, 0) == at
  {
    var p := Position(code, l, 0);
    assert p <= at && code[p] == Lab(l);
    assert code[p].Lab? && code[at].Lab? && code[p].id == code[at].id;
  }

  lemma {:induction false} ThroughRuns(code: seq<Instr>, h: Host, pc: nat, i: Instr, f: Flow) returns (n: nat)
    requires UniqueLabels(code) && pc < |code| && code[pc] == i
    ensures Run(code, h, Image(code, pc, f), n) == Image(code, pc + 1, Through(h, i, f))
    ensures f.Going? ==> n > 0
  {
    n := if f.Going? || (f.Seeking? && i == Lab(f.l)) then 1 else 0;
    if f.Seeking? && i == Lab(f.l) { Lands(code, f.l, pc); }
    var s := Image(code, pc, f);
    assert Run(code, h, s, 0) == s;
    assert Run(code, h, s, 1) == Run(code, h, Step(code, h, s), 0);
  }

  // The machine, started where a stretch of code begins, arrives where the
  // reading of that stretch says.
  lemma {:induction false} PassRuns(code: seq<Instr>, h: Host, pc: nat, r: Code, f: Flow) returns (n: nat)
    requires UniqueLabels(code) && At(code, pc, r)
    ensures Run(code, h, Image(code, pc, f), n) == Image(code, pc + Size(r), Pass(h, r, f))
    ensures f.Going? && Size(r) > 0 ==> n > 0
    decreases r
  {
    hide At, Flat, Through, UniqueLabels;
    match r {
      case Empty => n := 0;
      case One(i) =>
        AtOne(code, pc, i);
        n := ThroughRuns(code, h, pc, i, f);
      case Cat(a, b) =>
        AtCat(code, pc, a, b);
        var m := PassRuns(code, h, pc, a, f);
        var k := PassRuns(code, h, pc + Size(a), b, Pass(h, a, f));
        n := m + k;
        if Size(a) == 0 { EmptyPass(h, a, f); }
        RunAdd(code, h, Image(code, pc, f), m, k);
    }
  }

  // A label counted at most once in the rope stands at most once in the list.
  lemma {:induction false} CountAt(r: Code, k: nat, l: Label)
    requires k < Size(r) && Flat(r)[k] == Lab(l)
    ensures Count(r, l) >= 1
  {
    match r {
      case One(_) =>
      case Cat(a, b) =>
        if k < Size(a) { CountAt(a, k, l); } else { CountAt(b, k - Size(a), l); }
    }
  }

  lemma {:induction false} CountTwice(r: Code, j: nat, k: nat, l: Label)
    requires j < k < Size(r) && Flat(r)[j] == Lab(l) && Flat(r)[k] == Lab(l)
    ensures Count(r, l) >= 2
  {
    match r {
      case Cat(a, b) =>
        if k < Size(a) { CountTwice(a, j, k, l); }
        else if j >= Size(a) { CountTwice(b, j - Size(a), k - Size(a), l); }
        else { CountAt(a, j, l); CountAt(b, k - Size(a), l); }
      case _ =>
    }
  }

  lemma {:induction false} UniqueIsUnique(r: Code)
    requires Unique(r)
    ensures UniqueLabels(Flat(r))
  {
    var code := Flat(r);
    forall i, j | 0 <= i < j < |code| && code[i].Lab? && code[j].Lab? ensures code[i].id != code[j].id {
      if code[i].id == code[j].id { CountTwice(r, i, j, code[i].id); }
    }
  }
}
