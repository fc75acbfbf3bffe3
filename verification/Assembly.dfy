// From instructions to bytes: labels are bound where they stand, jumps are emitted
// with empty fields, and the fields are filled in at the end.
module Assembly {
  import opened Ropes
  import opened Lists
  import opened Patching
  import opened Statements
  import opened Functions
  import opened Compiled
  import opened EndToEnd
  import M = Machine
  import Flow
  import Closed
  import Ir
  import Words

  // The bytes of every other instruction are whatever the encoder makes them.
  type Encoding = M.Instr -> seq<Byte>

  function Bytes(i: M.Instr, encoding: Encoding): seq<Byte> {
    if i.Lab? then [] else if i.Jmp? then [0xe9] + Bytes32(0) else if i.Jcc? then [0x0f, 0x80 + i.cond] + Bytes32(0) else encoding(i)
  }

  function Emitted(code: seq<M.Instr>, encoding: Encoding, n: nat): seq<Byte>
    requires n <= |code|
  {
    if n == 0 then [] else Emitted(code, encoding, n - 1) + Bytes(code[n - 1], encoding)
  }

  // Where the n-th instruction starts.
  function OffsetAt(code: seq<M.Instr>, encoding: Encoding, n: nat): nat
    requires n <= |code|
  {
    |Emitted(code, encoding, n)|
  }

  function FixupsOf(code: seq<M.Instr>, encoding: Encoding, n: nat): seq<Fixup>
    requires n <= |code|
  {
    if n == 0 then []
    else
      var before, i, at := FixupsOf(code, encoding, n - 1), code[n - 1], OffsetAt(code, encoding, n - 1);
      if i.Jmp? then before + [Fixup(at + 1, i.target)] else if i.Jcc? then before + [Fixup(at + 2, i.target)] else before
  }

  // A label is bound at its last place among the first n instructions.
  ghost predicate BoundAt(code: seq<M.Instr>, encoding: Encoding, n: nat, id: nat, offset: int)
    requires n <= |code|
  {
    exists k :: 0 <= k < n && LastPlace(code, n, id, k) && offset == OffsetAt(code, encoding, k)
  }

  ghost predicate LastPlace(code: seq<M.Instr>, n: nat, id: nat, k: nat)
    requires k < n <= |code|
  {
    code[k] == M.Lab(id) && forall j :: k < j < n ==> code[j] != M.Lab(id)
  }

  ghost predicate TableOf(labels: seq<LabelSlot>, code: seq<M.Instr>, encoding: Encoding, n: nat)
    requires n <= |code|
  {
    forall id: nat, offset: int :: DefinedAt(labels, id, offset) <==> BoundAt(code, encoding, n, id, offset)
  }

  lemma {:induction false} LabelBound(before: seq<LabelSlot>, labels: seq<LabelSlot>, code: seq<M.Instr>, encoding: Encoding, n: nat)
    requires n < |code| && code[n].Lab? && TableOf(before, code, encoding, n) && DistinctIds(labels)
    requires DefinedAt(labels, code[n].id, OffsetAt(code, encoding, n))
    requires forall other, offset :: other != code[n].id ==> (DefinedAt(labels, other, offset) <==> DefinedAt(before, other, offset))
    ensures TableOf(labels, code, encoding, n + 1)
  {
    hide OffsetAt;
    var m, l := n + 1, code[n].id;
    forall id: nat, offset: int ensures DefinedAt(labels, id, offset) <==> BoundAt(code, encoding, m, id, offset) {
      if id == l {
        assert LastPlace(code, m, l, n);
      } else {
        assert BoundAt(code, encoding, m, id, offset) <==> BoundAt(code, encoding, n, id, offset) by { OtherBound(code, encoding, n, id, offset); }
      }
    }
  }

  lemma {:induction false} OtherBound(code: seq<M.Instr>, encoding: Encoding, n: nat, id: nat, offset: int)
    requires n < |code| && code[n] != M.Lab(id)
    ensures BoundAt(code, encoding, n + 1, id, offset) <==> BoundAt(code, encoding, n, id, offset)
  {
    hide OffsetAt;
    var m := n + 1;
    if BoundAt(code, encoding, n, id, offset) {
      var k :| 0 <= k < n && LastPlace(code, n, id, k) && offset == OffsetAt(code, encoding, k);
      assert LastPlace(code, m, id, k);
    }
    if BoundAt(code, encoding, m, id, offset) {
      var k :| 0 <= k < m && LastPlace(code, m, id, k) && offset == OffsetAt(code, encoding, k);
      assert LastPlace(code, n, id, k);
    }
  }

  lemma {:induction false} NothingBound(labels: seq<LabelSlot>, labels': seq<LabelSlot>, code: seq<M.Instr>, encoding: Encoding, n: nat)
    requires n < |code| && !code[n].Lab? && TableOf(labels, code, encoding, n) && labels' == labels
    ensures TableOf(labels', code, encoding, n + 1)
  {
    hide OffsetAt, DefinedAt, BoundAt;
    forall id: nat, offset: int ensures DefinedAt(labels', id, offset) <==> BoundAt(code, encoding, n + 1, id, offset) {
      OtherBound(code, encoding, n, id, offset);
    }
  }

  method EmitAll(b: CodeBuffer, bytes: seq<Byte>)
    requires b.Valid()
    modifies b`code
    ensures b.Valid() && b.code == old(b.code) + bytes
  {
    var i := 0;
    while i < |bytes|
      invariant 0 <= i <= |bytes| && b.Valid() && b.code == old(b.code) + bytes[..i]
    {
      b.Emit8(bytes[i]);
      i := i + 1;
    }
  }

  method Assemble(code: seq<M.Instr>, encoding: Encoding) returns (b: CodeBuffer)
    ensures fresh(b) && b.Valid() && !b.failed
    ensures b.code == Emitted(code, encoding, |code|) && b.fixups == FixupsOf(code, encoding, |code|)
    ensures TableOf(b.labels, code, encoding, |code|)
  {
    hide TableOf, Bytes32, Emitted, FixupsOf, OffsetAt, DefinedAt;
    b := new CodeBuffer();
    EmptyTable(code, encoding);
    var n := 0;
    while n < |code|
      invariant 0 <= n <= |code| && fresh(b) && b.Valid() && !b.failed
      invariant b.code == Emitted(code, encoding, n) && b.fixups == FixupsOf(code, encoding, n)
      invariant TableOf(b.labels, code, encoding, n)
    {
      var i := code[n];
      ghost var before := b.labels;
      OneMore(code, encoding, n);
      if i.Lab? {
        b.DefineLabel(i.id);
        LabelBound(before, b.labels, code, encoding, n);
      } else {
        if i.Jmp? { b.EmitJump(i.target); } else if i.Jcc? { b.EmitConditionalJump(i.cond, i.target); } else { EmitAll(b, encoding(i)); }
        NothingBound(before, b.labels, code, encoding, n);
      }
      n := n + 1;
    }
  }

  lemma {:induction false} OneMore(code: seq<M.Instr>, encoding: Encoding, n: nat)
    requires n < |code|
    ensures Emitted(code, encoding, n + 1) == Emitted(code, encoding, n) + Bytes(code[n], encoding)
    ensures OffsetAt(code, encoding, n) == |Emitted(code, encoding, n)|
    ensures var at, before := OffsetAt(code, encoding, n), FixupsOf(code, encoding, n);
            FixupsOf(code, encoding, n + 1)
            == before + (if code[n].Jmp? then [Fixup(at + 1, code[n].target)]
                         else if code[n].Jcc? then [Fixup(at + 2, code[n].target)] else [])
  {
  }

  lemma {:induction false} EmptyTable(code: seq<M.Instr>, encoding: Encoding)
    ensures TableOf([], code, encoding, 0) && Emitted(code, encoding, 0) == [] && FixupsOf(code, encoding, 0) == []
  {
  }

  // A label counted in a rope stands somewhere in the list.
  lemma {:induction false} CountedStands(r: Rope<M.Instr>, l: nat) returns (k: nat)
    requires Flow.Count(r, l) > 0
    ensures k < Size(r) && Flat(r)[k] == M.Lab(l)
  {
    match r {
      case One(_) => k := 0;
      case Cat(a, c) =>
        if Flow.Count(a, l) > 0 { k := CountedStands(a, l); } else { k := CountedStands(c, l); k := Size(a) + k; }
    }
  }

  lemma {:induction false} JumpCounted(r: Rope<M.Instr>, k: nat, l: nat)
    requires k < Size(r) && (Flat(r)[k] == M.Jmp(l) || (Flat(r)[k].Jcc? && Flat(r)[k].target == l))
    ensures Closed.JumpsTo(r, l)
  {
    match r {
      case One(_) =>
      case Cat(a, c) => if k < Size(a) { JumpCounted(a, k, l); } else { JumpCounted(c, k - Size(a), l); }
    }
  }

  // Every fixup comes from a jump.
  lemma {:induction false} FixupJumps(code: seq<M.Instr>, encoding: Encoding, n: nat, i: nat) returns (k: nat)
    requires n <= |code| && i < |FixupsOf(code, encoding, n)|
    ensures k < n && (code[k].Jmp? || code[k].Jcc?) && code[k].target == FixupsOf(code, encoding, n)[i].goal
  {
    hide OffsetAt;
    if i < |FixupsOf(code, encoding, n - 1)| { k := FixupJumps(code, encoding, n - 1, i); } else { k := n - 1; }
  }

  // In an accepted function the goal of every fixup is bound, once.
  lemma {:induction false} GoalBound(body: List<Stmt>, ret: Words.Ty, env: Ir.Env, encoding: Encoding, i: nat)
    requires Accepted(body)
    requires i < |FixupsOf(CompiledFunction(body, ret, env), encoding, |CompiledFunction(body, ret, env)|)|
    ensures var code := CompiledFunction(body, ret, env);
            var goal := FixupsOf(code, encoding, |code|)[i].goal;
            var at := M.Position(code, goal, 0);
            && at < |code| && code[at] == M.Lab(goal) && LastPlace(code, |code|, goal, at)
  {
    hide FunctionCode, Accepted, OffsetAt;
    var r := FunctionCode(FunctionList(body, ret).0, env);
    var code := Flat(r);
    var k := FixupJumps(code, encoding, |code|, i);
    var goal := FixupsOf(code, encoding, |code|)[i].goal;
    JumpCounted(r, k, goal);
    Closed.JumpsHaveOneLabel(body, ret, env, goal);
    var at := CountedStands(r, goal);
    forall j | 0 <= j < |code| && j != at ensures code[j] != M.Lab(goal) {
      if code[j] == M.Lab(goal) {
        if j < at { Flow.CountTwice(r, j, at, goal); } else { Flow.CountTwice(r, at, j, goal); }
      }
    }
    assert M.Position(code, goal, 0) == at;
  }

  // The byte offset of a label.
  function LabelOffset(code: seq<M.Instr>, encoding: Encoding, id: nat): nat {
    OffsetAt(code, encoding, M.Position(code, id, 0))
  }

  // Assembling an accepted function never meets an unresolved label: it fails
  // exactly when some jump is more than 32 bits long, and otherwise every field
  // leads from the byte after it to its label.
  method AssembleFunction(body: List<Stmt>, ret: Words.Ty, env: Ir.Env, encoding: Encoding) returns (ok: bool, b: CodeBuffer)
    requires Accepted(body)
    ensures fresh(b) && b.Valid()
    ensures var code := CompiledFunction(body, ret, env); b.fixups == FixupsOf(code, encoding, |code|)
    ensures forall i :: 0 <= i < |b.fixups| ==> IsDefined(b.labels, b.fixups[i].goal)
    ensures var code := CompiledFunction(body, ret, env);
            ok <==> forall i :: 0 <= i < |b.fixups| ==>
              Fits32(LabelOffset(code, encoding, b.fixups[i].goal) - (b.fixups[i].field + 4))
    ensures ok ==> FilledIn(CompiledFunction(body, ret, env), encoding, b.code, b.fixups)
  {
    hide Accepted, CompiledFunction, Emitted, OffsetAt, FixupsOf, TableOf, LabelOffset, Signed32, DefinedAt;
    var code := CompiledFunction(body, ret, env);
    b := Assemble(code, encoding);
    ghost var labels := b.labels;
    forall i | 0 <= i < |b.fixups| ensures GoalAt(labels, code, encoding, b.fixups[i].goal) {
      GoalBound(body, ret, env, encoding, i);
      TableGives(labels, code, encoding, b.fixups[i].goal);
    }
    ok := b.ResolveLabels();
    forall i | 0 <= i < |b.fixups|
      ensures IsDefined(b.labels, b.fixups[i].goal)
      ensures Fillable(labels, b.fixups[i]) <==> Fits32(LabelOffset(code, encoding, b.fixups[i].goal) - (b.fixups[i].field + 4))
      ensures ok ==> FieldRight(code, encoding, b.code, b.fixups[i])
    {
      assert GoalAt(labels, code, encoding, b.fixups[i].goal);
      StillDefined(labels, b.labels, b.fixups[i].goal);
      FillableWhen(labels, code, encoding, b.fixups[i]);
      if ok { FieldLeads(labels, code, encoding, b.code, b.fixups[i]); }
    }
  }

  // The field of a fixup leads from the byte after it to its label.
  predicate FieldRight(code: seq<M.Instr>, encoding: Encoding, bytes: seq<Byte>, f: Fixup) {
    f.field + 4 <= |bytes| && Signed32(bytes[f.field..f.field + 4]) == LabelOffset(code, encoding, f.goal) - (f.field + 4)
  }

  // Every field is right and no other byte has changed.
  ghost predicate FilledIn(code: seq<M.Instr>, encoding: Encoding, bytes: seq<Byte>, fixups: seq<Fixup>) {
    && |bytes| == |Emitted(code, encoding, |code|)|
    && (forall i :: 0 <= i < |fixups| ==> FieldRight(code, encoding, bytes, fixups[i]))
    && (forall at :: 0 <= at < |bytes| && (forall i :: 0 <= i < |fixups| ==> !InField(fixups[i], at)) ==>
          bytes[at] == Emitted(code, encoding, |code|)[at])
  }

  lemma {:induction false} StillDefined(labels: seq<LabelSlot>, more: seq<LabelSlot>, goal: nat)
    requires labels <= more && IsDefined(labels, goal)
    ensures IsDefined(more, goal)
  {
    var i :| 0 <= i < |labels| && labels[i].id == goal && labels[i].defined;
    assert more[i] == labels[i];
  }

  lemma {:induction false} FillableWhen(labels: seq<LabelSlot>, code: seq<M.Instr>, encoding: Encoding, f: Fixup)
    requires GoalAt(labels, code, encoding, f.goal)
    ensures Fillable(labels, f) <==> Fits32(LabelOffset(code, encoding, f.goal) - (f.field + 4))
  {
    hide LabelOffset;
    if Fillable(labels, f) {
      var i :| 0 <= i < |labels| && labels[i].id == f.goal && labels[i].defined && Fits32(labels[i].offset - (f.field + 4));
      assert DefinedAt(labels, f.goal, labels[i].offset);
    }
    var i :| 0 <= i < |labels| && labels[i].id == f.goal && labels[i].defined;
    assert DefinedAt(labels, f.goal, labels[i].offset);
  }

  lemma {:induction false} FieldLeads(labels: seq<LabelSlot>, code: seq<M.Instr>, encoding: Encoding, bytes: seq<Byte>, f: Fixup)
    requires GoalAt(labels, code, encoding, f.goal) && LeadsToLabel(labels, bytes, f)
    ensures FieldRight(code, encoding, bytes, f)
  {
    hide LabelOffset, Signed32, DefinedAt;
  }

  ghost predicate GoalAt(labels: seq<LabelSlot>, code: seq<M.Instr>, encoding: Encoding, goal: nat) {
    IsDefined(labels, goal) && forall offset :: DefinedAt(labels, goal, offset) <==> offset == LabelOffset(code, encoding, goal)
  }

  lemma {:induction false} TableGives(labels: seq<LabelSlot>, code: seq<M.Instr>, encoding: Encoding, goal: nat)
    requires TableOf(labels, code, encoding, |code|) && M.Position(code, goal, 0) < |code|
    requires LastPlace(code, |code|, goal, M.Position(code, goal, 0)) && DistinctIds(labels)
    ensures GoalAt(labels, code, encoding, goal)
  {
    hide OffsetAt;
    var at, n := M.Position(code, goal, 0), |code|;
    assert BoundAt(code, encoding, n, goal, LabelOffset(code, encoding, goal));
    forall offset | DefinedAt(labels, goal, offset) ensures offset == LabelOffset(code, encoding, goal) {
      assert BoundAt(code, encoding, n, goal, offset);
      var k :| 0 <= k < n && LastPlace(code, n, goal, k) && offset == OffsetAt(code, encoding, k);
      assert k == at;
    }
  }
}
