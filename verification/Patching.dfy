// The code buffer, its labels and its fixups.  A jump is emitted with an empty
// four-byte field; resolving the labels fills every field in.
module Patching {
  import Octets

  type Byte = Octets.Byte

  datatype LabelSlot = LabelSlot(id: nat, offset: nat, defined: bool)

  datatype Fixup = Fixup(field: nat, goal: nat)

  // The four bytes of x modulo 2^32, least significant first.
  function Bytes32(x: int): (bs: seq<Byte>)
    ensures |bs| == 4
  {
    var u := x % 0x1_0000_0000;
    [u % 0x100, u / 0x100 % 0x100, u / 0x1_0000 % 0x100, u / 0x100_0000 % 0x100]
  }

  // The signed number four bytes hold.
  function Signed32(bs: seq<Byte>): int
    requires |bs| == 4
  {
    var u := bs[0] as int + 0x100 * (bs[1] as int) + 0x1_0000 * (bs[2] as int) + 0x100_0000 * (bs[3] as int);
    if u >= 0x8000_0000 then u - 0x1_0000_0000 else u
  }

  predicate Fits32(x: int) { -0x8000_0000 <= x < 0x8000_0000 }

  lemma {:induction false} FieldRoundTrip(x: int)
    requires Fits32(x)
    ensures Signed32(Bytes32(x)) == x
  {
    var u := x % 0x1_0000_0000;
    assert u == if x < 0 then x + 0x1_0000_0000 else x;
    assert u / 0x1_0000 == u / 0x100 / 0x100 && u / 0x100_0000 == u / 0x1_0000 / 0x100;
  }

  ghost predicate DistinctIds(labels: seq<LabelSlot>) {
    forall i, j :: 0 <= i < j < |labels| ==> labels[i].id != labels[j].id
  }

  // Fields lie in the code and do not touch one another.
  ghost predicate FieldsApart(fixups: seq<Fixup>, size: nat) {
    && (forall i :: 0 <= i < |fixups| ==> fixups[i].field + 4 <= size)
    && (forall i, j :: 0 <= i < j < |fixups| ==> fixups[i].field + 4 <= fixups[j].field)
  }

  ghost predicate DefinedAt(labels: seq<LabelSlot>, id: nat, offset: int) {
    exists i :: 0 <= i < |labels| && labels[i].id == id && labels[i].offset == offset && labels[i].defined
  }

  ghost predicate IsDefined(labels: seq<LabelSlot>, id: nat) {
    exists i :: 0 <= i < |labels| && labels[i].id == id && labels[i].defined
  }

  // A fixup that can be filled in: its label is defined, near enough.
  ghost predicate Fillable(labels: seq<LabelSlot>, f: Fixup) {
    exists i :: 0 <= i < |labels| && labels[i].id == f.goal && labels[i].defined
                && Fits32(labels[i].offset - (f.field + 4))
  }

  // The field of f leads from the byte after it to the label's offset.
  ghost predicate LeadsToLabel(labels: seq<LabelSlot>, code: seq<Byte>, f: Fixup) {
    && f.field + 4 <= |code|
    && DefinedAt(labels, f.goal, f.field + 4 + Signed32(code[f.field..f.field + 4]))
  }

  predicate InField(f: Fixup, at: int) { f.field <= at < f.field + 4 }

  class CodeBuffer {
    var code: seq<Byte>
    var labels: seq<LabelSlot>
    var fixups: seq<Fixup>
    var failed: bool

    ghost predicate Valid()
      reads this
    {
      && DistinctIds(labels)
      && FieldsApart(fixups, |code|)
      && (forall i :: 0 <= i < |labels| ==> labels[i].offset <= |code|)
    }

    constructor ()
      ensures Valid() && code == [] && labels == [] && fixups == [] && !failed
    {
      code, labels, fixups, failed := [], [], [], false;
    }

    method Emit8(b: Byte)
      requires Valid()
      modifies this`code
      ensures Valid() && code == old(code) + [b]
    {
      code := code + [b];
    }

    method Emit32(x: int)
      requires Valid()
      modifies this`code
      ensures Valid() && code == old(code) + Bytes32(x)
    {
      code := code + Bytes32(x);
    }

    // The place of a label in the table; an unknown one is entered undefined.
    method AddLabel(id: nat) returns (index: nat)
      requires Valid()
      modifies this`labels
      ensures Valid() && old(labels) <= labels && index < |labels| && labels[index].id == id
      ensures (exists i :: 0 <= i < |old(labels)| && old(labels)[i].id == id) ==> labels == old(labels)
      ensures (forall i :: 0 <= i < |old(labels)| ==> old(labels)[i].id != id) ==>
                labels == old(labels) + [LabelSlot(id, 0, false)] && index == |old(labels)|
    {
      index := 0;
      while index < |labels|
        invariant 0 <= index <= |labels| && labels == old(labels)
        invariant forall i :: 0 <= i < index ==> labels[i].id != id
      {
        if labels[index].id == id { return; }
        index := index + 1;
      }
      labels := labels + [LabelSlot(id, 0, false)];
    }

    method AddFixup(field: nat, goal: nat)
      requires Valid() && field + 4 == |code|
      requires forall i :: 0 <= i < |fixups| ==> fixups[i].field + 4 <= field
      modifies this`fixups
      ensures Valid() && fixups == old(fixups) + [Fixup(field, goal)]
    {
      fixups := fixups + [Fixup(field, goal)];
    }

    // Defining a label binds it to the end of the code written so far.
    method DefineLabel(id: nat)
      requires Valid()
      modifies this`labels
      ensures Valid() && DefinedAt(labels, id, |code|)
      ensures forall other, offset :: other != id ==>
                (DefinedAt(labels, other, offset) <==> DefinedAt(old(labels), other, offset))
    {
      var index := AddLabel(id);
      ghost var before := labels;
      labels := labels[index := LabelSlot(id, |code|, true)];
      assert labels[index] == LabelSlot(id, |code|, true);
      OthersKept(old(labels), before, labels, index, LabelSlot(id, |code|, true));
    }

    method EmitJump(goal: nat)
      requires Valid()
      modifies this`code, this`fixups
      ensures Valid() && code == old(code) + [0xe9] + Bytes32(0)
      ensures fixups == old(fixups) + [Fixup(|old(code)| + 1, goal)]
    {
      Emit8(0xe9);
      var field := |code|;
      Emit32(0);
      AddFixup(field, goal);
    }

    method EmitConditionalJump(condition: nat, goal: nat)
      requires Valid() && condition < 16
      modifies this`code, this`fixups
      ensures Valid() && code == old(code) + [0x0f] + [0x80 + condition] + Bytes32(0)
      ensures fixups == old(fixups) + [Fixup(|old(code)| + 2, goal)]
    {
      Emit8(0x0f);
      Emit8(0x80 + condition);
      var field := |code|;
      Emit32(0);
      AddFixup(field, goal);
    }

    // Fills in every field.  It fails exactly when some jump's label is undefined
    // or too far away; otherwise every field leads to its label and no other byte
    // has changed.
    method ResolveLabels() returns (ok: bool)
      requires Valid()
      modifies this
      ensures Valid() && fixups == old(fixups) && |code| == |old(code)| && old(labels) <= labels
      ensures ok <==> forall i :: 0 <= i < |fixups| ==> Fillable(old(labels), fixups[i])
      ensures ok ==> labels == old(labels) && failed == old(failed)
      ensures ok ==> forall i :: 0 <= i < |fixups| ==> LeadsToLabel(labels, code, fixups[i])
      ensures forall at :: 0 <= at < |code| && (forall i :: 0 <= i < |fixups| ==> !InField(fixups[i], at)) ==>
                code[at] == old(code)[at]
      ensures !ok ==> failed
    {
      hide LeadsToLabel, Fillable, Bytes32, Signed32;
      var i := 0;
      while i < |fixups|
        invariant 0 <= i <= |fixups| && Valid()
        invariant fixups == old(fixups) && labels == old(labels) && failed == old(failed) && |code| == |old(code)|
        invariant forall j :: 0 <= j < i ==> Fillable(labels, fixups[j]) && LeadsToLabel(labels, code, fixups[j])
        invariant forall at :: 0 <= at < |code| && (forall j :: 0 <= j < |fixups| ==> !InField(fixups[j], at)) ==>
                    code[at] == old(code)[at]
      {
        var f := fixups[i];
        var index := AddLabel(f.goal);
        if !labels[index].defined {
          failed := true;
          NotFillable(old(labels), labels, f, index);
          return false;
        }
        var displacement := labels[index].offset - (f.field + 4);
        if !Fits32(displacement) {
          failed := true;
          TooFar(labels, f, index);
          return false;
        }
        ghost var before := code;
        code := code[..f.field] + Bytes32(displacement) + code[f.field + 4..];
        Filled(labels, before, code, fixups, i, index, displacement);
        i := i + 1;
      }
      ok := true;
    }
  }

  lemma {:induction false} OthersKept(earlier: seq<LabelSlot>, before: seq<LabelSlot>, after: seq<LabelSlot>, index: nat, slot: LabelSlot)
    requires earlier == before || before == earlier + [LabelSlot(slot.id, 0, false)]
    requires DistinctIds(before) && index < |before| && before[index].id == slot.id && after == before[index := slot]
    ensures forall other, offset :: other != slot.id ==> (DefinedAt(after, other, offset) <==> DefinedAt(earlier, other, offset))
  {
    forall other, offset | other != slot.id ensures DefinedAt(after, other, offset) <==> DefinedAt(earlier, other, offset) {
      if DefinedAt(after, other, offset) {
        var i :| 0 <= i < |after| && after[i].id == other && after[i].offset == offset && after[i].defined;
        assert i < |earlier| && earlier[i] == after[i];
      }
      if DefinedAt(earlier, other, offset) {
        var i :| 0 <= i < |earlier| && earlier[i].id == other && earlier[i].offset == offset && earlier[i].defined;
        assert after[i] == earlier[i];
      }
    }
  }

  lemma {:induction false} NotFillable(earlier: seq<LabelSlot>, now: seq<LabelSlot>, f: Fixup, index: nat)
    requires earlier == now || now == earlier + [LabelSlot(f.goal, 0, false)]
    requires index < |now| && now[index].id == f.goal && !now[index].defined && DistinctIds(now)
    ensures !Fillable(earlier, f)
  {
    forall i | 0 <= i < |earlier| ensures earlier[i].id == f.goal ==> !earlier[i].defined { assert now[i] == earlier[i]; }
  }

  lemma {:induction false} TooFar(labels: seq<LabelSlot>, f: Fixup, index: nat)
    requires DistinctIds(labels) && index < |labels| && labels[index].id == f.goal
    requires !Fits32(labels[index].offset - (f.field + 4))
    ensures !Fillable(labels, f)
  {
  }

  // Filling one field leaves the others and every byte outside the fields alone.
  lemma {:induction false} Filled(labels: seq<LabelSlot>, before: seq<Byte>, after: seq<Byte>, fixups: seq<Fixup>,
                                  i: nat, index: nat, displacement: int)
    requires i < |fixups| && FieldsApart(fixups, |before|) && index < |labels|
    requires labels[index].id == fixups[i].goal && labels[index].defined
    requires displacement == labels[index].offset - (fixups[i].field + 4) && Fits32(displacement)
    requires after == before[..fixups[i].field] + Bytes32(displacement) + before[fixups[i].field + 4..]
    requires forall j :: 0 <= j < i ==> LeadsToLabel(labels, before, fixups[j])
    ensures |after| == |before| && Fillable(labels, fixups[i])
    ensures forall j :: 0 <= j <= i ==> LeadsToLabel(labels, after, fixups[j])
    ensures forall at :: 0 <= at < |before| && !InField(fixups[i], at) ==> after[at] == before[at]
  {
    FieldRoundTrip(displacement);
    var f := fixups[i];
    assert after[f.field..f.field + 4] == Bytes32(displacement);
    assert labels[index] == LabelSlot(f.goal, f.field + 4 + displacement, true);
    forall j | 0 <= j < i ensures LeadsToLabel(labels, after, fixups[j]) {
      assert fixups[j].field + 4 <= f.field;
      assert after[fixups[j].field..fixups[j].field + 4] == before[fixups[j].field..fixups[j].field + 4];
    }
  }
}
