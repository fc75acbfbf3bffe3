// Where the linker puts every section: one output for each kind, one after the
// other in the image.
module Layout {
  import Words
  import Records
  import ObjectFile

  type Byte = Records.Byte
  type Text = ObjectFile.Text
  type Section = ObjectFile.Section

  // The entry trampoline, at the start of the first output.
  const STUB: seq<Byte> := [
    0x48, 0x83, 0xec, 0x28, 0x48, 0x89, 0x3c, 0x24, 0x48, 0xc7, 0x44, 0x24, 0x10, 0, 0, 0, 0, 0xe8, 0, 0, 0, 0,
    0x89, 0xc1, 0x48, 0x83, 0xc4, 0x28, 0xb8, 0, 0x4c, 0, 0, 0x88, 0xc8, 0xcd, 0x21, 0xc3]

  const ENTRY_FIELD: nat := 18

  predicate SectionOk(s: Section) {
    && s.kind <= 3 && s.alignment > 0 && (if s.kind == ObjectFile.BSS then s.data == [] else |s.data| == s.size)
  }

  predicate SectionsOk(ss: seq<Section>) { forall i :: 0 <= i < |ss| ==> SectionOk(ss[i]) }

  function AlignTo(size: nat, alignment: nat): nat
    requires alignment > 0
  {
    AlignedUp(size, alignment);
    (size + alignment - 1) / alignment * alignment
  }

  lemma AlignedUp(size: nat, alignment: nat)
    requires alignment > 0
    ensures size <= (size + alignment - 1) / alignment * alignment < size + alignment
  {
    var q := (size + alignment - 1) / alignment;
    assert size + alignment - 1 == alignment * q + (size + alignment - 1) % alignment;
    assert alignment * q == q * alignment;
  }

  lemma {:induction false} RoundedUp(size: nat, alignment: nat)
    requires alignment > 0
    ensures AlignTo(size, alignment) % alignment == 0 && size <= AlignTo(size, alignment) < size + alignment
  {
    AlignedUp(size, alignment);
    var q := (size + alignment - 1) / alignment;
    assert q * alignment == alignment * q;
    Words.MultipleOf(q, alignment);
  }

  function Zeros(n: nat): (z: seq<Byte>)
    ensures |z| == n && forall i :: 0 <= i < n ==> z[i] == 0
  {
    seq(n, i => 0)
  }

  // The size of an output once the first i sections are placed.
  function SizeOf(ss: seq<Section>, kind: nat, i: nat): nat
    requires SectionsOk(ss) && i <= |ss|
    decreases i, 0
  {
    if i == 0 then if kind == 0 then |STUB| else 0
    else if ss[i - 1].kind == kind then OffsetOf(ss, i - 1) + ss[i - 1].size
    else SizeOf(ss, kind, i - 1)
  }

  function OffsetOf(ss: seq<Section>, i: nat): (offset: nat)
    requires SectionsOk(ss) && i < |ss|
    ensures offset >= SizeOf(ss, ss[i].kind, i)
    decreases i, 1
  {
    AlignedUp(SizeOf(ss, ss[i].kind, i), ss[i].alignment);
    AlignTo(SizeOf(ss, ss[i].kind, i), ss[i].alignment)
  }

  function OutputOf(ss: seq<Section>, kind: nat, i: nat): (data: seq<Byte>)
    requires SectionsOk(ss) && i <= |ss|
    ensures |data| == SizeOf(ss, kind, i)
  {
    if i == 0 then if kind == 0 then STUB else []
    else if ss[i - 1].kind == kind then
      var before := OutputOf(ss, kind, i - 1);
      before + Zeros(OffsetOf(ss, i - 1) - |before|) + if kind == ObjectFile.BSS then Zeros(ss[i - 1].size) else ss[i - 1].data
    else OutputOf(ss, kind, i - 1)
  }

  // The outputs follow one another, aligned to 16, 16, 8 and 8.
  function Base(ss: seq<Section>, kind: nat): nat
    requires SectionsOk(ss)
  {
    if kind == 0 then 0
    else AlignTo(Base(ss, kind - 1) + SizeOf(ss, kind - 1, |ss|), if kind <= 1 then 16 else 8)
  }

  function SectionAt(ss: seq<Section>, i: nat): nat
    requires SectionsOk(ss) && i < |ss|
  {
    Base(ss, ss[i].kind) + OffsetOf(ss, i)
  }

  function EndOf(ss: seq<Section>, kind: nat): nat
    requires SectionsOk(ss)
  {
    Base(ss, kind) + SizeOf(ss, kind, |ss|)
  }

  lemma {:induction false} SizesGrow(ss: seq<Section>, kind: nat, i: nat, j: nat)
    requires SectionsOk(ss) && i <= j <= |ss|
    ensures SizeOf(ss, kind, i) <= SizeOf(ss, kind, j)
  {
    if i < j { SizesGrow(ss, kind, i, j - 1); }
  }

  lemma {:induction false} BasesGrow(ss: seq<Section>, j: nat, k: nat)
    requires SectionsOk(ss) && j < k
    ensures EndOf(ss, j) <= Base(ss, k)
  {
    AlignedUp(EndOf(ss, k - 1), if k <= 1 then 16 else 8);
    if j + 1 < k { BasesGrow(ss, j, k - 1); }
  }

  lemma {:induction false} SectionInOutput(ss: seq<Section>, i: nat)
    requires SectionsOk(ss) && i < |ss|
    ensures SizeOf(ss, ss[i].kind, i) <= OffsetOf(ss, i)
    ensures OffsetOf(ss, i) + ss[i].size == SizeOf(ss, ss[i].kind, i + 1) <= SizeOf(ss, ss[i].kind, |ss|)
    ensures SectionAt(ss, i) + ss[i].size <= EndOf(ss, ss[i].kind)
  {
    SizesGrow(ss, ss[i].kind, i + 1, |ss|);
  }

  // Every section starts at a multiple of its alignment in its output, as close to
  // what precedes it as that allows.
  lemma {:induction false} OffsetAligned(ss: seq<Section>, i: nat)
    requires SectionsOk(ss) && i < |ss|
    ensures OffsetOf(ss, i) % ss[i].alignment == 0
    ensures SizeOf(ss, ss[i].kind, i) <= OffsetOf(ss, i) < SizeOf(ss, ss[i].kind, i) + ss[i].alignment
  {
    hide SizeOf, AlignTo;
    RoundedUp(SizeOf(ss, ss[i].kind, i), ss[i].alignment);
  }

  function OutputAlignment(kind: nat): nat { if kind <= 1 then 16 else 8 }

  // Code and constants start at a multiple of 16, data and BSS at a multiple of 8,
  // as close to the output before as that allows.
  lemma {:induction false} BaseAligned(ss: seq<Section>, kind: nat)
    requires SectionsOk(ss) && kind <= 3
    ensures Base(ss, kind) % OutputAlignment(kind) == 0
    ensures kind == 0 ==> Base(ss, kind) == 0
    ensures kind > 0 ==> EndOf(ss, kind - 1) <= Base(ss, kind) < EndOf(ss, kind - 1) + OutputAlignment(kind)
  {
    hide SizeOf, AlignTo;
    if kind > 0 { RoundedUp(EndOf(ss, kind - 1), OutputAlignment(kind)); }
  }

  // A section is aligned in the image whenever its alignment divides its output's.
  lemma {:induction false} SectionAligned(ss: seq<Section>, i: nat)
    requires SectionsOk(ss) && i < |ss| && OutputAlignment(ss[i].kind) % ss[i].alignment == 0
    ensures SectionAt(ss, i) % ss[i].alignment == 0
  {
    hide SizeOf, Base, OffsetOf;
    var a, b := ss[i].alignment, OutputAlignment(ss[i].kind);
    OffsetAligned(ss, i);
    BaseAligned(ss, ss[i].kind);
    WholeTimes(Base(ss, ss[i].kind), a, b);
    Words.SumOfMultiples(Base(ss, ss[i].kind), OffsetOf(ss, i), a);
  }

  lemma {:induction false} WholeTimes(x: int, a: nat, b: nat)
    requires a > 0 && b > 0 && b % a == 0 && x % b == 0
    ensures x % a == 0
  {
    assert b == a * (b / a);
    Words.DividesThrough(x, a, b / a);
  }

  // Sections never overlap, and none lies on the trampoline.
  lemma {:induction false} SectionsApart(ss: seq<Section>, i: nat, j: nat)
    requires SectionsOk(ss) && i < j < |ss|
    ensures SectionAt(ss, i) + ss[i].size <= SectionAt(ss, j) || SectionAt(ss, j) + ss[j].size <= SectionAt(ss, i)
  {
    hide AlignTo;
    SectionInOutput(ss, i);
    SectionInOutput(ss, j);
    if ss[i].kind == ss[j].kind { SizesGrow(ss, ss[i].kind, i + 1, j); }
    else if ss[i].kind < ss[j].kind { BasesGrow(ss, ss[i].kind, ss[j].kind); }
    else { BasesGrow(ss, ss[j].kind, ss[i].kind); }
  }

  lemma {:induction false} AfterStub(ss: seq<Section>, i: nat)
    requires SectionsOk(ss) && i < |ss|
    ensures SectionAt(ss, i) >= |STUB|
  {
    SizesGrow(ss, 0, 0, i);
    SizesGrow(ss, 0, 0, |ss|);
    SectionInOutput(ss, i);
    if ss[i].kind > 0 { BasesGrow(ss, 0, ss[i].kind); }
  }

  // The payload: the outputs that have contents, and zeros between them.
  function Payload(ss: seq<Section>): (p: seq<Byte>)
    requires SectionsOk(ss)
    ensures |p| == EndOf(ss, 2)
  {
    BasesGrow(ss, 0, 1);
    BasesGrow(ss, 1, 2);
    OutputOf(ss, 0, |ss|) + Zeros(Base(ss, 1) - EndOf(ss, 0)) + OutputOf(ss, 1, |ss|) + Zeros(Base(ss, 2) - EndOf(ss, 1))
    + OutputOf(ss, 2, |ss|)
  }

  lemma {:induction false} OutputKeeps(ss: seq<Section>, kind: nat, i: nat, j: nat)
    requires SectionsOk(ss) && i <= j <= |ss|
    ensures OutputOf(ss, kind, i) <= OutputOf(ss, kind, j)
  {
    if i < j { OutputKeeps(ss, kind, i, j - 1); }
  }

  lemma {:induction false} SectionData(ss: seq<Section>, i: nat)
    requires SectionsOk(ss) && i < |ss| && ss[i].kind != ObjectFile.BSS
    ensures var out, at := OutputOf(ss, ss[i].kind, |ss|), OffsetOf(ss, i);
            at + ss[i].size <= |out| && out[at..at + ss[i].size] == ss[i].data
  {
    hide AlignTo;
    SectionInOutput(ss, i);
    OutputKeeps(ss, ss[i].kind, i + 1, |ss|);
    var now, out, at := OutputOf(ss, ss[i].kind, i + 1), OutputOf(ss, ss[i].kind, |ss|), OffsetOf(ss, i);
    assert now[at..] == ss[i].data;
    assert out[at..at + ss[i].size] == now[at..at + ss[i].size];
  }

  lemma {:induction false} OutputInPayload(ss: seq<Section>, kind: nat)
    requires SectionsOk(ss) && kind <= 2
    ensures EndOf(ss, kind) <= |Payload(ss)|
    ensures Payload(ss)[Base(ss, kind)..EndOf(ss, kind)] == OutputOf(ss, kind, |ss|)
  {
    hide AlignTo, OutputOf;
    BasesGrow(ss, 0, 1);
    BasesGrow(ss, 1, 2);
  }

  // A section's bytes stand unchanged at its place.
  lemma {:induction false} SectionInPayload(ss: seq<Section>, i: nat)
    requires SectionsOk(ss) && i < |ss| && ss[i].kind != ObjectFile.BSS
    ensures SectionAt(ss, i) + ss[i].size <= |Payload(ss)|
    ensures Payload(ss)[SectionAt(ss, i)..SectionAt(ss, i) + ss[i].size] == ss[i].data
  {
    hide AlignTo, OutputOf, Payload, Base, SizeOf;
    var kind, at := ss[i].kind, OffsetOf(ss, i);
    SectionData(ss, i);
    OutputInPayload(ss, kind);
    SectionInOutput(ss, i);
    Records.SliceOfSlice(Payload(ss), Base(ss, kind), EndOf(ss, kind), at, at + ss[i].size);
  }

  // BSS lies past every payload byte.
  lemma {:induction false} BssAfterPayload(ss: seq<Section>, i: nat)
    requires SectionsOk(ss) && i < |ss| && ss[i].kind == ObjectFile.BSS
    ensures SectionAt(ss, i) >= |Payload(ss)|
  {
    hide AlignTo;
    BasesGrow(ss, 2, 3);
  }
}
