// The frame of a function.  A frame object is named by how far its far edge lies
// below the frame pointer; the object itself fills the bytes from there up.
module Frame {
  import Abi
  import Machine
  import Words

  const SIZE_MAX := Abi.SIZE_MAX
  const VARIADIC_SLOTS := 8

  // Depths [start, start + size) below the frame pointer, so addresses
  // [rbp - start - size, rbp - start).
  datatype Extent = Extent(start: nat, size: nat)
  {
    function Edge(): nat { start + size }
  }

  // Alignments are powers of two.
  predicate PowerOfTwo(a: nat) {
    a == 1 || (a > 1 && a % 2 == 0 && PowerOfTwo(a / 2))
  }

  // Rounding up saturates.
  function AlignUp(value: nat, alignment: nat): (r: nat) {
    if alignment == 0 then value
    else if value > SIZE_MAX - (alignment - 1) then SIZE_MAX
    else (value + alignment - 1) / alignment * alignment
  }

  lemma {:induction false} AlignedUp(value: nat, alignment: nat)
    requires 0 < alignment <= SIZE_MAX && value <= SIZE_MAX - (alignment - 1)
    ensures value <= AlignUp(value, alignment) < value + alignment
    ensures AlignUp(value, alignment) % alignment == 0
  {
    var q, r := (value + alignment - 1) / alignment, (value + alignment - 1) % alignment;
    assert value + alignment - 1 == alignment * q + r;
    assert q * alignment == alignment * q;
    assert (alignment * q) % alignment == 0 by { Words.MultipleOf(q, alignment); }
  }

  // Objects lie one below the other, each past the end of the one before.
  ghost predicate Stacked(es: seq<Extent>, bottom: nat) {
    && (forall i :: 0 <= i < |es| ==> es[i].size > 0 && es[i].Edge() <= bottom)
    && (forall i, j :: 0 <= i < j < |es| ==> es[i].Edge() <= es[j].start)
  }

  // An object whose size is a multiple of its alignment is aligned.
  predicate AlignedAt(offset: int, bytes: nat, alignment: nat) {
    PowerOfTwo(alignment) && Size(bytes) % alignment == 0 ==> offset % alignment == 0
  }

  // Multiples of 8 are multiples of the powers of two below it.
  lemma {:induction false} EightEnough(start: nat, alignment: nat)
    requires PowerOfTwo(alignment) && start % AtLeast8(alignment) == 0
    ensures start % alignment == 0
  {
    if alignment < 8 {
      SmallPower(alignment);
      Words.DividesThrough(start, alignment, if alignment == 1 then 8 else if alignment == 2 then 4 else 2);
    }
  }

  lemma {:induction false} SmallPower(alignment: nat)
    requires PowerOfTwo(alignment) && alignment < 8
    ensures alignment in {1, 2, 4}
  {
    assert PowerOfTwo(alignment / 2) || alignment == 1;
  }

  // What starts at a multiple of its alignment, or of 8, is aligned.
  lemma {:induction false} AlignedOffset(start: nat, bytes: nat, alignment: nat)
    requires alignment > 0 && (start % alignment == 0 || start % AtLeast8(alignment) == 0)
    ensures AlignedAt(0 - (start + Size(bytes)), bytes, alignment)
  {
    if PowerOfTwo(alignment) && Size(bytes) % alignment == 0 {
      if start % alignment != 0 { EightEnough(start, alignment); }
      Words.SumOfMultiples(start, Size(bytes), alignment);
      var q := (start + Size(bytes)) / alignment;
      assert 0 - (start + Size(bytes)) == alignment * -q;
      Words.MultipleOf(-q, alignment);
    }
  }

  // The frame pointer is 16-aligned: up to that, aligned offsets are aligned
  // addresses.
  lemma {:induction false} AddressAligned(rbp: int, offset: int, alignment: nat)
    requires rbp % 16 == 0 && alignment in {1, 2, 4, 8, 16} && offset % alignment == 0
    ensures (rbp + offset) % alignment == 0
  {
    Words.DividesThrough(rbp, alignment, if alignment == 1 then 16 else if alignment == 2 then 8 else if alignment == 4 then 4
                            else if alignment == 8 then 2 else 1);
    Words.SumOfMultiples(rbp, offset, alignment);
  }

  datatype Parameter = Parameter(size: nat, alignment: nat, inRegister: bool, stackOffset: nat)

  datatype Local = Local(size: nat, alignment: nat)

  // One more object, ending where the frame now ends.
  ghost predicate Added(before: seq<Extent>, after: seq<Extent>, frame: nat, size: nat) {
    |after| == |before| + 1 && before <= after && after[|before|].size == size && after[|before|].Edge() == frame
  }

  // How far the frame reaches, unless some object did not fit.
  datatype Running = Overflow | Frame(size: nat)

  function Take(r: Running, bytes: nat, alignment: nat): Running {
    if r.Overflow? || Overflowing(r.size, bytes, alignment) then Overflow
    else Frame(AlignUp(r.size, alignment) + Size(bytes))
  }

  function TakeParameters(ps: seq<Parameter>, n: nat, r: Running): Running
    requires n <= |ps|
  {
    if n == 0 then r
    else
      var before := TakeParameters(ps, n - 1, r);
      if ps[n - 1].inRegister then Take(before, ps[n - 1].size, AtLeast8(ps[n - 1].alignment)) else before
  }

  function TakeLocals(ls: seq<Local>, n: nat, r: Running): Running
    requires n <= |ls|
  {
    if n == 0 then r else Take(TakeLocals(ls, n - 1, r), ls[n - 1].size, ls[n - 1].alignment)
  }

  function TakeTemporaries(ls: seq<Local>, n: nat, r: Running): Running
    requires n <= |ls|
  {
    if n == 0 then r else Take(TakeTemporaries(ls, n - 1, r), ls[n - 1].size, AtLeast8(ls[n - 1].alignment))
  }

  function Rounded(r: Running): Running {
    if r.Overflow? || r.size > SIZE_MAX - 15 then Overflow else Frame(AlignUp(r.size, 16))
  }

  // The whole frame, object by object.
  function Laid(returnsMemory: bool, parameters: seq<Parameter>, locals: seq<Local>, variadic: bool, temporaries: seq<Local>): Running {
    var r1 := TakeParameters(parameters, |parameters|, Frame(if returnsMemory then 8 else 0));
    var r2 := TakeLocals(locals, |locals|, r1);
    var r3 := Rounded(if variadic then Take(r2, 48 + 8 * VARIADIC_SLOTS, 8) else r2);
    Rounded(TakeTemporaries(temporaries, |temporaries|, r3))
  }

  // Sizes and alignments together, which bound what an object adds.
  function Budget(ls: seq<Local>): nat {
    if ls == [] then 0
    else Budget(ls[..|ls| - 1]) + Size(ls[|ls| - 1].size) + AtLeast8(ls[|ls| - 1].alignment)
  }

  function ParameterBudget(ps: seq<Parameter>): nat {
    if ps == [] then 0
    else ParameterBudget(ps[..|ps| - 1]) + Size(ps[|ps| - 1].size) + AtLeast8(ps[|ps| - 1].alignment)
  }

  lemma {:induction false} TakeFits(r: Running, bytes: nat, alignment: nat)
    requires r.Frame? && 0 < alignment && r.size + alignment + Size(bytes) <= SIZE_MAX
    ensures Take(r, bytes, alignment).Frame?
    ensures Take(r, bytes, alignment).size <= r.size + alignment + Size(bytes)
  {
    AlignedUp(r.size, alignment);
  }

  lemma {:induction false} ParametersFit(ps: seq<Parameter>, n: nat, r: Running)
    requires n <= |ps| && ParameterSizes(ps) && r.Frame? && r.size + ParameterBudget(ps[..n]) <= SIZE_MAX
    ensures TakeParameters(ps, n, r).Frame? && TakeParameters(ps, n, r).size <= r.size + ParameterBudget(ps[..n])
  {
    hide Take;
    if n > 0 {
      assert ps[..n][..n - 1] == ps[..n - 1];
      ParametersFit(ps, n - 1, r);
      if ps[n - 1].inRegister { TakeFits(TakeParameters(ps, n - 1, r), ps[n - 1].size, AtLeast8(ps[n - 1].alignment)); }
    }
  }

  lemma {:induction false} LocalsFit(ls: seq<Local>, n: nat, r: Running)
    requires n <= |ls| && Sizes(ls) && r.Frame? && r.size + Budget(ls[..n]) <= SIZE_MAX
    ensures TakeLocals(ls, n, r).Frame? && TakeLocals(ls, n, r).size <= r.size + Budget(ls[..n])
    ensures TakeTemporaries(ls, n, r).Frame? && TakeTemporaries(ls, n, r).size <= r.size + Budget(ls[..n])
  {
    hide Take;
    if n > 0 {
      assert ls[..n][..n - 1] == ls[..n - 1];
      LocalsFit(ls, n - 1, r);
      TakeFits(TakeLocals(ls, n - 1, r), ls[n - 1].size, ls[n - 1].alignment);
      TakeFits(TakeTemporaries(ls, n - 1, r), ls[n - 1].size, AtLeast8(ls[n - 1].alignment));
    }
  }

  // A frame whose sizes and alignments sum below the address space is laid out.
  lemma {:induction false} FrameFits(returnsMemory: bool, parameters: seq<Parameter>, locals: seq<Local>, variadic: bool,
                                     temporaries: seq<Local>)
    requires ParameterSizes(parameters) && Sizes(locals) && Sizes(temporaries)
    requires 8 + ParameterBudget(parameters) + Budget(locals) + 56 + 8 * VARIADIC_SLOTS + Budget(temporaries) + 46 <= SIZE_MAX
    ensures Laid(returnsMemory, parameters, locals, variadic, temporaries).Frame?
  {
    hide Take, Overflowing, TakeParameters, TakeLocals, TakeTemporaries, ParameterBudget, Budget;
    var r0 := Frame(if returnsMemory then 8 else 0);
    assert parameters[..|parameters|] == parameters && locals[..|locals|] == locals && temporaries[..|temporaries|] == temporaries;
    ParametersFit(parameters, |parameters|, r0);
    var r1 := TakeParameters(parameters, |parameters|, r0);
    LocalsFit(locals, |locals|, r1);
    var r2 := TakeLocals(locals, |locals|, r1);
    if variadic { TakeFits(r2, 48 + 8 * VARIADIC_SLOTS, 8); }
    var r := if variadic then Take(r2, 48 + 8 * VARIADIC_SLOTS, 8) else r2;
    AlignedUp(r.size, 16);
    LocalsFit(temporaries, |temporaries|, Rounded(r));
  }

  class FrameLayout {
    var frame: nat
    var failed: bool
    ghost var extents: seq<Extent>

    ghost predicate Valid()
      reads this
    {
      frame <= SIZE_MAX && Stacked(extents, frame)
    }

    ghost function State(): Running
      reads this
    {
      if failed then Overflow else Frame(frame)
    }

    constructor ()
      ensures Valid() && frame == 0 && extents == [] && !failed
    {
      frame, failed, extents := 0, false, [];
    }

    // Space for one object below all the others; its offset is its far edge.
    method Allocate(bytes: nat, alignment: nat) returns (offset: int)
      requires Valid() && 0 < alignment <= SIZE_MAX && bytes <= SIZE_MAX
      modifies this
      ensures Valid() && frame >= old(frame) && old(extents) <= extents
      ensures failed == (old(failed) || Overflowing(old(frame), bytes, alignment))
      ensures State() == Take(old(State()), bytes, alignment)
      ensures if Overflowing(old(frame), bytes, alignment) then extents == old(extents) && frame == old(frame)
              else Added(old(extents), extents, frame, Size(bytes)) && AlignUp(old(frame), alignment) % alignment == 0
                   && frame == AlignUp(old(frame), alignment) + Size(bytes) && offset == 0 - frame as int
    {
      var start := AlignUp(frame, alignment);
      var size := Size(bytes);
      if start > SIZE_MAX - size {
        failed := true;
        return 0;
      }
      AlignedUp(frame, alignment);
      frame := start + size;
      offset := 0 - frame as int;
      extents := extents + [Extent(start, size)];
    }

    // The pointer through which a memory result is written is the first object.
    method ReserveReturnPointer()
      requires Valid() && frame == 0 && extents == []
      modifies this
      ensures Valid() && frame == 8 && extents == [Extent(0, 8)] && failed == old(failed)
    {
      frame := 8;
      extents := [Extent(0, 8)];
    }

    // A register parameter is copied into the frame; a stack parameter stays where
    // the caller put it, above the return address.
    method PlaceParameter(p: Parameter) returns (offset: int)
      requires Valid() && 0 < p.alignment <= SIZE_MAX && p.size <= SIZE_MAX
      modifies this
      ensures Valid() && frame >= old(frame) && (old(failed) ==> failed) && old(extents) <= extents
      ensures State() == if p.inRegister then Take(old(State()), p.size, AtLeast8(p.alignment)) else old(State())
      ensures !p.inRegister ==> offset == Machine.SAVED_BYTES + p.stackOffset && extents == old(extents) && frame == old(frame)
      ensures p.inRegister && !failed ==>
                Added(old(extents), extents, frame, Size(p.size))
                && offset == 0 - frame as int && AlignedAt(offset, p.size, p.alignment)
    {
      hide PowerOfTwo;
      if p.inRegister {
        ghost var start := AlignUp(frame, AtLeast8(p.alignment));
        offset := Allocate(p.size, AtLeast8(p.alignment));
        if !failed { AlignedOffset(start, p.size, p.alignment); }
      } else {
        offset := 16 + p.stackOffset;
      }
    }

    // Room for the six argument registers and the stack words an argument walk
    // goes on to.
    method ReserveVariadicArea() returns (offset: int)
      requires Valid()
      modifies this
      ensures Valid() && frame >= old(frame) && (old(failed) ==> failed) && old(extents) <= extents
      ensures State() == Take(old(State()), 48 + 8 * VARIADIC_SLOTS, 8)
      ensures !failed ==> Added(old(extents), extents, frame, 48 + 8 * VARIADIC_SLOTS)
                          && offset == 0 - frame as int && offset % 8 == 0
    {
      offset := Allocate(48 + VARIADIC_SLOTS * 8, 8);
    }

    // Storage handed out while the body is lowered lies past everything laid out
    // before it.
    method Temporary(l: Local) returns (offset: int)
      requires Valid() && 0 < l.alignment <= SIZE_MAX && l.size <= SIZE_MAX
      modifies this
      ensures Valid() && frame >= old(frame) && (old(failed) ==> failed) && old(extents) <= extents
      ensures State() == Take(old(State()), l.size, AtLeast8(l.alignment))
      ensures !failed ==> Added(old(extents), extents, frame, Size(l.size))
                          && offset == 0 - frame as int && AlignedAt(offset, l.size, l.alignment)
    {
      hide PowerOfTwo;
      ghost var start := AlignUp(frame, AtLeast8(l.alignment));
      offset := Allocate(l.size, AtLeast8(l.alignment));
      if !failed { AlignedOffset(start, l.size, l.alignment); }
    }

    // The frame size is a multiple of 16.
    method Round()
      requires Valid()
      modifies this
      ensures Valid() && frame >= old(frame) && extents == old(extents) && (old(failed) ==> failed)
      ensures State() == Rounded(old(State()))
      ensures !failed ==> frame % 16 == 0 && frame < old(frame) + 16
    {
      if frame > SIZE_MAX - 15 {
        failed := true;
      } else {
        AlignedUp(frame, 16);
        frame := AlignUp(frame, 16);
      }
    }
  }

  function AtLeast8(alignment: nat): nat { if alignment < 8 then 8 else alignment }

  // An object without a size still takes a byte.
  function Size(bytes: nat): (s: nat) { if bytes == 0 then 1 else bytes }

  predicate Overflowing(frame: nat, bytes: nat, alignment: nat) {
    AlignUp(frame, alignment) > SIZE_MAX - Size(bytes)
  }

  predicate Sizes(ls: seq<Local>) {
    forall i :: 0 <= i < |ls| ==> 0 < ls[i].alignment <= SIZE_MAX && ls[i].size <= SIZE_MAX
  }

  predicate ParameterSizes(ps: seq<Parameter>) {
    forall i :: 0 <= i < |ps| ==> 0 < ps[i].alignment <= SIZE_MAX && ps[i].size <= SIZE_MAX
  }

  // One object of the frame: from its address up, size bytes.
  ghost predicate Holds(frameSize: nat, offset: int, size: nat) {
    0 - frameSize as int <= offset && offset + size <= 0
  }

  // The k-th object is where an offset says, as large as asked for and aligned.
  ghost predicate IsAt(objects: seq<Extent>, k: nat, offset: int, bytes: nat, alignment: nat) {
    k < |objects| && offset == 0 - objects[k].Edge() as int && objects[k].size == Size(bytes) && AlignedAt(offset, bytes, alignment)
  }

  // The frame of a function: a pointer for a memory result, the parameters, the
  // locals in the order their declarations are met, the variadic area, and the
  // temporaries the body turns out to need.  Every offset names an object of its
  // own; a stack parameter is above the return address instead.  It fails exactly
  // when some object does not fit below what was laid out before it.
  method AssignFrame(returnsMemory: bool, parameters: seq<Parameter>, locals: seq<Local>, variadic: bool,
                     temporaries: seq<Local>)
    returns (ok: bool, frameSize: nat, parameterAt: seq<int>, localAt: seq<int>, temporaryAt: seq<int>,
             ghost objects: seq<Extent>)
    requires ParameterSizes(parameters) && Sizes(locals) && Sizes(temporaries)
    ensures ok == Laid(returnsMemory, parameters, locals, variadic, temporaries).Frame?
    ensures ok ==> frameSize == Laid(returnsMemory, parameters, locals, variadic, temporaries).size
    ensures ok ==> frameSize % 16 == 0 && Stacked(objects, frameSize)
    ensures |parameterAt| == |parameters| && |localAt| == |locals| && |temporaryAt| == |temporaries|
    ensures ok ==>
      var pointer, area := if returnsMemory then 1 else 0, if variadic then 1 else 0;
      var p := pointer + RegisterParameters(parameters, |parameters|);
      && (returnsMemory ==> IsAt(objects, 0, -8, 8, 8))
      && ParametersKept(parameters, parameterAt, pointer, objects) && LocalsKept(locals, localAt, p, objects)
      && LocalsKept(temporaries, temporaryAt, p + |locals| + area, objects)
  {
    hide Stacked, PowerOfTwo, Overflowing, AlignUp, Take, Rounded, TakeParameters, TakeLocals, TakeTemporaries, ParametersAt, LocalsAt,
      ParametersKept, LocalsKept;
    var layout := new FrameLayout();
    if returnsMemory { layout.ReserveReturnPointer(); }
    ghost var first := |layout.extents|;
    parameterAt := PlaceParameters(layout, parameters);
    ghost var es1 := layout.extents;
    localAt := PlaceLocals(layout, locals);
    ghost var es2 := layout.extents;
    if variadic { var _ := layout.ReserveVariadicArea(); }
    layout.Round();
    ghost var es3 := layout.extents;
    temporaryAt := PlaceTemporaries(layout, temporaries);
    layout.Round();
    ok, frameSize, objects := !layout.failed, layout.frame, layout.extents;
    if ok { Placed(parameters, parameterAt, locals, localAt, temporaries, temporaryAt, first, es1, es2, es3, objects); }
  }

  lemma {:induction false} Placed(ps: seq<Parameter>, parameterAt: seq<int>, ls: seq<Local>, localAt: seq<int>, ts: seq<Local>,
                                  temporaryAt: seq<int>, first: nat, es1: seq<Extent>, es2: seq<Extent>, es3: seq<Extent>, es4: seq<Extent>)
    requires es1 <= es2 && es2 <= es3 && es3 <= es4
    requires ParametersAt(ps, parameterAt, |ps|, first, es1) && LocalsAt(ls, localAt, |ls|, |es1|, es2)
    requires LocalsAt(ts, temporaryAt, |ts|, |es3|, es4)
    ensures |es1| == first + RegisterParameters(ps, |ps|) && |es2| == |es1| + |ls|
    ensures ParametersKept(ps, parameterAt, first, es4) && LocalsKept(ls, localAt, |es1|, es4) && LocalsKept(ts, temporaryAt, |es3|, es4)
  {
    hide IsAt;
    ParametersStay(ps, parameterAt, first, es1, es4);
    LocalsStay(ls, localAt, |es1|, es2, es4);
  }

  method PlaceParameters(layout: FrameLayout, ps: seq<Parameter>) returns (at: seq<int>)
    requires layout.Valid() && ParameterSizes(ps)
    modifies layout
    ensures layout.Valid() && old(layout.extents) <= layout.extents && (old(layout.failed) ==> layout.failed)
    ensures layout.State() == TakeParameters(ps, |ps|, old(layout.State())) && |at| == |ps|
    ensures !layout.failed ==> ParametersAt(ps, at, |ps|, |old(layout.extents)|, layout.extents)
  {
    hide Stacked, PowerOfTwo, Overflowing, AlignUp, Take;
    at := [];
    var i := 0;
    while i < |ps|
      invariant 0 <= i <= |ps| && layout.Valid() && old(layout.extents) <= layout.extents && |at| == i
      invariant old(layout.failed) ==> layout.failed
      invariant layout.State() == TakeParameters(ps, i, old(layout.State()))
      invariant !layout.failed ==> ParametersAt(ps, at, i, |old(layout.extents)|, layout.extents)
    {
      ghost var before := layout.extents;
      var offset := layout.PlaceParameter(ps[i]);
      at := at + [offset];
      if !layout.failed { OneMoreParameter(ps, at, i, |old(layout.extents)|, before, layout.extents); }
      i := i + 1;
    }
  }

  method PlaceLocals(layout: FrameLayout, ls: seq<Local>) returns (at: seq<int>)
    requires layout.Valid() && Sizes(ls)
    modifies layout
    ensures layout.Valid() && old(layout.extents) <= layout.extents && (old(layout.failed) ==> layout.failed)
    ensures layout.State() == TakeLocals(ls, |ls|, old(layout.State())) && |at| == |ls|
    ensures !layout.failed ==> LocalsAt(ls, at, |ls|, |old(layout.extents)|, layout.extents)
  {
    hide Stacked, PowerOfTwo, Overflowing, AlignUp, Take;
    at := [];
    var i := 0;
    while i < |ls|
      invariant 0 <= i <= |ls| && layout.Valid() && old(layout.extents) <= layout.extents && |at| == i
      invariant old(layout.failed) ==> layout.failed
      invariant layout.State() == TakeLocals(ls, i, old(layout.State()))
      invariant !layout.failed ==> LocalsAt(ls, at, i, |old(layout.extents)|, layout.extents)
    {
      ghost var before := layout.extents;
      ghost var start := AlignUp(layout.frame, ls[i].alignment);
      var offset := layout.Allocate(ls[i].size, ls[i].alignment);
      at := at + [offset];
      if !layout.failed { AlignedOffset(start, ls[i].size, ls[i].alignment); }
      if !layout.failed { OneMoreLocal(ls, at, i, |old(layout.extents)|, before, layout.extents); }
      i := i + 1;
    }
  }

  method PlaceTemporaries(layout: FrameLayout, ls: seq<Local>) returns (at: seq<int>)
    requires layout.Valid() && Sizes(ls)
    modifies layout
    ensures layout.Valid() && old(layout.extents) <= layout.extents && (old(layout.failed) ==> layout.failed)
    ensures layout.State() == TakeTemporaries(ls, |ls|, old(layout.State())) && |at| == |ls|
    ensures !layout.failed ==> LocalsAt(ls, at, |ls|, |old(layout.extents)|, layout.extents)
  {
    hide Stacked, PowerOfTwo, Overflowing, AlignUp, Take;
    at := [];
    var i := 0;
    while i < |ls|
      invariant 0 <= i <= |ls| && layout.Valid() && old(layout.extents) <= layout.extents && |at| == i
      invariant old(layout.failed) ==> layout.failed
      invariant layout.State() == TakeTemporaries(ls, i, old(layout.State()))
      invariant !layout.failed ==> LocalsAt(ls, at, i, |old(layout.extents)|, layout.extents)
    {
      ghost var before := layout.extents;
      var offset := layout.Temporary(ls[i]);
      at := at + [offset];
      if !layout.failed { OneMoreLocal(ls, at, i, |old(layout.extents)|, before, layout.extents); }
      i := i + 1;
    }
  }

  ghost predicate ParametersKept(ps: seq<Parameter>, at: seq<int>, first: nat, objects: seq<Extent>) {
    && |at| == |ps| && |objects| >= first + RegisterParameters(ps, |ps|)
    && (forall k :: 0 <= k < |ps| ==>
          if ps[k].inRegister then IsAt(objects, first + RegisterParameters(ps, k), at[k], ps[k].size, ps[k].alignment)
          else at[k] == Machine.SAVED_BYTES + ps[k].stackOffset)
  }

  ghost predicate ParametersAt(ps: seq<Parameter>, at: seq<int>, n: nat, first: nat, objects: seq<Extent>)
    requires n <= |ps|
  {
    && |at| == n && |objects| == first + RegisterParameters(ps, n)
    && (forall k :: 0 <= k < n ==>
          if ps[k].inRegister then IsAt(objects, first + RegisterParameters(ps, k), at[k], ps[k].size, ps[k].alignment)
          else at[k] == Machine.SAVED_BYTES + ps[k].stackOffset)
  }

  lemma {:induction false} OneMoreParameter(ps: seq<Parameter>, at: seq<int>, i: nat, first: nat,
                                            before: seq<Extent>, after: seq<Extent>)
    requires i < |ps| && |at| == i + 1 && ParametersAt(ps, at[..i], i, first, before)
    requires if ps[i].inRegister
             then |after| == |before| + 1 && before <= after && IsAt(after, |before|, at[i], ps[i].size, ps[i].alignment)
             else after == before && at[i] == Machine.SAVED_BYTES + ps[i].stackOffset
    ensures ParametersAt(ps, at, i + 1, first, after)
  {
    forall k | 0 <= k < i && ps[k].inRegister
      ensures IsAt(after, first + RegisterParameters(ps, k), at[k], ps[k].size, ps[k].alignment)
    {
      assert at[..i][k] == at[k];
    }
    forall k | 0 <= k < i && !ps[k].inRegister ensures at[k] == Machine.SAVED_BYTES + ps[k].stackOffset {
      assert at[..i][k] == at[k];
    }
  }

  lemma {:induction false} ParametersStay(ps: seq<Parameter>, at: seq<int>, first: nat, before: seq<Extent>, after: seq<Extent>)
    requires ParametersKept(ps, at, first, before) && before <= after
    ensures ParametersKept(ps, at, first, after)
  {
  }

  ghost predicate LocalsKept(ls: seq<Local>, at: seq<int>, first: nat, objects: seq<Extent>) {
    |at| == |ls| && |objects| >= first + |ls| && forall k :: 0 <= k < |ls| ==> IsAt(objects, first + k, at[k], ls[k].size, ls[k].alignment)
  }

  ghost predicate LocalsAt(ls: seq<Local>, at: seq<int>, n: nat, first: nat, objects: seq<Extent>)
    requires n <= |ls|
  {
    |at| == n && |objects| == first + n && forall k :: 0 <= k < n ==> IsAt(objects, first + k, at[k], ls[k].size, ls[k].alignment)
  }

  lemma {:induction false} OneMoreLocal(ls: seq<Local>, at: seq<int>, i: nat, first: nat, before: seq<Extent>, after: seq<Extent>)
    requires i < |ls| && |at| == i + 1 && LocalsAt(ls, at[..i], i, first, before)
    requires |after| == |before| + 1 && before <= after && IsAt(after, |before|, at[i], ls[i].size, ls[i].alignment)
    ensures LocalsAt(ls, at, i + 1, first, after)
  {
    forall k | 0 <= k < i ensures IsAt(after, first + k, at[k], ls[k].size, ls[k].alignment) {
      assert at[..i][k] == at[k];
    }
  }

  lemma {:induction false} LocalsStay(ls: seq<Local>, at: seq<int>, first: nat, before: seq<Extent>, after: seq<Extent>)
    requires LocalsKept(ls, at, first, before) && before <= after
    ensures LocalsKept(ls, at, first, after)
  {
  }

  function RegisterParameters(ps: seq<Parameter>, n: nat): nat
    requires n <= |ps|
  {
    if n == 0 then 0 else RegisterParameters(ps, n - 1) + if ps[n - 1].inRegister then 1 else 0
  }

  // Two objects of a frame share no byte, and each lies between the frame's end
  // and the frame pointer.
  lemma {:induction false} ObjectsApart(es: seq<Extent>, frameSize: nat, i: nat, j: nat, at: int)
    requires Stacked(es, frameSize) && i < j < |es|
    ensures !(0 - es[i].Edge() as int <= at < 0 - es[i].start as int && 0 - es[j].Edge() as int <= at < 0 - es[j].start as int)
    ensures Holds(frameSize, 0 - es[i].Edge() as int, es[i].size) && Holds(frameSize, 0 - es[j].Edge() as int, es[j].size)
  {
    assert es[i].Edge() <= es[j].start;
  }

  // The caller and the callee agree on every integer argument: its register is
  // the one the convention numbers, its stack word the one the callee reads.
  lemma {:induction false} ArgumentsMeet(types: seq<Abi.Type>, i: nat)
    requires (forall k :: 0 <= k < |types| ==> Abi.IntegerScalar(types[k])) && i < |types| <= 64
    ensures var s := Abi.SlotOf(types, i, false);
            if i < Machine.Ir.REGISTER_ARGS then s.inRegister && s.registers == [i]
            else !s.inRegister && Machine.SAVED_BYTES + s.offset == Machine.SAVED_BYTES + 8 * (i - Machine.Ir.REGISTER_ARGS)
  {
    Abi.IntegerArguments(types, i);
  }
}
