// What a function does on entry: each integer parameter that arrived in a
// register is stored, no wider than it is, into the object the frame keeps for it.
module Prologue {
  import opened Words
  import opened Ir
  import Machine
  import Frame

  datatype FrameStore = FrameStore(reg: Machine.Reg, ty: Ty, offset: int)

  function Stores(types: seq<Ty>, at: seq<int>, n: nat): (s: seq<FrameStore>)
    requires n <= |types| == |at|
    ensures |s| == if n <= REGISTER_ARGS then n else REGISTER_ARGS
  {
    if n == 0 then []
    else if n > REGISTER_ARGS then Stores(types, at, n - 1)
    else Stores(types, at, n - 1) + [FrameStore(Machine.ArgumentRegister(n - 1), types[n - 1], at[n - 1])]
  }

  method EmitStores(types: seq<Ty>, at: seq<int>) returns (s: seq<FrameStore>)
    requires |types| == |at|
    ensures s == Stores(types, at, |types|)
  {
    s := [];
    var i := 0;
    while i < |types|
      invariant 0 <= i <= |types| && s == Stores(types, at, i)
    {
      if i < REGISTER_ARGS { s := s + [FrameStore(Machine.ArgumentRegister(i), types[i], at[i])]; }
      i := i + 1;
    }
  }

  function Run(s: seq<FrameStore>, n: nat, r: Machine.Regs, rbp: int, m: Mem): Mem
    requires n <= |s|
  {
    if n == 0 then m else StoreValue(Run(s, n - 1, r, rbp, m), s[n - 1].ty, rbp + s[n - 1].offset, r.Get(s[n - 1].reg))
  }

  // What the caller leaves: the first six values in their registers, the others
  // in the words above the saved frame pointer and the return address.
  predicate Delivered(vs: seq<int>, r: Machine.Regs, rbp: int, m: Mem) {
    forall k :: 0 <= k < |vs| ==>
      if k < REGISTER_ARGS then r.Get(Machine.ArgumentRegister(k)) == U64(vs[k])
      else LoadBytes(m, StackSlot(rbp, k), 8) == U64(vs[k])
  }

  function StackSlot(rbp: int, k: int): int { rbp + Machine.SAVED_BYTES + 8 * (k - REGISTER_ARGS) }

  // The parameters as the frame is laid out for them.
  function ParameterOf(types: seq<Ty>, k: nat): Frame.Parameter
    requires k < |types|
  {
    Frame.Parameter(types[k].width, types[k].width, k < REGISTER_ARGS, if k < REGISTER_ARGS then 0 else 8 * (k - REGISTER_ARGS))
  }

  function Parameters(types: seq<Ty>): seq<Frame.Parameter> {
    seq(|types|, k requires 0 <= k < |types| => ParameterOf(types, k))
  }

  // Neither end of the frame leaves the address space.
  predicate Addressable(rbp: int, frameSize: nat, count: nat) {
    frameSize <= rbp && rbp + Machine.SAVED_BYTES + 8 * count <= WORD
  }

  lemma {:induction false} LowBytes(m: Mem, at: int, w: nat, n: nat)
    requires w <= n
    ensures LoadBytes(m, at, w) == LoadBytes(m, at, n) % BytesModulus(w)
    decreases w
  {
    if w > 0 {
      LowBytes(m, at + 1, w - 1, n - 1);
      LowByteFirst(LoadBytes(m, at, n), BytesModulus(w - 1));
    }
  }

  lemma {:induction false} BytesElsewhere(m: Mem, at: int, count: nat, v: int, x: int, w: nat)
    requires 0 <= at && at + count <= WORD && 0 <= x && x + w <= WORD && (x + w <= at || at + count <= x)
    ensures LoadBytes(StoreBytes(m, at, count, v), x, w) == LoadBytes(m, x, w)
    decreases w
  {
    if w > 0 {
      assert count <= U64(x - at);
      StoreElsewhere(m, at, count, v, x);
      BytesElsewhere(m, at, count, v, x + 1, w - 1);
    }
  }

  lemma {:induction false} Residue(a: int)
    requires 0 <= a < WORD
    ensures U64(a) == a
  {
  }

  lemma {:induction false} ValueElsewhere(m: Mem, ty: Ty, at: int, v: int, x: int, w: nat)
    requires 0 <= at && at + ty.width <= WORD && 0 <= x && x + w <= WORD && (x + w <= at || at + ty.width <= x)
    ensures LoadBytes(StoreValue(m, ty, at, v), x, w) == LoadBytes(m, x, w)
  {
    hide LoadBytes, StoreBytes;
    Residue(at);
    BytesElsewhere(m, at, ty.width, U64(v), x, w);
  }

  // Bytes that no store touches.
  lemma {:induction false} Untouched(s: seq<FrameStore>, n: nat, r: Machine.Regs, rbp: int, m: Mem, x: int, w: nat)
    requires n <= |s| && 0 <= x && x + w <= WORD
    requires forall k :: 0 <= k < n ==>
               var a := rbp + s[k].offset; 0 <= a && a + s[k].ty.width <= WORD && (x + w <= a || a + s[k].ty.width <= x)
    ensures LoadBytes(Run(s, n, r, rbp, m), x, w) == LoadBytes(m, x, w)
  {
    hide LoadBytes, StoreValue;
    if n > 0 {
      Untouched(s, n - 1, r, rbp, m, x, w);
      ValueElsewhere(Run(s, n - 1, r, rbp, m), s[n - 1].ty, rbp + s[n - 1].offset, r.Get(s[n - 1].reg), x, w);
    }
  }

  // The k-th store stays: none after it touches its bytes.
  lemma {:induction false} StoreStays(s: seq<FrameStore>, n: nat, k: nat, r: Machine.Regs, rbp: int, m: Mem)
    requires k < n <= |s|
    requires forall i :: 0 <= i < |s| ==> 0 <= rbp + s[i].offset && rbp + s[i].offset + s[i].ty.width <= WORD
    requires forall i :: 0 <= i < |s| && i != k ==>
               s[k].offset + s[k].ty.width <= s[i].offset || s[i].offset + s[i].ty.width <= s[k].offset
    ensures LoadValue(Run(s, n, r, rbp, m), s[k].ty, rbp + s[k].offset) == Wrap(s[k].ty, r.Get(s[k].reg))
  {
    hide LoadBytes, StoreValue, Wrap, U64;
    if k == n - 1 {
      ObjectHoldsStoredValue(Run(s, n - 1, r, rbp, m), s[k].ty, rbp + s[k].offset, r.Get(s[k].reg));
    } else {
      StoreStays(s, n - 1, k, r, rbp, m);
      Residue(rbp + s[k].offset);
      ValueElsewhere(Run(s, n - 1, r, rbp, m), s[n - 1].ty, rbp + s[n - 1].offset, r.Get(s[n - 1].reg), rbp + s[k].offset, s[k].ty.width);
    }
  }

  lemma {:induction false} StoresAt(types: seq<Ty>, at: seq<int>, n: nat, k: nat)
    requires n <= |types| == |at| && k < |Stores(types, at, n)|
    ensures k < n && k < REGISTER_ARGS && Stores(types, at, n)[k] == FrameStore(Machine.ArgumentRegister(k), types[k], at[k])
  {
    if n > REGISTER_ARGS || k < n - 1 { StoresAt(types, at, n - 1, k); }
  }

  lemma {:induction false} RegisterCount(types: seq<Ty>, n: nat)
    requires n <= |types|
    ensures Frame.RegisterParameters(Parameters(types), n) == if n <= REGISTER_ARGS then n else REGISTER_ARGS
  {
    if n > 0 { RegisterCount(types, n - 1); }
  }

  // The object of the k-th register parameter lies in the frame.
  lemma {:induction false} SlotPlaced(types: seq<Ty>, at: seq<int>, first: nat, objects: seq<Frame.Extent>, frameSize: nat, k: nat)
    requires Frame.ParametersKept(Parameters(types), at, first, objects) && Frame.Stacked(objects, frameSize)
    requires k < |types| && k < REGISTER_ARGS
    ensures first + k < |objects| && at[k] == -(objects[first + k].Edge() as int) && objects[first + k].size == types[k].width
    ensures 0 - frameSize as int <= at[k] && at[k] + types[k].width <= 0
  {
    RegisterCount(types, k);
    assert Parameters(types)[k] == ParameterOf(types, k);
  }

  lemma {:induction false} SlotsApart(types: seq<Ty>, at: seq<int>, first: nat, objects: seq<Frame.Extent>, frameSize: nat, j: nat, k: nat)
    requires Frame.ParametersKept(Parameters(types), at, first, objects) && Frame.Stacked(objects, frameSize)
    requires j < k < |types| && k < REGISTER_ARGS
    ensures at[k] + types[k].width <= at[j]
  {
    SlotPlaced(types, at, first, objects, frameSize, j);
    SlotPlaced(types, at, first, objects, frameSize, k);
    assert objects[first + j].Edge() <= objects[first + k].start;
  }

  lemma {:induction false} StackPlaced(types: seq<Ty>, at: seq<int>, first: nat, objects: seq<Frame.Extent>, k: nat)
    requires Frame.ParametersKept(Parameters(types), at, first, objects) && REGISTER_ARGS <= k < |types|
    ensures at[k] == Machine.SAVED_BYTES + 8 * (k - REGISTER_ARGS)
  {
    assert Parameters(types)[k] == ParameterOf(types, k);
  }

  lemma {:induction false} WordHolds(m: Mem, ty: Ty, at: int, v: int)
    requires 0 <= at < WORD && LoadBytes(m, at, 8) == U64(v)
    ensures LoadValue(m, ty, at) == Wrap(ty, v)
  {
    LowBytes(m, at, ty.width, 8);
    BytesModulusIs(ty.width);
    WrapOfResidue(ty, U64(v));
    WrapOfRegister(ty, v);
    assert U64(at) == at;
  }

  // After the prologue every parameter, read at its place in the frame, is the
  // value the caller passed, brought to the parameter's type.
  lemma {:induction false} ParametersHeld(types: seq<Ty>, vs: seq<int>, at: seq<int>, first: nat, objects: seq<Frame.Extent>, frameSize: nat,
                                          r: Machine.Regs, rbp: int, m: Mem, k: nat)
    requires |types| == |vs| && k < |types| && Delivered(vs, r, rbp, m) && Addressable(rbp, frameSize, |types|)
    requires Frame.ParametersKept(Parameters(types), at, first, objects) && Frame.Stacked(objects, frameSize)
    ensures |at| == |types|
    ensures var s := Stores(types, at, |types|);
            LoadValue(Run(s, |s|, r, rbp, m), types[k], rbp + at[k]) == Wrap(types[k], vs[k])
  {
    hide Frame.ParametersKept, Frame.Stacked, Stores, LoadBytes, Run;
    Kept(types, at, first, objects);
    var s := Stores(types, at, |types|);
    forall i | 0 <= i < |s| ensures 0 - frameSize as int <= s[i].offset && s[i].offset + s[i].ty.width <= 0 {
      StoresAt(types, at, |types|, i);
      SlotPlaced(types, at, first, objects, frameSize, i);
    }
    if k < REGISTER_ARGS {
      StoresAt(types, at, |types|, k);
      forall i | 0 <= i < |s| && i != k
        ensures s[k].offset + s[k].ty.width <= s[i].offset || s[i].offset + s[i].ty.width <= s[k].offset
      {
        StoresAt(types, at, |types|, i);
        if i < k { SlotsApart(types, at, first, objects, frameSize, i, k); } else { SlotsApart(types, at, first, objects, frameSize, k, i); }
      }
      StoreStays(s, |s|, k, r, rbp, m);
      WrapOfRegister(types[k], vs[k]);
    } else {
      StackPlaced(types, at, first, objects, k);
      Untouched(s, |s|, r, rbp, m, StackSlot(rbp, k), 8);
      WordHolds(Run(s, |s|, r, rbp, m), types[k], StackSlot(rbp, k), vs[k]);
    }
  }

  lemma {:induction false} Kept(types: seq<Ty>, at: seq<int>, first: nat, objects: seq<Frame.Extent>)
    requires Frame.ParametersKept(Parameters(types), at, first, objects)
    ensures |at| == |types|
  {
  }
}
