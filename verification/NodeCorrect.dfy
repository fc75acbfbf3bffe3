// Lowered expressions mean what the source expressions mean.
module NodeCorrect {
  import opened Words
  import opened Lists
  import opened Options
  import opened Ir
  import opened Ast
  import opened LowerNode
  import opened Conversions

  lemma {:induction false} ModulusIsPow2(w: Width)
    ensures Pow2(8 * w) == Modulus(w)
  {
    assert Pow2(8) == 256;
    if w == 2 { Pow2Add(8, 8); }
    if w >= 4 { Pow2Add(8, 8); Pow2Add(16, 16); }
    if w == 8 { Pow2Add(32, 32); }
  }

  lemma {:induction false} UpdateBits(ty: Ty, bit: BitOp, common: Ty, x: int, y: int)
    requires ty.width <= common.width
    ensures Wrap(ty, Wrap(common, Bitwise64(bit, U64(Wrap(common, x)), U64(y))))
         == Wrap(ty, Bitwise64(bit, U64(x), U64(y)))
  {
    hide Bitwise, Pow2, Half;
    var w, X := common.width, Wrap(common, x);
    var r, r' := Bitwise64(bit, U64(X), U64(y)), Bitwise64(bit, U64(x), U64(y));
    var k := WrapMoves(common, x);
    ModFacts(X, x, k, Modulus(w));
    RegisterLow(w, x);
    RegisterLow(w, X);
    ModulusIsPow2(w);
    BitwiseLow(bit, U64(X), U64(x), U64(y), 64, 8 * (w as int));
    WrapTwice(ty, common, r);
    WrapTwice(ty, common, r');
    assert Wrap(common, r) == Wrap(common, r');
  }

  lemma {:induction false} UpdateLinear(ty: Ty, op: Operator, common: Ty, x: int, y: int)
    requires ty.width <= common.width && (op.Add? || op.Sub? || op.Mul?)
    requires Compute(common, op, Wrap(common, x), y).Some?
    ensures Operate(ty, op, x, y) == Some(Wrap(ty, Compute(common, op, Wrap(common, x), y).value))
  {
    var m, X := Modulus(common.width), Wrap(common, x);
    var k := WrapMoves(common, x);
    match op {
      case Add =>
        NarrowCongruent(ty, common.width, X + y, x + y, k);
        WrapTwice(ty, common, X + y);
      case Sub =>
        NarrowCongruent(ty, common.width, X - y, x - y, k);
        WrapTwice(ty, common, X - y);
      case Mul =>
        ProductMoves(x, k, m, y);
        NarrowCongruent(ty, common.width, X * y, x * y, k * y);
        WrapTwice(ty, common, X * y);
    }
  }

  lemma {:induction false} ProductMoves(x: int, k: int, m: int, y: int)
    ensures (x + k * m) * y == x * y + (k * y) * m
  {
    assert k * m * y == k * y * m;
  }

  // Working in the target's own type gives what C gets by working in the
  // common type and converting back.
  lemma {:induction false} UpdateDoes(ty: Ty, op: Operator, common: Ty, x: int, y: int)
    requires InRange(ty, x) && common.width >= ty.width
    requires if IsShift(op) then Includes(common, ty) else InRange(common, y)
    requires Divides(op) ==> Commons(common, ty) && SameDivision(op, ty, common, x, y)
    requires Compute(common, op, Wrap(common, x), y).Some?
    ensures Operate(ty, op, x, y) == Some(Wrap(ty, Compute(common, op, Wrap(common, x), y).value))
  {
    if op.BitwiseOp? {
      UpdateBits(ty, op.bit, common, x, y);
    } else if op.Add? || op.Sub? || op.Mul? {
      UpdateLinear(ty, op, common, x, y);
    } else if IsShift(op) {
      UpdateShift(ty, op, common, x, y);
    } else {
      MixedDivision(op, ty, common, x, y);
    }
  }

  lemma {:induction false} UpdateShift(ty: Ty, op: Operator, common: Ty, x: int, y: int)
    requires InRange(ty, x) && IsShift(op) && Includes(common, ty)
    requires Compute(common, op, Wrap(common, x), y).Some?
    ensures Operate(ty, op, x, y) == Some(Wrap(ty, Compute(common, op, Wrap(common, x), y).value))
  {
    WrapInRange(common, x);
    ValueFromImage(ty, x);
    assert 0 <= y < 64;
    assert U64(y) % 64 == y;
    WrapTwice(ty, common, x * Pow2(y));
    WrapTwice(ty, common, x / Pow2(y));
  }

  lemma {:induction false} ScaledImage(i: int, size: nat, i': int)
    requires size < 0x8000_0000 && U64(i) == U64(i')
    ensures var scaled := Operate(LONG, Mul, i', S64(size));
            scaled.Some? && U64(scaled.value) == U64(i * size)
  {
    WrapInRange(LONG, size);
    OperateOnImages(LONG, Mul, i, size, i', size);
    WrapFullWidth(LONG, i * size);
  }

  lemma {:induction false} MovedImage(ty: Ty, op: Operator, p: int, d: int, p': int, d': int)
    requires (op.Add? || op.Sub?) && ty.width == 8 && U64(p) == U64(p') && U64(d) == U64(d')
    ensures var o := Operate(ty, op, p', d');
            o.Some? && U64(o.value) == U64(if op.Add? then p + d else p - d)
  {
    OperateOnImages(ty, op, p, d, p', d');
    WrapFullWidth(ty, if op.Add? then p + d else p - d);
  }

  // Index arithmetic in signed 64-bit steps moves a pointer by whole objects.
  lemma {:induction false} MovedDoes(ty: Ty, op: Operator, p: int, i: int, size: nat, p': int, i': int)
    requires (op.Add? || op.Sub?) && ty.width == 8 && size < 0x8000_0000
    requires U64(p) == U64(p') && U64(i) == U64(i')
    ensures var scaled := Operate(LONG, Mul, i', S64(size));
            && scaled.Some? && Operate(ty, op, p', scaled.value).Some?
            && U64(Operate(ty, op, p', scaled.value).value) == Moved(op, p, i, size)
    ensures U64(Moved(op, p, i, size)) == Moved(op, p, i, size)
  {
    hide Operate, U64, Wrap;
    ScaledImage(i, size, i');
    MovedImage(ty, op, p, i * size, p', Operate(LONG, Mul, i', S64(size)).value);
    U64Twice(if op.Add? then p + i * size else p - i * size);
  }

  lemma {:induction false} Correct(n: Node, k: nat, env: Env, m: Mem)
    requires WellTyped(n)
    ensures Agrees(Meaning(n, env, m), Eval(Lower(n, k).0, env, m))
    ensures Typed(Meaning(n, env, m), TypeOfNode(n))
    decreases n, 1
  {
    match n {
      case Number(ty, value) => WrapOfRegister(ty, value); WrapInRange(ty, value);
      case Name(_, _) =>
      case Read(_, place) => PlaceCorrect(place, k, env, m); ReadCorrect(n, k, env, m);
      case AddressOf(place) => PlaceCorrect(place, k, env, m);
      case Decay(place) => PlaceCorrect(place, k, env, m); DecayCorrect(n, k, env, m);
      case Assign(_, _, _) => AssignedCorrect(n, k, env, m); AssignCorrect(n, k, env, m);
      case Update(_, _, _, _, _) => UpdateCorrect(n, k, env, m);
      case UpdatePointer(_, _, _, _) => UpdatePointerCorrect(n, k, env, m);
      case Arith(_, _, _, _) => ArithCorrect(n, k, env, m);
      case Advance(_, _, _, _) => AdvanceCorrect(n, k, env, m);
      case Distance(_, _, _) => DistanceCorrect(n, k, env, m);
      case Test(_, _, _) => TestCorrect(n, k, env, m);
      case AndOr(_, _, _) => AndOrCorrect(n, k, env, m);
      case Sign(_, _, _) => UnaryCorrect(n, k, env, m);
      case Complement(_, _) => UnaryCorrect(n, k, env, m);
      case Not(_) => UnaryCorrect(n, k, env, m);
      case Convert(_, _) => UnaryCorrect(n, k, env, m);
      case StepBy(_, _, _, _, _) => StepCorrect(n, k, env, m);
      case Choose(_, _, _, _) => ChooseCorrect(n, k, env, m);
      case Sequence(_, _) => SequenceCorrect(n, k, env, m);
      case Apply(_, _, _) => ApplyCorrect(n, k, env, m);
    }
  }

  lemma {:induction false} ReadCorrect(n: Node, k: nat, env: Env, m: Mem)
    requires n.Read? && Agrees(Location(n.place, env, m), Eval(LowerPlace(n.place, k).0, env, m))
    ensures Agrees(Meaning(n, env, m), Eval(Lower(n, k).0, env, m))
    ensures Typed(Meaning(n, env, m), TypeOfNode(n))
  {
  }

  lemma {:induction false} DecayCorrect(n: Node, k: nat, env: Env, m: Mem)
    requires n.Decay? && Agrees(Location(n.place, env, m), Eval(LowerPlace(n.place, k).0, env, m))
    ensures Agrees(Meaning(n, env, m), Eval(Lower(n, k).0, env, m))
  {
    var o := Eval(LowerPlace(n.place, k).0, env, m);
    if o.Ok? { WrapFullWidth(ADDRESS, o.value); }
  }

  // Memory is C's whatever is assigned; the value left behind is that of the right
  // side, not converted.
  lemma {:induction false} AssignedCorrect(n: Node, k: nat, env: Env, m: Mem)
    requires n.Assign? && WellTyped(n)
    ensures Agrees(Assigned(n, env, m), Eval(Lower(n, k).0, env, m))
    decreases n, 0
  {
    hide StoreBytes, LoadBytes, Wrap, U64;
    PlaceCorrect(n.place, k, env, m);
    var o := Location(n.place, env, m);
    if !o.Means? { return; }
    Correct(n.right, LowerPlace(n.place, k).1, env, o.mem);
    var r := Meaning(n.right, env, o.mem);
    if r.Means? {
      StoreConverts(r.mem, n.ty, o.value, r.value);
    }
  }

  lemma {:induction false} AssignCorrect(n: Node, k: nat, env: Env, m: Mem)
    requires n.Assign? && WellTyped(n) && Agrees(Assigned(n, env, m), Eval(Lower(n, k).0, env, m))
    ensures Agrees(Meaning(n, env, m), Eval(Lower(n, k).0, env, m))
    ensures Typed(Meaning(n, env, m), TypeOfNode(n))
  {
    hide Wrap, U64, Passes, Assigned, Lower, Eval;
    var o := Assigned(n, env, m);
    if o.Means? { Unconverted(n.ty, o.value); }
  }

  // Nobody looks at the value: memory alone must be right.
  lemma {:induction false} EffectCorrect(n: Node, k: nat, env: Env, m: Mem)
    requires WellTyped(n)
    ensures AgreesInMemory(Effect(n, env, m), Eval(Lower(n, k).0, env, m))
    decreases n, 2
  {
    if n.Assign? {
      AssignedCorrect(n, k, env, m);
    } else if n.Choose? {
      ChooseEffect(n, k, env, m);
    } else if n.Sequence? {
      SequenceEffect(n, k, env, m);
    } else if n.Convert? {
      EffectCorrect(n.a, k, env, m);
    } else {
      Correct(n, k, env, m);
    }
  }

  lemma {:induction false} SequenceEffect(n: Node, k: nat, env: Env, m: Mem)
    requires n.Sequence? && WellTyped(n)
    ensures AgreesInMemory(Effect(n, env, m), Eval(Lower(n, k).0, env, m))
    decreases n, 0
  {
    EffectCorrect(n.a, k, env, m);
    var o := Effect(n.a, env, m);
    if o.Means? { EffectCorrect(n.b, Lower(n.a, k).1, env, o.mem); }
  }

  lemma {:induction false} ChooseEffect(n: Node, k: nat, env: Env, m: Mem)
    requires n.Choose? && WellTyped(n)
    ensures AgreesInMemory(Effect(n, env, m), Eval(Lower(n, k).0, env, m))
    decreases n, 0
  {
    Correct(n.a, k + 3, env, m);
    var o := Meaning(n.a, env, m);
    if o.Means? {
      ValueFromImage(TypeOfNode(n.a), o.value);
      var k1 := Lower(n.a, k + 3).1;
      if o.value != 0 { EffectCorrect(n.b, k1, env, o.mem); } else { EffectCorrect(n.c, Lower(n.b, k1).1, env, o.mem); }
    }
  }

  lemma {:induction false} UpdateCorrect(n: Node, k: nat, env: Env, m: Mem)
    requires n.Update? && WellTyped(n)
    ensures Agrees(Meaning(n, env, m), Eval(Lower(n, k).0, env, m))
    ensures Typed(Meaning(n, env, m), TypeOfNode(n))
    decreases n, 0
  {
    hide Compute, Operate, U64, StoreBytes, LoadBytes, Wrap, Includes, SameDivision;
    PlaceCorrect(n.place, k, env, m);
    var o := Location(n.place, env, m);
    if !o.Means? { return; }
    var k1 := LowerPlace(n.place, k).1;
    Correct(n.right, k1, env, o.mem);
    var r := Meaning(n.right, env, o.mem);
    if !r.Means? { return; }
    var x := LoadValue(o.mem, n.ty, o.value);
    if Compute(n.common, n.op, Wrap(n.common, x), r.value).Some?
       && (Divides(n.op) ==> SameDivision(n.op, n.ty, n.common, x, r.value)) {
      UpdateDoes(n.ty, n.op, n.common, x, r.value);
      OperateOnImages(n.ty, n.op, x, r.value, x, Eval(Lower(n.right, k1).0, env, o.mem).value);
    }
  }

  lemma {:induction false} UpdatePointerCorrect(n: Node, k: nat, env: Env, m: Mem)
    requires n.UpdatePointer? && WellTyped(n)
    ensures Agrees(Meaning(n, env, m), Eval(Lower(n, k).0, env, m))
    ensures Typed(Meaning(n, env, m), TypeOfNode(n))
    decreases n, 0
  {
    PlaceCorrect(n.place, k, env, m);
    var o := Location(n.place, env, m);
    if !o.Means? { return; }
    var k1 := LowerPlace(n.place, k).1;
    Correct(n.right, k1, env, o.mem);
    var r := Meaning(n.right, env, o.mem);
    if !r.Means? { return; }
    var e := Lower(n.right, k1).0;
    var p := Eval(LowerPlace(n.place, k).0, env, m).value;
    PointerStored(n.op, n.size, o.value, p, LoadValue(o.mem, ADDRESS, p), r.value, Eval(e, env, o.mem).value, r.mem);
    ScaledDoes(e, n.size, env, o.mem);
    CompoundDoes(ADDRESS, n.op, LowerPlace(n.place, k).0, Scaled(e, n.size), env, m);
  }

  lemma {:induction false} PointerStored(op: Operator, size: nat, p: int, p': int, x: int, y: int, y': int, m: Mem)
    requires (op.Add? || op.Sub?) && size < 0x8000_0000 && U64(p) == U64(p') && U64(y) == U64(y')
    ensures var v := Operate(ADDRESS, op, x, Operate(LONG, Mul, y', S64(size)).value);
            && v.Some? && U64(v.value) == U64(Moved(op, x, y, size))
            && StoreValue(m, ADDRESS, p', v.value) == StoreValue(m, ADDRESS, p, Moved(op, x, y, size))
  {
    MovedDoes(ADDRESS, op, x, y, size, x, y');
    U64Twice(if op.Add? then x + y * size else x - y * size);
  }

  lemma {:induction false} CompoundDoes(ty: Ty, op: Operator, addr: Expr, value: Expr, env: Env, m: Mem)
    requires Eval(addr, env, m).Ok?
    ensures var o := Eval(addr, env, m);
            Eval(Compound(ty, op, addr, value), env, m)
            == match Eval(value, env, o.mem)
               case Ok(y, m2) =>
                 (match Operate(ty, op, LoadValue(o.mem, ty, o.value), y)
                  case Some(v) => Ok(v, StoreValue(m2, ty, o.value, v))
                  case None => Trap)
               case other => other
  {
  }

  lemma {:induction false} ScaledDoes(e: Expr, size: nat, env: Env, m: Mem)
    ensures Eval(Scaled(e, size), env, m)
         == match Eval(e, env, m)
            case Ok(i, m1) => Ok(Operate(LONG, Mul, i, S64(size)).value, m1)
            case other => other
  {
  }

  lemma {:induction false} ArithCorrect(n: Node, k: nat, env: Env, m: Mem)
    requires n.Arith? && WellTyped(n)
    ensures Agrees(Meaning(n, env, m), Eval(Lower(n, k).0, env, m))
    ensures Typed(Meaning(n, env, m), TypeOfNode(n))
    decreases n, 0
  {
    Correct(n.a, k, env, m);
    var o := Meaning(n.a, env, m);
    if !o.Means? { return; }
    var k1 := Lower(n.a, k).1;
    Correct(n.b, k1, env, o.mem);
    var r := Meaning(n.b, env, o.mem);
    if r.Means? && Compute(n.ty, n.op, o.value, r.value).Some? {
      OperateIsCompute(n.ty, n.op, o.value, r.value);
      OperateOnImages(n.ty, n.op, o.value, r.value, Eval(Lower(n.a, k).0, env, m).value,
                      Eval(Lower(n.b, k1).0, env, o.mem).value);
    }
  }

  lemma {:induction false} AdvanceCorrect(n: Node, k: nat, env: Env, m: Mem)
    requires n.Advance? && WellTyped(n)
    ensures Agrees(Meaning(n, env, m), Eval(Lower(n, k).0, env, m))
    ensures Typed(Meaning(n, env, m), TypeOfNode(n))
    decreases n, 0
  {
    hide Moved, Operate, U64;
    Correct(n.pointer, k, env, m);
    var o := Meaning(n.pointer, env, m);
    if !o.Means? { return; }
    var k1 := Lower(n.pointer, k).1;
    Correct(n.index, k1, env, o.mem);
    var r := Meaning(n.index, env, o.mem);
    if r.Means? {
      MovedDoes(ADDRESS, n.op, o.value, r.value, n.size, Eval(Lower(n.pointer, k).0, env, m).value,
                Eval(Lower(n.index, k1).0, env, o.mem).value);
      ScaledDoes(Lower(n.index, k1).0, n.size, env, o.mem);
    }
  }

  lemma {:induction false} DistanceDoes(x: int, y: int, size: nat, x': int, y': int)
    requires U64(x) == U64(x') && U64(y) == U64(y') && 0 < size < 0x8000_0000
    ensures var d := Operate(LONG, Sub, x', y');
            && d.Some? && Operate(LONG, Div, d.value, S64(size)) == Some(TruncDiv(S64(x - y), size))
  {
    hide TruncDiv, Quotient, Divisible, Wrap, U64;
    var d := S64(x - y);
    OperateOnImages(LONG, Sub, x, y, x', y');
    assert Operate(LONG, Sub, x, y) == Some(d);
    SmallLong(size);
    ShrinkingQuotient(d, size);
    DivisionDoes(LONG, d, size);
    WrapInRange(LONG, TruncDiv(d, size));
  }

  lemma {:induction false} SmallLong(size: nat)
    requires size < 0x8000_0000
    ensures InRange(LONG, size) && S64(size) == size
  {
    WrapInRange(LONG, size);
  }

  lemma {:induction false} BoolTyped(b: bool)
    ensures InRange(INT, Bool(b))
  {
  }

  lemma {:induction false} ShrinkingQuotient(d: int, size: nat)
    requires InRange(LONG, d) && 0 < size < 0x8000_0000
    ensures InRange(LONG, TruncDiv(d, size))
  {
    QuotientAtMost(Abs(d), size);
  }

  lemma {:induction false} DifferenceShape(a: Expr, b: Expr, size: nat, env: Env, m: Mem)
    requires Eval(a, env, m).Ok? && Eval(b, env, Eval(a, env, m).mem).Ok?
    requires Operate(LONG, Sub, Eval(a, env, m).value, Eval(b, env, Eval(a, env, m).mem).value).Some?
    ensures var x, o := Eval(a, env, m).value, Eval(b, env, Eval(a, env, m).mem);
            Eval(Binary(LONG, Div, Binary(LONG, Sub, a, b), Const(LONG, size)), env, m)
            == match Operate(LONG, Div, Operate(LONG, Sub, x, o.value).value, S64(size))
               case Some(v) => Ok(v, o.mem)
               case None => Trap
  {
    hide Operate;
  }

  lemma {:induction false} DistanceCorrect(n: Node, k: nat, env: Env, m: Mem)
    requires n.Distance? && WellTyped(n)
    ensures Agrees(Meaning(n, env, m), Eval(Lower(n, k).0, env, m))
    ensures Typed(Meaning(n, env, m), TypeOfNode(n))
    decreases n, 0
  {
    Correct(n.a, k, env, m);
    var o := Meaning(n.a, env, m);
    if !o.Means? { return; }
    var k1 := Lower(n.a, k).1;
    Correct(n.b, k1, env, o.mem);
    var r := Meaning(n.b, env, o.mem);
    if r.Means? {
      var e1, e2 := Lower(n.a, k).0, Lower(n.b, k1).0;
      var x, y := Eval(e1, env, m).value, Eval(e2, env, o.mem).value;
      ShrinkingQuotient(S64(o.value - r.value), n.size);
      DistanceDoes(o.value, r.value, n.size, x, y);
      DifferenceShape(e1, e2, n.size, env, m);
    }
  }

  lemma {:induction false} TestCorrect(n: Node, k: nat, env: Env, m: Mem)
    requires n.Test? && WellTyped(n)
    ensures Agrees(Meaning(n, env, m), Eval(Lower(n, k).0, env, m))
    ensures Typed(Meaning(n, env, m), TypeOfNode(n))
    decreases n, 0
  {
    Correct(n.a, k, env, m);
    var o := Meaning(n.a, env, m);
    if !o.Means? { return; }
    var k1 := Lower(n.a, k).1;
    Correct(n.b, k1, env, o.mem);
    LoweredType(n.a, k);
    var r := Meaning(n.b, env, o.mem);
    if r.Means? {
      var ta := TypeOfNode(n.a);
      SameCompare(n.cmp, ta.signed, o.value, r.value, Eval(Lower(n.a, k).0, env, m).value, Eval(Lower(n.b, k1).0, env, o.mem).value);
      MixedTest(n.cmp, ta, TypeOfNode(n.b), o.value, r.value);
    }
  }

  lemma {:induction false} AndOrCorrect(n: Node, k: nat, env: Env, m: Mem)
    requires n.AndOr? && WellTyped(n)
    ensures Agrees(Meaning(n, env, m), Eval(Lower(n, k).0, env, m))
    ensures Typed(Meaning(n, env, m), TypeOfNode(n))
    decreases n, 0
  {
    Correct(n.a, k, env, m);
    var o := Meaning(n.a, env, m);
    if o.Means? {
      ValueFromImage(TypeOfNode(n.a), o.value);
      Correct(n.b, Lower(n.a, k).1, env, o.mem);
      var r := Meaning(n.b, env, o.mem);
      if r.Means? { ValueFromImage(TypeOfNode(n.b), r.value); }
    }
  }

  lemma {:induction false} UnaryCorrect(n: Node, k: nat, env: Env, m: Mem)
    requires (n.Sign? || n.Complement? || n.Not? || n.Convert?) && WellTyped(n)
    ensures Agrees(Meaning(n, env, m), Eval(Lower(n, k).0, env, m))
    ensures Typed(Meaning(n, env, m), TypeOfNode(n))
    decreases n, 0
  {
    Correct(n.a, k, env, m);
    if n.Not? { NotCorrect(n, k, env, m); } else if n.Sign? { SignCorrect(n, k, env, m); } else { NegatedCorrect(n, k, env, m); }
  }

  lemma {:induction false} NegatedCorrect(n: Node, k: nat, env: Env, m: Mem)
    requires (n.Complement? || n.Convert?) && WellTyped(n)
    requires Agrees(Meaning(n.a, env, m), Eval(Lower(n.a, k).0, env, m)) && Typed(Meaning(n.a, env, m), TypeOfNode(n.a))
    ensures Agrees(Meaning(n, env, m), Eval(Lower(n, k).0, env, m))
    ensures Typed(Meaning(n, env, m), TypeOfNode(n))
  {
    hide Wrap, U64, InRange;
    var o := Meaning(n.a, env, m);
    if o.Means? {
      var x, x' := o.value, Eval(Lower(n.a, k).0, env, m).value;
      if n.Convert? { WrapCongruent(n.ty, x, x'); } else { SameNegation(n.ty, x, x'); }
    }
  }

  lemma {:induction false} SignShape(ty: Ty, plus: bool, a: Node, k: nat, env: Env, m: Mem)
    ensures Eval(Lower(Sign(ty, plus, a), k).0, env, m)
         == match Eval(Lower(a, k).0, env, m) case Ok(x, m1) => Ok(Wrap(ty, -x), m1) case other => other
  {
    hide Wrap;
    assert Lower(Sign(ty, plus, a), k).0 == Unary(ty, Neg, Lower(a, k).0);
  }

  lemma {:induction false} SignCorrect(n: Node, k: nat, env: Env, m: Mem)
    requires n.Sign? && WellTyped(n)
    requires Agrees(Meaning(n.a, env, m), Eval(Lower(n.a, k).0, env, m)) && Typed(Meaning(n.a, env, m), TypeOfNode(n.a))
    ensures Agrees(Meaning(n, env, m), Eval(Lower(n, k).0, env, m))
    ensures Typed(Meaning(n, env, m), TypeOfNode(n))
  {
    hide Wrap, U64, InRange, OwnNegative, Lower, Eval;
    SignShape(n.ty, n.plus, n.a, k, env, m);
    var o := Meaning(n.a, env, m);
    if o.Means? {
      SameNegation(n.ty, o.value, Eval(Lower(n.a, k).0, env, m).value);
      NegationFixes(n.ty, o.value);
    }
  }

  lemma {:induction false} NotCorrect(n: Node, k: nat, env: Env, m: Mem)
    requires n.Not? && WellTyped(n)
    requires Agrees(Meaning(n.a, env, m), Eval(Lower(n.a, k).0, env, m)) && Typed(Meaning(n.a, env, m), TypeOfNode(n.a))
    ensures Agrees(Meaning(n, env, m), Eval(Lower(n, k).0, env, m))
    ensures Typed(Meaning(n, env, m), TypeOfNode(n))
  {
    hide Wrap, U64, InRange;
    var o := Meaning(n.a, env, m);
    if o.Means? {
      ValueFromImage(TypeOfNode(n.a), o.value);
      BoolTyped(o.value == 0);
    }
  }

  lemma {:induction false} SameNegation(ty: Ty, x: int, x': int)
    requires U64(x) == U64(x')
    ensures Wrap(ty, -x) == Wrap(ty, -x') && Wrap(ty, -x - 1) == Wrap(ty, -x' - 1)
  {
    U64Negate(x);
    U64Negate(x');
    WrapCongruent(ty, -x, -x');
    WrapCongruent(ty, -x - 1, -x' - 1);
  }

  lemma {:induction false} StepCorrect(n: Node, k: nat, env: Env, m: Mem)
    requires n.StepBy? && WellTyped(n)
    ensures Agrees(Meaning(n, env, m), Eval(Lower(n, k).0, env, m))
    ensures Typed(Meaning(n, env, m), TypeOfNode(n))
    decreases n, 0
  {
    hide U64, StoreBytes, LoadBytes;
    PlaceCorrect(n.place, k, env, m);
  }

  lemma {:induction false} ChooseCorrect(n: Node, k: nat, env: Env, m: Mem)
    requires n.Choose? && WellTyped(n)
    ensures Agrees(Meaning(n, env, m), Eval(Lower(n, k).0, env, m))
    ensures Typed(Meaning(n, env, m), TypeOfNode(n))
    decreases n, 0
  {
    Correct(n.a, k + 3, env, m);
    var o := Meaning(n.a, env, m);
    if o.Means? {
      ValueFromImage(TypeOfNode(n.a), o.value);
      var k1 := Lower(n.a, k + 3).1;
      if o.value != 0 { Correct(n.b, k1, env, o.mem); } else { Correct(n.c, Lower(n.b, k1).1, env, o.mem); }
      var r := if o.value != 0 then Meaning(n.b, env, o.mem) else Meaning(n.c, env, o.mem);
      if r.Means? { Unconverted(n.ty, r.value); }
    }
  }

  lemma {:induction false} SequenceCorrect(n: Node, k: nat, env: Env, m: Mem)
    requires n.Sequence? && WellTyped(n)
    ensures Agrees(Meaning(n, env, m), Eval(Lower(n, k).0, env, m))
    ensures Typed(Meaning(n, env, m), TypeOfNode(n))
    decreases n, 0
  {
    EffectCorrect(n.a, k, env, m);
    var o := Effect(n.a, env, m);
    if o.Means? { Correct(n.b, Lower(n.a, k).1, env, o.mem); }
  }

  lemma {:induction false} PlaceCorrect(p: Place, k: nat, env: Env, m: Mem)
    requires WellTypedPlace(p)
    ensures Agrees(Location(p, env, m), Eval(LowerPlace(p, k).0, env, m))
    ensures Typed(Location(p, env, m), ADDRESS)
    decreases p, 2
  {
    hide U64;
    match p {
      case Variable(_) =>
      case Pointee(pointer) => Correct(pointer, k, env, m);
      case Indexed(_, _, _) => ArrayCorrect(p, k, env, m);
      case Element(_, _, _) => ArrayCorrect(p, k, env, m);
      case Field(record, offset) =>
        PlaceCorrect(record, k, env, m);
        OffsetCorrect(Location(record, env, m), LowerPlace(record, k).0, offset, env, m);
      case Arrow(pointer, offset) =>
        Correct(pointer, k, env, m);
        OffsetCorrect(Meaning(pointer, env, m), Lower(pointer, k).0, offset, env, m);
    }
  }

  lemma {:induction false} ArrayCorrect(p: Place, k: nat, env: Env, m: Mem)
    requires (p.Indexed? || p.Element?) && WellTypedPlace(p)
    ensures Agrees(Location(p, env, m), Eval(LowerPlace(p, k).0, env, m))
    ensures Typed(Location(p, env, m), ADDRESS)
    decreases p, 1
  {
    hide U64;
    if p.Indexed? {
      Correct(p.pointer, k, env, m);
      IndexCorrect(Meaning(p.pointer, env, m), Lower(p.pointer, k).0, p.index, p.size, Lower(p.pointer, k).1, env, m, p);
    } else {
      PlaceCorrect(p.whole, k, env, m);
      IndexCorrect(Location(p.whole, env, m), LowerPlace(p.whole, k).0, p.index, p.size, LowerPlace(p.whole, k).1, env, m, p);
    }
  }

  lemma {:induction false} OffsetCorrect(o: Meant<int>, base: Expr, offset: nat, env: Env, m: Mem)
    requires Agrees(o, Eval(base, env, m))
    ensures Agrees(match o case Means(b, m1) => Means(U64(b + offset), m1) case other => other,
                   Eval(Member(base, offset), env, m))
  {
    if o.Means? {
      U64AddRight(o.value, offset);
      U64AddRight(Eval(base, env, m).value, offset);
    }
  }

  lemma {:induction false} SumShape(base: Expr, e: Expr, size: nat, env: Env, m: Mem)
    ensures Eval(Binary(LONG, Add, base, Scaled(e, size)), env, m)
         == match Eval(base, env, m)
            case Ok(p, m1) =>
              (match Eval(e, env, m1)
               case Ok(i, m2) =>
                 (match Operate(LONG, Add, p, Operate(LONG, Mul, i, S64(size)).value)
                  case Some(v) => Ok(v, m2)
                  case None => Trap)
               case other => other)
            case other => other
  {
    hide Operate, Scaled;
    var o := Eval(base, env, m);
    if o.Ok? { ScaledDoes(e, size, env, o.mem); }
  }

  lemma {:induction false} IndexCorrect(o: Meant<int>, base: Expr, index: Node, size: nat, k: nat,
                                        env: Env, m: Mem, p: Place)
    requires index < p && WellTyped(index) && 0 < size < 0x8000_0000
    requires Agrees(o, Eval(base, env, m))
    ensures Agrees(match o
                   case Means(b, m1) =>
                     (match Meaning(index, env, m1)
                      case Means(i, m2) => Means(Moved(Add, b, i, size), m2)
                      case other => other)
                   case other => other,
                   Eval(Binary(LONG, Add, base, Scaled(Lower(index, k).0, size)), env, m))
    decreases p, 0
  {
    hide Moved, Operate, U64, Scaled, LoadBytes, StoreBytes, Eval, Lower, Meaning, InRange;
    SumShape(base, Lower(index, k).0, size, env, m);
    if o.Means? {
      Correct(index, k, env, o.mem);
      var r := Meaning(index, env, o.mem);
      if r.Means? {
        MovedDoes(LONG, Add, o.value, r.value, size, Eval(base, env, m).value,
                  Eval(Lower(index, k).0, env, o.mem).value);
      }
    }
  }

  lemma {:induction false} StackArgsCorrect(args: List<Node>, i: nat, k: nat, env: Env, m: Mem)
    requires WellTypedArgs(args)
    ensures var o := StackArgs(args, i, env, m);
            match o
            case Means(vs, m1) => EvalStackArgs(LowerArgs(args, k).0, i, env, m) == Ok(vs, m1)
            case _ => true
    decreases args
  {
    match args {
      case Nil =>
      case Cons(head, tail) =>
        var k1 := Lower(head, k).1;
        StackArgsCorrect(tail, i + 1, k1, env, m);
        var o := StackArgs(tail, i + 1, env, m);
        if o.Means? && i >= REGISTER_ARGS { Correct(head, k, env, o.mem); }
    }
  }

  lemma {:induction false} RegisterArgsCorrect(args: List<Node>, i: nat, k: nat, env: Env, m: Mem)
    requires WellTypedArgs(args)
    ensures var o := RegisterArgs(args, i, env, m);
            match o
            case Means(vs, m1) => EvalRegisterArgs(LowerArgs(args, k).0, i, env, m) == Ok(vs, m1)
            case _ => true
    decreases args
  {
    match args {
      case Nil =>
      case Cons(head, tail) =>
        if i < REGISTER_ARGS {
          Correct(head, k, env, m);
          var o := Meaning(head, env, m);
          if o.Means? { RegisterArgsCorrect(tail, i + 1, Lower(head, k).1, env, o.mem); }
        }
    }
  }

  lemma {:induction false} ApplyCorrect(n: Node, k: nat, env: Env, m: Mem)
    requires n.Apply? && WellTyped(n)
    ensures Agrees(Meaning(n, env, m), Eval(Lower(n, k).0, env, m))
    ensures Typed(Meaning(n, env, m), TypeOfNode(n))
    decreases n, 0
  {
    hide StackArgs, RegisterArgs, EvalStackArgs, EvalRegisterArgs, Append, WellTypedArgs, Designated;
    var k1 := LowerFunction(n.target, k).1;
    StackArgsCorrect(n.args, 0, k1, env, m);
    var os := StackArgs(n.args, 0, env, m);
    if !os.Means? { return; }
    RegisterArgsCorrect(n.args, 0, k1, env, os.mem);
    var or := RegisterArgs(n.args, 0, env, os.mem);
    if !or.Means? { return; }
    if n.target.Through? { Correct(n.target.pointer, k, env, or.mem); }
    FunctionCorrect(n.target, k, env, or.mem);
  }

  lemma {:induction false} FunctionCorrect(f: Function, k: nat, env: Env, m: Mem)
    requires f.Through? ==> Agrees(Meaning(f.pointer, env, m), Eval(Lower(f.pointer, k).0, env, m))
    ensures var o := Designated(f, env, m); o.Means? ==> EvalTarget(LowerFunction(f, k).0, env, m) == Ok(o.value, o.mem)
  {
  }
}
