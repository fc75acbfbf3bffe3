// The encoder as it works: instructions are appended one by one, and a counter
// follows how many words the code written so far leaves on the stack.  What it
// writes for a tree is the code the Codegen functions give for it.
module Encoder {
  import opened Words
  import opened Lists
  import opened Ropes
  import opened Options
  import opened Ir
  import opened Machine
  import opened Flow
  import opened Codegen
  import opened GenFlat
  import F = FlatIr

  ghost predicate Wrote(before: seq<Instr>, after: seq<Instr>, r: Code) {
    after == before + Flat(r)
  }

  lemma {:induction false} WroteBoth(a: seq<Instr>, b: seq<Instr>, c: seq<Instr>, r: Code, s: Code)
    requires Wrote(a, b, r) && Wrote(b, c, s)
    ensures Wrote(a, c, Cat(r, s))
  {
  }

  lemma {:induction false} WroteOver(a: seq<Instr>, b: seq<Instr>, p: Code, q: Code, rest: Code)
    requires Wrote(a, b, Cat(Cat(p, q), rest))
    ensures Wrote(a, b, Cat(p, Cat(q, rest)))
  {
    assert Flat(Cat(Cat(p, q), rest)) == Flat(p) + (Flat(q) + Flat(rest));
  }

  lemma {:induction false} WroteNothing(a: seq<Instr>)
    ensures Wrote(a, a, Empty)
  {
  }

  lemma {:induction false} Nth(args: List<Expr>, i: nat)
    requires i < Len(args)
    ensures Drop(args, i).Cons? && Drop(args, i + 1) == Drop(args, i).tail
    ensures Len(Drop(args, i)) == Len(args) - i
    decreases i
  {
    if i > 0 { Nth(args.tail, i - 1); }
  }

  class Encoder {
    const env: Env
    var code: seq<Instr>
    var stackDepth: nat

    constructor (env: Env)
      ensures this.env == env && code == [] && stackDepth == 0
    {
      this.env := env;
      code, stackDepth := [], 0;
    }

    method Emit(i: Instr)
      modifies this`code
      ensures Wrote(old(code), code, One(i))
    {
      code := code + [i];
    }

    method EmitTwo(i: Instr, j: Instr)
      modifies this`code
      ensures Wrote(old(code), code, Two(i, j))
    {
      Emit(i);
      ghost var atSecond := code;
      Emit(j);
      WroteBoth(old(code), atSecond, code, One(i), One(j));
    }

    method EmitThree(i: Instr, j: Instr, k: Instr)
      modifies this`code
      ensures Wrote(old(code), code, Three(i, j, k))
    {
      Emit(i);
      ghost var atSecond := code;
      EmitTwo(j, k);
      WroteBoth(old(code), atSecond, code, One(i), Two(j, k));
    }

    // A push is counted.
    method EmitPush(reg: Reg)
      modifies this
      ensures Wrote(old(code), code, One(Push(reg))) && stackDepth == old(stackDepth) + 1
    {
      Emit(Push(reg));
      stackDepth := stackDepth + 1;
    }

    // A pop is discounted.
    method Discount()
      modifies this`stackDepth
      ensures stackDepth == if old(stackDepth) == 0 then 0 else old(stackDepth) - 1
    {
      if stackDepth != 0 { stackDepth := stackDepth - 1; }
    }

    method EmitNormalize(ty: Ty)
      modifies this`code
      ensures Wrote(old(code), code, Normalize(ty))
    {
      if ty.width != 8 { Emit(Extend(ty)); }
    }

    method EmitBinaryOpcode(op: Operator, signed: bool)
      modifies this`code
      ensures Wrote(old(code), code, OperatorCode(op, signed))
    {
      match op {
        case Add => Emit(AddRcx);
        case Sub => Emit(SubRcx);
        case Mul => Emit(ImulRcx);
        case Div => if signed { EmitTwo(Cqo, Idiv); } else { EmitTwo(ZeroEdx, Instr.Div); }
        case Mod => if signed { EmitThree(Cqo, Idiv, MovReg(RAX, RDX)); } else { EmitThree(ZeroEdx, Instr.Div, MovReg(RAX, RDX)); }
        case Shl => Emit(ShlCl);
        case Shr => if signed { Emit(SarCl); } else { Emit(ShrCl); }
        case BitwiseOp(bit) => Emit(BitRcx(bit));
      }
    }

    method EmitAddImm(step: int)
      modifies this`code
      ensures Wrote(old(code), code, AddImmediate(step))
    {
      if -0x8000_0000 <= step <= 0x7fff_ffff { Emit(AddImm(step)); } else { EmitTwo(MovImm64(RCX, step), AddRcx); }
    }

    // Operand, push, operand, move to RCX, pop.
    method EncodeOperands(e: Expr, a: Expr, b: Expr)
      requires a < e && b < e
      modifies this
      ensures Wrote(old(code), code, Cat(Cat(Gen(a, env, old(stackDepth)), One(Push(RAX))),
                                         Cat(Gen(b, env, old(stackDepth) + 1), TakeOperands())))
      ensures stackDepth == old(stackDepth)
      decreases e, 0
    {
      hide Wrote, Gen, Two;
      EncodeExpr(a);
      ghost var atKept := code;
      EmitPush(RAX);
      ghost var atNext := code;
      EncodeExpr(b);
      ghost var atMoved := code;
      EmitTwo(MovReg(RCX, RAX), Pop(RAX));
      Discount();
      var ca, cb := Gen(a, env, old(stackDepth)), Gen(b, env, old(stackDepth) + 1);
      WroteBoth(old(code), atKept, atNext, ca, One(Push(RAX)));
      WroteBoth(atNext, atMoved, code, cb, TakeOperands());
      WroteBoth(old(code), atNext, code, Cat(ca, One(Push(RAX))), Cat(cb, TakeOperands()));
    }

    method EncodeExpr(e: Expr)
      modifies this
      ensures Wrote(old(code), code, Gen(e, env, old(stackDepth))) && stackDepth == old(stackDepth)
      decreases e, 4
    {
      match e {
        case Const(ty, imm) =>
          if (ty.width < 8 && ty.signed) || ty.width == 8 { Emit(MovImm64(RAX, imm)); } else { Emit(MovImm32(RAX, imm)); }
        case LoadSym(ty, sym) => if sym in env.locals { Emit(LoadLocal(ty, sym)); } else { Emit(LoadGlobal(ty, sym)); }
        case AddrSym(sym) => if sym in env.locals { Emit(LeaLocal(sym)); } else { Emit(LeaGlobal(sym)); }
        case AddrOf(place) => EncodeExpr(place);
        case Load(_, _) => EncodeUnary(e);
        case Member(_, _) => EncodeUnary(e);
        case Unary(_, _, _) => EncodeUnary(e);
        case LogicalNot(_) => EncodeUnary(e);
        case Cast(_, _) => EncodeUnary(e);
        case Store(_, _, _) => EncodeBinary(e);
        case Binary(_, _, _, _) => EncodeBinary(e);
        case Compare(_, _, _) => EncodeBinary(e);
        case Comma(_, _) => EncodeComma(e);
        case Logical(_, _, _, _, _, _) => EncodeLogical(e);
        case Conditional(_, _, _, _, _, _, _) => EncodeConditional(e);
        case Compound(_, _, _, _) => EncodeCompound(e);
        case Increment(_, _, _, _) => EncodeIncrement(e);
        case Call(_, _, _) => EncodeCall(e);
      }
    }

    method EncodeUnary(e: Expr)
      requires e.Load? || e.Member? || e.Unary? || e.LogicalNot? || e.Cast?
      modifies this
      ensures Wrote(old(code), code, Gen(e, env, old(stackDepth))) && stackDepth == old(stackDepth)
      decreases e, 1
    {
      var a := if e.Load? then e.addr else if e.Member? then e.base else e.a;
      EncodeExpr(a);
      ghost var atOperand := code;
      ghost var ca := Gen(a, env, old(stackDepth));
      match e {
        case Load(ty, _) =>
          Emit(LoadRax(ty));
          WroteBoth(old(code), atOperand, code, ca, One(LoadRax(ty)));
        case Member(_, offset) =>
          if offset != 0 {
            if 0 <= offset <= 0x7fff_ffff { Emit(AddImm(offset)); } else { Emit(MovImm64(RAX, Wrap(INT, offset))); }
          }
          ghost var rest := if offset == 0 then Empty
                            else One(if 0 <= offset <= 0x7fff_ffff then AddImm(offset) else MovImm64(RAX, Wrap(INT, offset)));
          WroteBoth(old(code), atOperand, code, ca, rest);
        case Unary(ty, uop, _) =>
          var i := if uop == Neg then NegRax else NotRax;
          Emit(i);
          ghost var atDone := code;
          EmitNormalize(ty);
          WroteBoth(atOperand, atDone, code, One(i), Normalize(ty));
          WroteBoth(old(code), atOperand, code, ca, Cat(One(i), Normalize(ty)));
        case LogicalNot(_) =>
          EmitThree(TestRax, SetCond(4), MovzxAl);
          WroteBoth(old(code), atOperand, code, ca, SetTruth(4));
        case Cast(ty, _) =>
          EmitNormalize(ty);
          WroteBoth(old(code), atOperand, code, ca, Normalize(ty));
      }
    }

    method EncodeBinary(e: Expr)
      requires e.Store? || e.Binary? || e.Compare?
      modifies this
      ensures Wrote(old(code), code, Gen(e, env, old(stackDepth))) && stackDepth == old(stackDepth)
      decreases e, 1
    {
      hide Wrote, Two, Three, TakeOperands;
      var a, b := if e.Store? then e.addr else e.a, if e.Store? then e.value else e.b;
      EncodeOperands(e, a, b);
      ghost var atTaken := code;
      ghost var rest;
      match e {
        case Store(ty, _, _) =>
          EmitTwo(StoreReg(ty.width, RCX, RAX), MovReg(RAX, RCX));
          rest := Two(StoreReg(ty.width, RCX, RAX), MovReg(RAX, RCX));
        case Binary(ty, op, _, _) =>
          EmitBinaryOpcode(op, ty.signed);
          ghost var atDone := code;
          EmitNormalize(ty);
          WroteBoth(atTaken, atDone, code, OperatorCode(op, ty.signed), Normalize(ty));
          rest := Cat(OperatorCode(op, ty.signed), Normalize(ty));
        case Compare(cmp, a, _) =>
          var cond := ConditionCode(cmp, TypeOf(a).signed);
          EmitThree(CmpRcx, SetCond(cond), MovzxAl);
          rest := Three(CmpRcx, SetCond(cond), MovzxAl);
      }
      ghost var first := Cat(Gen(a, env, old(stackDepth)), One(Push(RAX)));
      ghost var second := Cat(Gen(b, env, old(stackDepth) + 1), TakeOperands());
      WroteBoth(old(code), atTaken, code, Cat(first, second), rest);
      WroteOver(old(code), code, first, second, rest);
    }

    method EncodeComma(e: Expr)
      requires e.Comma?
      modifies this
      ensures Wrote(old(code), code, Gen(e, env, old(stackDepth))) && stackDepth == old(stackDepth)
      decreases e, 1
    {
      EncodeExpr(e.a);
      ghost var atSecond := code;
      EncodeExpr(e.b);
      WroteBoth(old(code), atSecond, code, Gen(e.a, env, old(stackDepth)), Gen(e.b, env, old(stackDepth)));
    }

    method EncodeLogical(e: Expr)
      requires e.Logical?
      modifies this
      ensures Wrote(old(code), code, Gen(e, env, old(stackDepth))) && stackDepth == old(stackDepth)
      decreases e, 1
    {
      hide Wrote, Two, Three, SetTruth;
      var skip := if e.isAnd then e.falseLabel else e.trueLabel;
      EncodeExpr(e.a);
      ghost var atTested := code;
      var cond: Condition := if e.isAnd then 4 else 5;
      EmitTwo(TestRax, Jcc(cond, skip));
      ghost var atSecond := code;
      EncodeExpr(e.b);
      ghost var atValued := code;
      EmitThree(TestRax, SetCond(5), MovzxAl);
      ghost var atJumping := code;
      Emit(Jmp(e.endLabel));
      ghost var atEnding := code;
      var last := if e.isAnd then ZeroEax else MovImm32(RAX, 1);
      EmitThree(Lab(skip), last, Lab(e.endLabel));
      ghost var ca, cb := Gen(e.a, env, old(stackDepth)), Gen(e.b, env, old(stackDepth));
      ghost var finish := Three(Lab(skip), last, Lab(e.endLabel));
      WroteBoth(old(code), atTested, atSecond, ca, Two(TestRax, Jcc(cond, skip)));
      TruthIs(5);
      WroteBoth(atValued, atJumping, atEnding, SetTruth(5), One(Jmp(e.endLabel)));
      WroteBoth(atSecond, atValued, atEnding, cb, Cat(SetTruth(5), One(Jmp(e.endLabel))));
      WroteBoth(atSecond, atEnding, code, Cat(cb, Cat(SetTruth(5), One(Jmp(e.endLabel)))), finish);
      WroteBoth(old(code), atSecond, code, Cat(ca, Two(TestRax, Jcc(cond, skip))),
                Cat(Cat(cb, Cat(SetTruth(5), One(Jmp(e.endLabel)))), finish));
    }

    method EncodeConditional(e: Expr)
      requires e.Conditional?
      modifies this
      ensures Wrote(old(code), code, Gen(e, env, old(stackDepth))) && stackDepth == old(stackDepth)
      decreases e, 1
    {
      hide Wrote, Two;
      EncodeExpr(e.a);
      ghost var atTested := code;
      EmitTwo(TestRax, Jcc(4, e.falseLabel));
      ghost var atSecond := code;
      EncodeExpr(e.b);
      ghost var atJumping := code;
      Emit(Jmp(e.endLabel));
      ghost var atOtherwise := code;
      Emit(Lab(e.falseLabel));
      ghost var atThird := code;
      EncodeExpr(e.c);
      ghost var atEnding := code;
      Emit(Lab(e.endLabel));
      ghost var d := old(stackDepth);
      ghost var ca, cb, cc := Gen(e.a, env, d), Gen(e.b, env, d), Gen(e.c, env, d);
      ghost var last := Cat(cc, One(Lab(e.endLabel)));
      ghost var finish := Cat(One(Lab(e.falseLabel)), last);
      WroteBoth(old(code), atTested, atSecond, ca, Two(TestRax, Jcc(4, e.falseLabel)));
      WroteBoth(atSecond, atJumping, atOtherwise, cb, One(Jmp(e.endLabel)));
      WroteBoth(atThird, atEnding, code, cc, One(Lab(e.endLabel)));
      WroteBoth(atOtherwise, atThird, code, One(Lab(e.falseLabel)), last);
      WroteBoth(atSecond, atOtherwise, code, Cat(cb, One(Jmp(e.endLabel))), finish);
      WroteBoth(old(code), atSecond, code, Cat(ca, Two(TestRax, Jcc(4, e.falseLabel))),
                Cat(Cat(cb, One(Jmp(e.endLabel))), finish));
    }

    method EncodeCompound(e: Expr)
      requires e.Compound?
      modifies this
      ensures Wrote(old(code), code, Gen(e, env, old(stackDepth))) && stackDepth == old(stackDepth)
      decreases e, 1
    {
      hide Wrote, Two, Three, OperatorCode, Normalize;
      ghost var d, ty := old(stackDepth), e.ty;
      EncodeExpr(e.addr);
      ghost var atFetching := code;
      Emit(Push(RAX));
      stackDepth := stackDepth + 1;
      ghost var atLoading := code;
      EmitTwo(LoadRax(e.ty), Push(RAX));
      stackDepth := stackDepth + 1;
      ghost var atSecond := code;
      EncodeExpr(e.value);
      ghost var atTaking := code;
      EmitTwo(MovReg(RCX, RAX), Pop(RAX));
      Discount();
      ghost var atOperating := code;
      EmitBinaryOpcode(e.op, e.ty.signed);
      ghost var atNormal := code;
      EmitNormalize(e.ty);
      ghost var atWriting := code;
      EmitTwo(Pop(R11), StoreReg(e.ty.width, RAX, R11));
      Discount();
      ghost var ca, cb := Gen(e.addr, env, d), Gen(e.value, env, d + 2);
      ghost var fetch := Three(Push(RAX), LoadRax(ty), Push(RAX));
      ghost var operate := Cat(OperatorCode(e.op, ty.signed), Normalize(ty));
      WroteBoth(atFetching, atLoading, atSecond, One(Push(RAX)), Two(LoadRax(ty), Push(RAX)));
      ThreeIs(Push(RAX), LoadRax(ty), Push(RAX));
      WroteBoth(old(code), atFetching, atSecond, ca, fetch);
      WroteBoth(atSecond, atTaking, atOperating, cb, TakeOperands());
      WroteBoth(atOperating, atNormal, atWriting, OperatorCode(e.op, ty.signed), Normalize(ty));
      WroteBoth(atOperating, atWriting, code, operate, WriteBack(ty));
      WroteBoth(atSecond, atOperating, code, Cat(cb, TakeOperands()), Cat(operate, WriteBack(ty)));
      WroteBoth(old(code), atSecond, code, Cat(ca, fetch), Cat(Cat(cb, TakeOperands()), Cat(operate, WriteBack(ty))));
    }

    method EncodeIncrement(e: Expr)
      requires e.Increment?
      modifies this
      ensures Wrote(old(code), code, Gen(e, env, old(stackDepth))) && stackDepth == old(stackDepth)
      decreases e, 1
    {
      hide Wrote, Two, Three, Normalize, AddImmediate;
      ghost var ty := e.ty;
      EncodeExpr(e.addr);
      ghost var atFetching := code;
      Emit(Push(RAX));
      stackDepth := stackDepth + 1;
      ghost var atLoading := code;
      EmitTwo(LoadRax(e.ty), MovReg(R10, RAX));
      ghost var atAdding := code;
      EmitAddImm(e.step);
      ghost var atNormal := code;
      EmitNormalize(e.ty);
      ghost var atWriting := code;
      EmitTwo(Pop(R11), StoreReg(e.ty.width, RAX, R11));
      Discount();
      ghost var atLast := code;
      if e.post { Emit(MovReg(RAX, R10)); } else { WroteNothing(code); }
      ghost var ca, kept := Gen(e.addr, env, old(stackDepth)), if e.post then One(MovReg(RAX, R10)) else Empty;
      ghost var fetch, add := Three(Push(RAX), LoadRax(ty), MovReg(R10, RAX)), Cat(AddImmediate(e.step), Normalize(ty));
      WroteBoth(atFetching, atLoading, atAdding, One(Push(RAX)), Two(LoadRax(ty), MovReg(R10, RAX)));
      ThreeIs(Push(RAX), LoadRax(ty), MovReg(R10, RAX));
      WroteBoth(old(code), atFetching, atAdding, ca, fetch);
      WroteBoth(atAdding, atNormal, atWriting, AddImmediate(e.step), Normalize(ty));
      WroteBoth(atWriting, atLast, code, WriteBack(ty), kept);
      WroteBoth(atAdding, atWriting, code, add, Cat(WriteBack(ty), kept));
      WroteBoth(old(code), atAdding, code, Cat(ca, fetch), Cat(add, Cat(WriteBack(ty), kept)));
    }

    method EncodeCall(e: Expr)
      requires e.Call?
      modifies this
      ensures Wrote(old(code), code, Gen(e, env, old(stackDepth))) && stackDepth == old(stackDepth)
      decreases e, 3
    {
      hide Wrote, GenStackArgs, GenRegisterArgs, PopArguments, Gen, Normalize, Two;
      var padding := Padding(e.args, stackDepth);
      if padding != 0 {
        Emit(SubRsp8);
        stackDepth := stackDepth + 1;
      } else {
        WroteNothing(code);
      }
      ghost var atPlacing := code;
      ghost var base := stackDepth;
      EncodeStackArgs(e, e.args);
      ghost var atRegisters := code;
      EncodeRegisterArgs(e, e.args);
      ghost var atTargeting := code;
      EncodeTarget(e, e.callee);
      ghost var atTail := code;
      EncodeCallTail(e.ty, e.callee, e.args, padding);
      ghost var cs, cr := GenStackArgs(e.args, env, 0, base), GenRegisterArgs(e.args, env, 0, base + StackUnits(e.args));
      ghost var ct, tail := GenTarget(e.callee, env, base + Len(e.args)), CallTail(e.ty, e.callee, e.args, padding);
      WroteBoth(atPlacing, atRegisters, atTargeting, cs, cr);
      WroteBoth(atTargeting, atTail, code, ct, tail);
      WroteBoth(atPlacing, atTargeting, code, Cat(cs, cr), Cat(ct, tail));
      WroteBoth(old(code), atPlacing, code, Pad(padding), Cat(Cat(cs, cr), Cat(ct, tail)));
      CallIs(e, env, old(stackDepth));
    }

    // Last to first.
    method EncodeStackArgs(e: Expr, args: List<Expr>)
      requires args < e
      modifies this
      ensures Wrote(old(code), code, GenStackArgs(args, env, 0, old(stackDepth)))
      ensures stackDepth == old(stackDepth) + StackUnits(args)
      decreases e, 2
    {
      hide Wrote, Gen;
      var index: nat := Len(args);
      ghost var base := stackDepth;
      DropAll(args);
      WroteNothing(code);
      while index > 0
        invariant 0 <= index <= Len(args)
        invariant Wrote(old(code), code, GenStackArgs(Drop(args, index), env, index, base))
        invariant stackDepth == base + if index >= REGISTER_ARGS then Len(args) - index else StackUnits(args)
      {
        index := index - 1;
        Nth(args, index);
        var arg := Drop(args, index).head;
        ghost var rest, before := GenStackArgs(Drop(args, index + 1), env, index + 1, base), code;
        if index >= REGISTER_ARGS {
          PartSmaller(e, args, index);
          EncodeExpr(arg);
          ghost var evaluated := code;
          ghost var ca := Gen(arg, env, base + Len(Drop(args, index + 1)));
          Nth2(args, index);
          EmitPush(RAX);
          WroteBoth(before, evaluated, code, ca, One(Push(RAX)));
          WroteBoth(old(code), before, code, rest, Cat(ca, One(Push(RAX))));
        } else {
          WroteNothing(code);
          WroteBoth(old(code), before, code, rest, Empty);
        }
      }
    }

    // First to last.
    method EncodeRegisterArgs(e: Expr, args: List<Expr>)
      requires args < e
      modifies this
      ensures Wrote(old(code), code, GenRegisterArgs(args, env, 0, old(stackDepth)))
      ensures stackDepth == old(stackDepth) + RegisterCount(args)
      decreases e, 2
    {
      hide Wrote, Gen;
      var index, count := 0, Len(args);
      ghost var base := stackDepth;
      ghost var written := Empty;
      WroteNothing(code);
      while index < count
        invariant index <= count == Len(args)
        invariant Wrote(old(code), code, written)
        invariant Flat(GenRegisterArgs(args, env, 0, base))
               == Flat(written) + Flat(GenRegisterArgs(Drop(args, index), env, index, base + Least(index)))
        invariant stackDepth == base + Least(index)
      {
        Nth(args, index);
        var arg := Drop(args, index).head;
        if index < REGISTER_ARGS {
          ghost var before := code;
          PartSmaller(e, args, index);
          EncodeExpr(arg);
          ghost var evaluated := code;
          EmitPush(RAX);
          ghost var ca := Gen(arg, env, base + index);
          WroteBoth(before, evaluated, code, ca, One(Push(RAX)));
          WroteBoth(old(code), before, code, written, Cat(ca, One(Push(RAX))));
          FlatMoves(written, Cat(ca, One(Push(RAX))), GenRegisterArgs(Drop(args, index + 1), env, index + 1, base + index + 1));
          written := Cat(written, Cat(ca, One(Push(RAX))));
        }
        index := index + 1;
      }
      DropAll(args);
      SameFlat(old(code), code, written, GenRegisterArgs(args, env, 0, base));
    }

    method EncodeTarget(e: Expr, callee: Callee)
      requires callee < e
      modifies this
      ensures Wrote(old(code), code, GenTarget(callee, env, old(stackDepth))) && stackDepth == old(stackDepth)
      decreases e, 2
    {
      hide Wrote, Gen, Two;
      match callee {
        case Direct(_, _) => WroteNothing(code);
        case Indirect(target) =>
          EncodeExpr(target);
          ghost var atMoving := code;
          EmitTwo(Push(RAX), Pop(R11));
          stackDepth := stackDepth + 1;
          Discount();
          WroteBoth(old(code), atMoving, code, Gen(target, env, old(stackDepth)), Two(Push(RAX), Pop(R11)));
      }
    }

    method EncodeCallTail(ty: Ty, callee: Callee, args: List<Expr>, padding: nat)
      requires stackDepth >= Len(args) + padding && padding <= 1
      modifies this
      ensures Wrote(old(code), code, CallTail(ty, callee, args, padding))
      ensures stackDepth == old(stackDepth) - Len(args) - padding
    {
      hide Wrote, PopArguments, Normalize;
      EncodePops(RegisterCount(args));
      ghost var atCounting := code;
      if callee.Direct? && callee.variadic { Emit(ZeroEax); } else { WroteNothing(code); }
      ghost var atCalling := code;
      if callee.Direct? { Emit(CallSymbol(callee.sym)); } else { Emit(CallR11); }
      ghost var atReleasing := code;
      var units := StackUnits(args);
      if units != 0 {
        Emit(AddRsp(8 * units));
        stackDepth := stackDepth - units;
      } else {
        WroteNothing(code);
      }
      ghost var atUnpadding := code;
      if padding != 0 {
        Emit(AddRsp(8));
        Discount();
      } else {
        WroteNothing(code);
      }
      ghost var atNormal := code;
      EmitNormalize(ty);
      WroteBoth(atUnpadding, atNormal, code, Release(padding), Normalize(ty));
      WroteBoth(atReleasing, atUnpadding, code, Release(units), Cat(Release(padding), Normalize(ty)));
      WroteBoth(atCalling, atReleasing, code, One(CallInstr(callee)), Cleanup(ty, args, padding));
      WroteBoth(atCounting, atCalling, code, VectorCount(callee), Cat(One(CallInstr(callee)), Cleanup(ty, args, padding)));
      WroteBoth(old(code), atCounting, code, PopArguments(0, RegisterCount(args)),
                Cat(VectorCount(callee), Cat(One(CallInstr(callee)), Cleanup(ty, args, padding))));
    }

    // Load-back, last register argument first.
    method EncodePops(count: nat)
      requires count <= REGISTER_ARGS && stackDepth >= count
      modifies this
      ensures Wrote(old(code), code, PopArguments(0, count)) && stackDepth == old(stackDepth) - count
    {
      hide Wrote;
      var index: nat := count;
      WroteNothing(code);
      while index > 0
        invariant 0 <= index <= count
        invariant Wrote(old(code), code, PopArguments(index, count))
        invariant stackDepth == old(stackDepth) - (count - index)
      {
        index := index - 1;
        ghost var before := code;
        Emit(Pop(ArgumentRegister(index)));
        Discount();
        WroteBoth(old(code), before, code, PopArguments(index + 1, count), One(Pop(ArgumentRegister(index))));
      }
    }

    method EncodeSwitch(cond: Expr, table: List<F.CaseTarget>, default: Label)
      modifies this
      ensures Wrote(old(code), code, Cat(Gen(cond, env, old(stackDepth)), Cat(Reextend(TypeOf(cond)), TableCode(table, default))))
      ensures stackDepth == old(stackDepth)
    {
      hide Wrote, Gen, Three;
      EncodeExpr(cond);
      ghost var atExtend := code;
      if TypeOf(cond).width == 4 { Emit(Extend(TypeOf(cond))); } else { WroteNothing(code); }
      ghost var atTable := code;
      var item := table;
      ghost var written := Empty;
      WroteNothing(code);
      while item.Cons?
        invariant Wrote(atTable, code, written)
        invariant Flat(TableCode(table, default)) == Flat(written) + Flat(TableCode(item, default))
        invariant stackDepth == old(stackDepth)
        decreases item
      {
        ghost var before := code;
        EmitThree(MovImm64(RCX, item.head.value), CmpRcx, Jcc(4, item.head.goal));
        WroteBoth(atTable, before, code, written, CaseCode(item.head));
        FlatMoves(written, CaseCode(item.head), TableCode(item.tail, default));
        written := Cat(written, CaseCode(item.head));
        item := item.tail;
      }
      ghost var before := code;
      Emit(Jmp(default));
      WroteBoth(atTable, before, code, written, One(Jmp(default)));
      SameCode(atTable, code, Cat(written, One(Jmp(default))), TableCode(table, default));
      WroteBoth(atExtend, atTable, code, Reextend(TypeOf(cond)), TableCode(table, default));
      WroteBoth(old(code), atExtend, code, Gen(cond, env, old(stackDepth)), Cat(Reextend(TypeOf(cond)), TableCode(table, default)));
    }

    method EncodeReturn(value: Option<Expr>, ty: Ty)
      requires stackDepth == 0
      modifies this
      ensures Wrote(old(code), code, InstCode(F.Return(value, ty), env)) && stackDepth == 0
    {
      hide Wrote, Gen, Normalize, Two;
      if value.Some? {
        EncodeExpr(value.value);
        ghost var atNormal := code;
        EmitNormalize(ty);
        ghost var atEnd := code;
        EmitTwo(Leave, Ret);
        WroteBoth(atNormal, atEnd, code, Normalize(ty), Epilogue());
        WroteBoth(old(code), atNormal, code, Gen(value.value, env, 0), Cat(Normalize(ty), Epilogue()));
      } else {
        EmitTwo(Leave, Ret);
      }
    }

    method EncodeStatement(i: F.Inst)
      requires stackDepth == 0
      modifies this
      ensures Wrote(old(code), code, InstCode(i, env)) && stackDepth == 0
    {
      hide Wrote, Gen, Two, Normalize, TableCode, Reextend;
      match i {
        case Evaluate(e) => EncodeExpr(e);
        case Mark(l) => Emit(Lab(l));
        case Goto(l) => Emit(Jmp(l));
        case Branch(cond, otherwise) =>
          EncodeExpr(cond);
          ghost var atTest := code;
          EmitTwo(TestRax, Jcc(4, otherwise));
          WroteBoth(old(code), atTest, code, Gen(cond, env, 0), Two(TestRax, Jcc(4, otherwise)));
        case Dispatch(cond, table, default) => EncodeSwitch(cond, table, default);
        case Return(value, ty) => EncodeReturn(value, ty);
      }
    }

    // One instruction after the other, then the epilogue control falls into.
    method EncodeFunction(body: seq<F.Inst>)
      modifies this
      ensures code == CodeOf(body, env) + Flat(Epilogue()) && stackDepth == 0
    {
      code, stackDepth := [], 0;
      var i := 0;
      assert body[..0] == [];
      while i < |body|
        invariant 0 <= i <= |body| && stackDepth == 0
        invariant code == CodeOf(body[..i], env)
      {
        EncodeStatement(body[i]);
        assert body[..i + 1][..i] == body[..i];
        i := i + 1;
      }
      assert body[..i] == body;
      EmitTwo(Leave, Ret);
    }
  }

  function CodeOf(body: seq<F.Inst>, env: Env): seq<Instr> {
    if body == [] then [] else CodeOf(body[..|body| - 1], env) + Flat(InstCode(body[|body| - 1], env))
  }

  lemma {:induction false} CodeOfBoth(a: seq<F.Inst>, b: seq<F.Inst>, env: Env)
    ensures CodeOf(a + b, env) == CodeOf(a, env) + CodeOf(b, env)
    decreases |b|
  {
    if b == [] {
      assert a + b == a;
    } else {
      CodeOfBoth(a, b[..|b| - 1], env);
      assert (a + b)[..|a + b| - 1] == a + b[..|b| - 1];
    }
  }

  // What the encoder leaves for a lowered list is the code of that list.
  lemma {:induction false} CodeOfList(r: Rope<F.Inst>, env: Env)
    ensures CodeOf(Flat(r), env) == Flat(ListCode(r, env))
  {
    match r {
      case Empty =>
      case One(i) => assert CodeOf([i][..0], env) == [];
      case Cat(a, b) =>
        CodeOfList(a, env);
        CodeOfList(b, env);
        CodeOfBoth(Flat(a), Flat(b), env);
    }
  }

  lemma {:induction false} SameCode(before: seq<Instr>, after: seq<Instr>, r: Code, s: Code)
    requires Wrote(before, after, r) && Flat(s) == Flat(r)
    ensures Wrote(before, after, s)
  {
  }

  function Least(i: nat): nat { if i < REGISTER_ARGS then i else REGISTER_ARGS }

  lemma {:induction false} TruthIs(cond: Condition)
    ensures SetTruth(cond) == Three(TestRax, SetCond(cond), MovzxAl)
  {
  }

  lemma {:induction false} ThreeIs(i: Instr, j: Instr, k: Instr)
    ensures Three(i, j, k) == Cat(One(i), Two(j, k))
  {
  }

  lemma {:induction false} DropAll(args: List<Expr>)
    ensures Drop(args, Len(args)) == Nil && Drop(args, 0) == args
  {
    if args.Cons? { DropAll(args.tail); }
  }

  lemma {:induction false} Nth2(args: List<Expr>, i: nat)
    requires i < Len(args)
    ensures Len(Drop(args, i + 1)) == Len(args) - i - 1
    decreases i
  {
    if i > 0 { Nth2(args.tail, i - 1); }
  }

  lemma {:induction false} PartSmaller(e: Expr, args: List<Expr>, i: nat)
    requires args < e && i < Len(args) && Drop(args, i).Cons?
    ensures Drop(args, i).head < e
    decreases i
  {
    if i > 0 { PartSmaller(e, args.tail, i - 1); }
  }

  lemma {:induction false} FlatMoves(a: Code, b: Code, c: Code)
    ensures Flat(a) + Flat(Cat(b, c)) == Flat(Cat(a, b)) + Flat(c)
  {
  }

  lemma {:induction false} SameFlat(before: seq<Instr>, after: seq<Instr>, r: Code, s: Code)
    requires Wrote(before, after, r) && Flat(s) == Flat(r) + Flat(Empty)
    ensures Wrote(before, after, s)
  {
  }

  lemma {:induction false} CallIs(e: Expr, env: Env, depth: nat)
    requires e.Call?
    ensures var padding := Padding(e.args, depth);
            var base := depth + padding;
            Gen(e, env, depth)
            == Cat(Pad(padding),
                   Cat(Cat(GenStackArgs(e.args, env, 0, base), GenRegisterArgs(e.args, env, 0, base + StackUnits(e.args))),
                       Cat(GenTarget(e.callee, env, base + Len(e.args)), CallTail(e.ty, e.callee, e.args, padding))))
  {
  }
}
