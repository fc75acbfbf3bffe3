// Expression trees in the intermediate form.  A lowering takes the last label
// handed out and gives the last one back.
module LowerNode {
  import opened Words
  import opened Lists
  import opened Options
  import opened Ir
  import opened Ast

  function Scaled(index: Expr, size: nat): Expr {
    Binary(LONG, Mul, index, Const(LONG, size))
  }

  function Lower(n: Node, k: nat): (r: (Expr, nat)) {
    match n
    case Number(ty, value) => (Const(ty, U64(value)), k)
    case Name(ty, sym) => (LoadSym(ty, sym), k)
    case Read(ty, place) =>
      var (p, k1) := LowerPlace(place, k);
      (Load(ty, p), k1)
    case AddressOf(place) =>
      var (p, k1) := LowerPlace(place, k);
      (AddrOf(p), k1)
    case Decay(place) =>
      var (p, k1) := LowerPlace(place, k);
      (Cast(ADDRESS, p), k1)
    case Assign(ty, place, right) =>
      var (p, k1) := LowerPlace(place, k);
      var (v, k2) := Lower(right, k1);
      (Store(ty, p, v), k2)
    case Update(ty, op, _, place, right) =>
      var (p, k1) := LowerPlace(place, k);
      var (v, k2) := Lower(right, k1);
      (Compound(ty, op, p, v), k2)
    case UpdatePointer(op, size, place, right) =>
      var (p, k1) := LowerPlace(place, k);
      var (v, k2) := Lower(right, k1);
      (Compound(ADDRESS, op, p, Scaled(v, size)), k2)
    case Arith(ty, op, a, b) =>
      var (x, k1) := Lower(a, k);
      var (y, k2) := Lower(b, k1);
      (Binary(ty, op, x, y), k2)
    case Advance(op, pointer, index, size) =>
      var (x, k1) := Lower(pointer, k);
      var (y, k2) := Lower(index, k1);
      (Binary(ADDRESS, op, x, Scaled(y, size)), k2)
    case Distance(a, b, size) =>
      var (x, k1) := Lower(a, k);
      var (y, k2) := Lower(b, k1);
      (Binary(LONG, Div, Binary(LONG, Sub, x, y), Const(LONG, size)), k2)
    case Test(cmp, a, b) =>
      var (x, k1) := Lower(a, k);
      var (y, k2) := Lower(b, k1);
      (Compare(cmp, x, y), k2)
    case AndOr(isAnd, a, b) =>
      var (x, k1) := Lower(a, k);
      var (y, k2) := Lower(b, k1);
      (Logical(isAnd, x, y, k2 + 1, k2 + 2, k2 + 3), k2 + 3)
    case Sign(ty, _, a) =>
      var (x, k1) := Lower(a, k);
      (Unary(ty, Neg, x), k1)
    case Complement(ty, a) =>
      var (x, k1) := Lower(a, k);
      (Unary(ty, BitNot, x), k1)
    case Not(a) =>
      var (x, k1) := Lower(a, k);
      (LogicalNot(x), k1)
    case StepBy(ty, down, post, size, place) =>
      var (p, k1) := LowerPlace(place, k);
      (Increment(ty, Step(down, size), post, p), k1)
    case Choose(ty, a, b, c) =>
      var (x, k1) := Lower(a, k + 3);
      var (y, k2) := Lower(b, k1);
      var (z, k3) := Lower(c, k2);
      (Conditional(ty, x, y, z, k + 1, k + 2, k + 3), k3)
    case Sequence(a, b) =>
      var (x, k1) := Lower(a, k);
      var (y, k2) := Lower(b, k1);
      (Comma(x, y), k2)
    case Convert(ty, a) =>
      var (x, k1) := Lower(a, k);
      (Cast(ty, x), k1)
    case Apply(ty, target, args) =>
      var (f, k1) := LowerFunction(target, k);
      var (es, k2) := LowerArgs(args, k1);
      (Call(ty, f, es), k2)
  }

  function LowerPlace(p: Place, k: nat): (r: (Expr, nat)) {
    match p
    case Variable(sym) => (AddrSym(sym), k)
    case Pointee(pointer) => Lower(pointer, k)
    case Indexed(pointer, index, size) =>
      var (b, k1) := Lower(pointer, k);
      var (i, k2) := Lower(index, k1);
      (Binary(LONG, Add, b, Scaled(i, size)), k2)
    case Element(whole, index, size) =>
      var (b, k1) := LowerPlace(whole, k);
      var (i, k2) := Lower(index, k1);
      (Binary(LONG, Add, b, Scaled(i, size)), k2)
    case Field(record, offset) =>
      var (b, k1) := LowerPlace(record, k);
      (Member(b, offset), k1)
    case Arrow(pointer, offset) =>
      var (b, k1) := Lower(pointer, k);
      (Member(b, offset), k1)
  }

  function LowerFunction(f: Function, k: nat): (r: (Callee, nat)) {
    match f
    case Named(sym, variadic) => (Direct(sym, variadic), k)
    case Through(pointer) =>
      var (x, k1) := Lower(pointer, k);
      (Indirect(x), k1)
  }

  function LowerArgs(args: List<Node>, k: nat): (r: (List<Expr>, nat)) {
    match args
    case Nil => (Nil, k)
    case Cons(head, tail) =>
      var (x, k1) := Lower(head, k);
      var (xs, k2) := LowerArgs(tail, k1);
      (Cons(x, xs), k2)
  }

  // What the intermediate tree may differ in: the register image of the value
  // is what C says whenever C says something.
  ghost predicate Agrees(o: Meant<int>, o': Outcome<int>) {
    o.Means? ==> o'.Ok? && U64(o'.value) == U64(o.value) && o'.mem == o.mem
  }

  // The same for an expression whose value nobody looks at.
  ghost predicate AgreesInMemory(o: Meant<int>, o': Outcome<int>) { o.Means? ==> o'.Ok? && o'.mem == o.mem }

  ghost predicate Typed(o: Meant<int>, ty: Ty) { o.Means? ==> InRange(ty, o.value) }

  lemma {:induction false} LoweredType(n: Node, k: nat)
    ensures TypeOf(Lower(n, k).0) == TypeOfNode(n)
  {
    hide Scaled;
    if n.Sequence? { LoweredType(n.b, Lower(n.a, k).1); }
  }

  // Operators see only register images.
  lemma {:induction false} SameImage(x: int, y: int)
    requires U64(x) == U64(y)
    ensures S64(x) == S64(y)
  {
    WrapCongruent(LONG, x, y);
  }

  lemma {:induction false} ValueFromImage(ty: Ty, v: int)
    requires InRange(ty, v)
    ensures ty.signed ==> S64(v) == v
    ensures !ty.signed ==> U64(v) == v
    ensures v == 0 <==> U64(v) == 0
  {
    if ty.signed { WrapInRange(LONG, v); }
  }

  lemma {:induction false} OperateOnImages(ty: Ty, op: Operator, x: int, y: int, x': int, y': int)
    requires U64(x) == U64(x') && U64(y) == U64(y')
    ensures Operate(ty, op, x, y) == Operate(ty, op, x', y')
  {
    SameImage(x, x');
    SameImage(y, y');
    match op {
      case Add => U64Add(x, y); U64Add(x', y'); WrapCongruent(ty, x + y, x' + y');
      case Sub => U64Sub(x, y); U64Sub(x', y'); WrapCongruent(ty, x - y, x' - y');
      case Mul => U64Mul(x, y); U64Mul(x', y'); WrapCongruent(ty, x * y, x' * y');
      case Shl =>
        var p := Pow2(U64(y) % 64);
        U64MulLeft(x, p);
        U64MulLeft(x', p);
        WrapCongruent(ty, x * p, x' * p);
      case _ =>
    }
  }

  lemma {:induction false} NaturalDivision(x: nat, y: nat)
    requires y > 0
    ensures TruncDiv(x, y) == x / y && TruncMod(x, y) == x % y
  {
    assert x == y * (x / y) + x % y;
  }

  // Only the one overflowing quotient makes the instruction fault.
  lemma {:induction false} DivisionDoes(ty: Ty, x: int, y: int)
    requires InRange(ty, x) && InRange(ty, y) && y != 0 && Fits(ty, TruncDiv(x, y)).Some?
    ensures Divisible(ty.signed, x, y)
    ensures Quotient(ty.signed, x, y) == TruncDiv(x, y)
    ensures Remainder(ty.signed, x, y) == TruncMod(x, y)
  {
    ValueFromImage(ty, x);
    ValueFromImage(ty, y);
    if ty.signed {
      if x == MIN64 && y == -1 { OverflowingQuotient(); }
    } else {
      NaturalDivision(x, y);
    }
  }

  lemma {:induction false} OverflowingQuotient()
    ensures TruncDiv(MIN64, -1) == -MIN64
  {
  }

  lemma {:induction false} ShiftDoes(ty: Ty, op: Operator, x: int, y: int)
    requires InRange(ty, x) && IsShift(op) && Compute(ty, op, x, y).Some?
    ensures Operate(ty, op, x, y) == Compute(ty, op, x, y)
  {
    ValueFromImage(ty, x);
    assert 0 <= y < 64;
    assert U64(y) % 64 == y;
  }

  // C's arithmetic is what 64-bit operations brought back to the type compute.
  lemma {:induction false} OperateIsCompute(ty: Ty, op: Operator, x: int, y: int)
    requires InRange(ty, x) && (IsShift(op) || InRange(ty, y)) && Compute(ty, op, x, y).Some?
    ensures Operate(ty, op, x, y) == Compute(ty, op, x, y)
  {
    if IsShift(op) {
      ShiftDoes(ty, op, x, y);
    } else if Divides(op) {
      DivisionDoes(ty, x, y);
    }
  }
}
