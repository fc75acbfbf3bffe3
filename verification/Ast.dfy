// Typed expression trees as the parser builds them, with the meaning C gives
// them.  Integer values are mathematical integers in the range of their type;
// pointers are 64-bit addresses.  NoMeaning marks what C leaves undefined:
// signed overflow, division by zero or with an unrepresentable quotient, and
// shift counts outside the width.  Departs marks the values that C defines and
// the generated code gets wrong; Deviations shows that it does so just there.
module Ast {
  import opened Words
  import opened Lists
  import opened Options
  import opened Ir

  datatype Function = Named(sym: Symbol, variadic: bool) | Through(pointer: Node)

  datatype Place =
    | Variable(sym: Symbol)
    | Pointee(pointer: Node)
    | Indexed(pointer: Node, index: Node, size: nat)
    | Element(whole: Place, index: Node, size: nat)
    | Field(record: Place, offset: nat)
    | Arrow(pointer: Node, offset: nat)

  datatype Node =
    | Number(ty: Ty, value: int)
    | Name(ty: Ty, sym: Symbol)
    | Read(ty: Ty, place: Place)
    | AddressOf(place: Place)
    | Decay(place: Place)
    | Assign(ty: Ty, place: Place, right: Node)
    | Update(ty: Ty, op: Operator, common: Ty, place: Place, right: Node)
    | UpdatePointer(op: Operator, size: nat, place: Place, right: Node)
    | Arith(ty: Ty, op: Operator, a: Node, b: Node)
    | Advance(op: Operator, pointer: Node, index: Node, size: nat)
    | Distance(a: Node, b: Node, size: nat)
    | Test(cmp: Comparison, a: Node, b: Node)
    | AndOr(isAnd: bool, a: Node, b: Node)
    | Sign(ty: Ty, plus: bool, a: Node)
    | Complement(ty: Ty, a: Node)
    | Not(a: Node)
    | StepBy(ty: Ty, down: bool, post: bool, size: nat, place: Place)
    | Choose(ty: Ty, a: Node, b: Node, c: Node)
    | Sequence(a: Node, b: Node)
    | Convert(ty: Ty, a: Node)
    | Apply(ty: Ty, target: Function, args: List<Node>)

  function TypeOfNode(n: Node): Ty {
    match n
    case AddressOf(_) => ADDRESS
    case Decay(_) => ADDRESS
    case UpdatePointer(_, _, _, _) => ADDRESS
    case Advance(_, _, _, _) => ADDRESS
    case Distance(_, _, _) => LONG
    case Test(_, _, _) => INT
    case AndOr(_, _, _) => INT
    case Not(_) => INT
    case Sequence(_, b) => TypeOfNode(b)
    case _ => n.ty
  }

  predicate IsShift(op: Operator) { op.Shl? || op.Shr? }

  predicate Divides(op: Operator) { op.Div? || op.Mod? }

  // The values of narrow are all values of wide.
  predicate Includes(wide: Ty, narrow: Ty) {
    if narrow.signed then wide.signed && wide.width >= narrow.width
    else wide.width > narrow.width || (wide.width == narrow.width && !wide.signed)
  }

  // The integer promotions and the usual arithmetic conversions (sections 6.3.1.1
  // and 6.3.1.8 of C17).
  function Promoted(t: Ty): Ty { if t.width < 4 then INT else t }

  function CommonType(ta: Ty, tb: Ty): Ty {
    var p, q := Promoted(ta), Promoted(tb);
    if p.signed == q.signed then if p.width >= q.width then p else q
    else
      var (u, s) := if p.signed then (q, p) else (p, q);
      if u.width >= s.width then u else s
  }

  // A target type and the type its value is converted to.
  predicate Commons(c: Ty, ty: Ty) { c.width >= 4 && c.width >= ty.width && (c.signed && !ty.signed ==> c.width > ty.width) }

  // The typing the lowering relies on.  The parser inserts the conversions of
  // arithmetic and shifts.  It inserts none for the operands of a comparison or
  // the branches of a conditional, and none that narrows the right side of an
  // assignment; a compound division works with the signedness of its target, and
  // unary plus falls to the default of a switch and is lowered as a negation.
  predicate WellTyped(n: Node) {
    match n
    case Number(ty, value) => InRange(ty, value)
    case Name(_, _) => true
    case Read(_, place) => WellTypedPlace(place)
    case AddressOf(place) => WellTypedPlace(place)
    case Decay(place) => WellTypedPlace(place)
    case Assign(ty, place, right) => WellTypedPlace(place) && WellTyped(right)
    case Update(ty, op, common, place, right) =>
      && WellTypedPlace(place) && WellTyped(right) && common.width >= ty.width
      && (if IsShift(op) then Includes(common, ty) else TypeOfNode(right) == common)
      && (Divides(op) ==> Commons(common, ty))
    case UpdatePointer(op, size, place, right) =>
      (op.Add? || op.Sub?) && 0 < size < 0x8000_0000 && WellTypedPlace(place) && WellTyped(right)
    case Arith(ty, op, a, b) =>
      && WellTyped(a) && WellTyped(b) && TypeOfNode(a) == ty
      && (IsShift(op) || TypeOfNode(b) == ty)
    case Advance(op, pointer, index, size) =>
      (op.Add? || op.Sub?) && 0 < size < 0x8000_0000 && WellTyped(pointer) && WellTyped(index)
    case Distance(a, b, size) => 0 < size < 0x8000_0000 && WellTyped(a) && WellTyped(b)
    case Test(_, a, b) => WellTyped(a) && WellTyped(b)
    case AndOr(_, a, b) => WellTyped(a) && WellTyped(b)
    case Sign(ty, _, a) => WellTyped(a) && TypeOfNode(a) == ty
    case Complement(ty, a) => WellTyped(a) && TypeOfNode(a) == ty
    case Not(a) => WellTyped(a)
    case StepBy(_, _, _, size, place) => 0 < size < 0x8000_0000 && WellTypedPlace(place)
    case Choose(_, a, b, c) => WellTyped(a) && WellTyped(b) && WellTyped(c)
    case Sequence(a, b) => WellTyped(a) && WellTyped(b)
    case Convert(_, a) => WellTyped(a)
    case Apply(_, target, args) =>
      (target.Through? ==> WellTyped(target.pointer)) && WellTypedArgs(args) && Len(args) <= 64
  }

  predicate WellTypedPlace(p: Place) {
    match p
    case Variable(_) => true
    case Pointee(pointer) => WellTyped(pointer) && TypeOfNode(pointer) == ADDRESS
    case Indexed(pointer, index, size) => WellTyped(pointer) && WellTyped(index) && 0 < size < 0x8000_0000
    case Element(whole, index, size) => WellTypedPlace(whole) && WellTyped(index) && 0 < size < 0x8000_0000
    case Field(record, offset) => WellTypedPlace(record) && offset < 0x8000_0000
    case Arrow(pointer, offset) => WellTyped(pointer) && offset < 0x8000_0000
  }

  predicate WellTypedArgs(args: List<Node>) {
    match args
    case Nil => true
    case Cons(head, tail) => WellTyped(head) && WellTypedArgs(tail)
  }

  function Fits(ty: Ty, v: int): Option<int> {
    if !ty.signed || InRange(ty, v) then Some(Wrap(ty, v)) else None
  }

  // Arithmetic of section 6.5 of C17 on values of type ty; the count of a shift
  // has a type of its own.
  function Compute(ty: Ty, op: Operator, x: int, y: int): (r: Option<int>)
    ensures r.Some? ==> InRange(ty, r.value)
  {
    match op
    case Add => Fits(ty, x + y)
    case Sub => Fits(ty, x - y)
    case Mul => Fits(ty, x * y)
    case Div => if y == 0 then None else Fits(ty, TruncDiv(x, y))
    case Mod => if y == 0 || Fits(ty, TruncDiv(x, y)) == None then None else Some(Wrap(ty, TruncMod(x, y)))
    case Shl =>
      if !(0 <= y < 8 * ty.width) || (ty.signed && x < 0) then None else Fits(ty, x * Pow2(y))
    case Shr => if !(0 <= y < 8 * ty.width) then None else Some(Wrap(ty, x / Pow2(y)))
    case BitwiseOp(bit) => Some(Wrap(ty, Bitwise64(bit, U64(x), U64(y))))
  }

  predicate Related(cmp: Comparison, x: int, y: int) {
    match cmp
    case Equal => x == y
    case NotEqual => x != y
    case Less => x < y
    case LessEqual => x <= y
    case Greater => x > y
    case GreaterEqual => x >= y
  }

  predicate IsEquality(cmp: Comparison) { cmp.Equal? || cmp.NotEqual? }

  // What makes a comparison decided as u < v come out right for u and v.
  predicate Ordered(cmp: Comparison, u: int, v: int) {
    match cmp
    case Equal => u != v
    case NotEqual => u != v
    case Less => u < v
    case GreaterEqual => u < v
    case LessEqual => u <= v
    case Greater => u <= v
  }

  // When a comparison of unconverted operands is C's comparison: always, for
  // operands of one signedness.
  predicate SameTest(cmp: Comparison, ta: Ty, tb: Ty, x: int, y: int) {
    var common := CommonType(ta, tb);
    if ta.signed == tb.signed then true
    else if common.signed then ta.signed || y >= 0 || IsEquality(cmp)
    else if common.width == 8 then !ta.signed || IsEquality(cmp) || (x < 0) == (y >= Half(8))
    else if ta.signed then x >= 0 || Ordered(cmp, x + 0x1_0000_0000, y)
    else y >= 0 || Ordered(cmp, x, y + 0x1_0000_0000)
  }

  // When a compound division in the target's signedness is C's in the common type.
  predicate SameDivision(op: Operator, ty: Ty, c: Ty, x: int, y: int) {
    var n, m, a := Modulus(c.width), Modulus(ty.width), -x;
    if ty.signed == c.signed then true
    else if c.signed then y > 0 || x < -y
    else if y <= 0 then false
    else if y < Half(8) then
      x >= 0
      || (if op.Div? then (n / y - (if n % y < a % y then 1 else 0)) % m == 0 else (n % y + (if n % y < a % y then y else 0)) % m == 0)
    else if x >= 0 then x < WORD - y
    else a == WORD - y || (op.Mod? && a < WORD - y && (WORD - y) % m == 0)
  }

  // A value that negation leaves alone: zero, and the one half-way round the type.
  predicate OwnNegative(ty: Ty, v: int) { v == 0 || 2 * v == Modulus(ty.width) || 2 * v == -Modulus(ty.width) }

  // When a value is passed on as one of type ty without being converted to it.
  predicate Passes(ty: Ty, v: int) { InRange(ty, if ty.signed then S64(v) else U64(v)) }

  function Step(down: bool, size: nat): int { if down then 0 - (size as int) else size }

  // ++ and -- compute in the promoted type, so only a type as wide as int can
  // overflow.
  function Stepped(ty: Ty, x: int, step: int): Option<int> {
    if ty.signed && ty.width >= 4 && !InRange(ty, x + step) then None else Some(Wrap(ty, x + step))
  }

  datatype Meant<T> = Means(value: T, mem: Mem) | NoMeaning | Departs

  function Outcomes(o: Option<int>, m: Mem): Meant<int> {
    match o case Some(v) => Means(v, m) case None => NoMeaning
  }

  // Operands are evaluated in the order the generated code uses, one of those
  // C permits.
  function Meaning(n: Node, env: Env, m: Mem): Meant<int>
    decreases n, 1
  {
    match n
    case Number(_, value) => Means(value, m)
    case Name(ty, sym) => Means(LoadValue(m, ty, AddressOfSymbol(env, sym)), m)
    case Read(ty, place) =>
      (match Location(place, env, m)
       case Means(p, m1) => Means(LoadValue(m1, ty, p), m1)
       case other => other)
    case AddressOf(place) => Location(place, env, m)
    case Decay(place) => Location(place, env, m)
    case Assign(ty, _, _) =>
      (match Assigned(n, env, m)
       case Means(v, m1) => if Passes(ty, v) then Means(Wrap(ty, v), m1) else Departs
       case other => other)
    case Update(ty, op, common, place, right) =>
      (match Location(place, env, m)
       case Means(p, m1) =>
         (match Meaning(right, env, m1)
          case Means(y, m2) =>
            (match Compute(common, op, Wrap(common, LoadValue(m1, ty, p)), y)
             case Some(v) =>
               if Divides(op) && !SameDivision(op, ty, common, LoadValue(m1, ty, p), y) then Departs
               else Means(Wrap(ty, v), StoreValue(m2, ty, p, Wrap(ty, v)))
             case None => NoMeaning)
          case other => other)
       case other => other)
    case UpdatePointer(op, size, place, right) =>
      (match Location(place, env, m)
       case Means(p, m1) =>
         (match Meaning(right, env, m1)
          case Means(y, m2) =>
            var v := Moved(op, LoadValue(m1, ADDRESS, p), y, size);
            Means(v, StoreValue(m2, ADDRESS, p, v))
          case other => other)
       case other => other)
    case Arith(ty, op, a, b) =>
      (match Meaning(a, env, m)
       case Means(x, m1) =>
         (match Meaning(b, env, m1)
          case Means(y, m2) => Outcomes(Compute(ty, op, x, y), m2)
          case other => other)
       case other => other)
    case Advance(op, pointer, index, size) =>
      (match Meaning(pointer, env, m)
       case Means(p, m1) =>
         (match Meaning(index, env, m1)
          case Means(i, m2) => Means(Moved(op, p, i, size), m2)
          case other => other)
       case other => other)
    case Distance(a, b, size) =>
      (match Meaning(a, env, m)
       case Means(x, m1) =>
         (match Meaning(b, env, m1)
          case Means(y, m2) => if size == 0 then NoMeaning else Means(TruncDiv(S64(x - y), size), m2)
          case other => other)
       case other => other)
    case Test(cmp, a, b) =>
      (match Meaning(a, env, m)
       case Means(x, m1) =>
         (match Meaning(b, env, m1)
          case Means(y, m2) =>
            var c := CommonType(TypeOfNode(a), TypeOfNode(b));
            if SameTest(cmp, TypeOfNode(a), TypeOfNode(b), x, y) then Means(Bool(Related(cmp, Wrap(c, x), Wrap(c, y))), m2)
            else Departs
          case other => other)
       case other => other)
    case AndOr(isAnd, a, b) =>
      (match Meaning(a, env, m)
       case Means(x, m1) =>
         if (x != 0) != isAnd then Means(Bool(!isAnd), m1)
         else
           (match Meaning(b, env, m1)
            case Means(y, m2) => Means(Bool(y != 0), m2)
            case other => other)
       case other => other)
    case Sign(ty, plus, a) =>
      (match Meaning(a, env, m)
       case Means(x, m1) =>
         if !plus then Outcomes(Fits(ty, -x), m1) else if OwnNegative(ty, x) then Means(x, m1) else Departs
       case other => other)
    case Complement(ty, a) =>
      (match Meaning(a, env, m)
       case Means(x, m1) => Means(Wrap(ty, -x - 1), m1)
       case other => other)
    case Not(a) =>
      (match Meaning(a, env, m)
       case Means(x, m1) => Means(Bool(x == 0), m1)
       case other => other)
    case StepBy(ty, down, post, size, place) =>
      (match Location(place, env, m)
       case Means(p, m1) =>
         var x := LoadValue(m1, ty, p);
         (match Stepped(ty, x, Step(down, size))
          case Some(v) => Means(if post then x else v, StoreValue(m1, ty, p, v))
          case None => NoMeaning)
       case other => other)
    case Choose(ty, a, b, c) =>
      (match Meaning(a, env, m)
       case Means(x, m1) =>
         (match if x != 0 then Meaning(b, env, m1) else Meaning(c, env, m1)
          case Means(v, m2) => if Passes(ty, v) then Means(Wrap(ty, v), m2) else Departs
          case other => other)
       case other => other)
    case Sequence(a, b) =>
      (match Effect(a, env, m)
       case Means(_, m1) => Meaning(b, env, m1)
       case other => other)
    case Convert(ty, a) =>
      (match Meaning(a, env, m)
       case Means(x, m1) => Means(Wrap(ty, x), m1)
       case other => other)
    case Apply(ty, target, args) =>
      (match StackArgs(args, 0, env, m)
       case Means(onStack, m1) =>
         (match RegisterArgs(args, 0, env, m1)
          case Means(inRegisters, m2) =>
            (match Designated(target, env, m2)
             case Means(p, m3) => Returns(Invoke(ty, env, p, Append(inRegisters, onStack), m3))
             case other => other)
          case NoMeaning => NoMeaning
          case Departs => Departs)
       case NoMeaning => NoMeaning
       case Departs => Departs)
  }

  function Returns(o: Outcome<int>): Meant<int> {
    match o
    case Ok(v, m) => Means(v, m)
    case _ => NoMeaning
  }

  // The value of the right side, and memory once it is stored in the object.
  function Assigned(n: Node, env: Env, m: Mem): Meant<int>
    requires n.Assign?
    decreases n, 0
  {
    match Location(n.place, env, m)
    case Means(p, m1) =>
      (match Meaning(n.right, env, m1)
       case Means(v, m2) => Means(v, StoreValue(m2, n.ty, p, Wrap(n.ty, v)))
       case other => other)
    case other => other
  }

  // An expression whose value nobody looks at.
  function Effect(n: Node, env: Env, m: Mem): Meant<int>
    decreases n, 2
  {
    match n
    case Assign(ty, _, _) =>
      (match Assigned(n, env, m)
       case Means(v, m1) => Means(Wrap(ty, v), m1)
       case other => other)
    case Choose(_, a, b, c) =>
      (match Meaning(a, env, m)
       case Means(x, m1) => if x != 0 then Effect(b, env, m1) else Effect(c, env, m1)
       case other => other)
    case Sequence(a, b) =>
      (match Effect(a, env, m)
       case Means(_, m1) => Effect(b, env, m1)
       case other => other)
    case Convert(_, a) => Effect(a, env, m)
    case _ => Meaning(n, env, m)
  }

  // A pointer moves by whole objects.
  function Moved(op: Operator, p: int, i: int, size: nat): (q: int)
    ensures InRange(ADDRESS, q)
  {
    U64(if op.Add? then p + i * size else p - i * size)
  }

  function Location(p: Place, env: Env, m: Mem): Meant<int>
    decreases p
  {
    match p
    case Variable(sym) => Means(AddressOfSymbol(env, sym), m)
    case Pointee(pointer) => Meaning(pointer, env, m)
    case Indexed(pointer, index, size) =>
      (match Meaning(pointer, env, m)
       case Means(b, m1) =>
         (match Meaning(index, env, m1)
          case Means(i, m2) => Means(Moved(Add, b, i, size), m2)
          case other => other)
       case other => other)
    case Element(whole, index, size) =>
      (match Location(whole, env, m)
       case Means(b, m1) =>
         (match Meaning(index, env, m1)
          case Means(i, m2) => Means(Moved(Add, b, i, size), m2)
          case other => other)
       case other => other)
    case Field(record, offset) =>
      (match Location(record, env, m)
       case Means(b, m1) => Means(U64(b + offset), m1)
       case other => other)
    case Arrow(pointer, offset) =>
      (match Meaning(pointer, env, m)
       case Means(b, m1) => Means(U64(b + offset), m1)
       case other => other)
  }

  function Designated(f: Function, env: Env, m: Mem): Meant<int>
    decreases f
  {
    match f
    case Named(sym, _) => Means(U64(env.globals(sym)), m)
    case Through(pointer) =>
      (match Meaning(pointer, env, m)
       case Means(p, m1) => Means(U64(p), m1)
       case other => other)
  }

  function StackArgs(args: List<Node>, i: nat, env: Env, m: Mem): Meant<List<int>>
    decreases args
  {
    match args
    case Nil => Means(Nil, m)
    case Cons(head, tail) =>
      (match StackArgs(tail, i + 1, env, m)
       case Means(vs, m1) =>
         if i < REGISTER_ARGS then Means(vs, m1)
         else
           (match Meaning(head, env, m1)
            case Means(v, m2) => Means(Cons(U64(v), vs), m2)
            case NoMeaning => NoMeaning
            case Departs => Departs)
       case other => other)
  }

  function RegisterArgs(args: List<Node>, i: nat, env: Env, m: Mem): Meant<List<int>>
    decreases args
  {
    match args
    case Nil => Means(Nil, m)
    case Cons(head, tail) =>
      if i >= REGISTER_ARGS then Means(Nil, m)
      else
        (match Meaning(head, env, m)
         case Means(v, m1) =>
           (match RegisterArgs(tail, i + 1, env, m1)
            case Means(vs, m2) => Means(Cons(U64(v), vs), m2)
            case other => other)
         case NoMeaning => NoMeaning
         case Departs => Departs)
  }
}
