// Where the arguments of a call go: the classes of an aggregate's eightbytes,
// and the register or stack slot of each argument.
module Abi {
  import opened Options
  import opened Lists

  const SIZE_MAX := 0xffff_ffff_ffff_ffff

  datatype Type =
    | Scalar(bytes: nat, floating: bool)
    | Wide
    | Array(base: Type, count: nat)
    | Record(fields: List<Field>, bytes: nat, incomplete: bool)
    | Missing

  datatype Field = Field(offset: nat, ty: Type)

  function SizeOf(t: Type): nat {
    match t
    case Scalar(bytes, _) => bytes
    case Wide => 16
    case Array(base, count) => count * SizeOf(base)
    case Record(_, bytes, _) => bytes
    case Missing => 0
  }

  datatype Class = Integer | Sse

  // An eightbyte no field has reached yet has no class.
  datatype Piece = Unseen | Seen(kind: Class)

  // The first two eightbytes of an object.
  datatype Pieces = Pieces(low: Piece, high: Piece)
  {
    function At(i: nat): Piece { if i == 0 then low else if i == 1 then high else Unseen }
  }

  // The first field to reach an eightbyte names it; a general field always does.
  function Mark(ps: Pieces, offset: nat, floating: bool): Pieces {
    var wanted := if floating then Sse else Integer;
    if offset / 8 == 0 then (if wanted == Integer || ps.low == Unseen then ps.(low := Seen(wanted)) else ps)
    else if offset / 8 == 1 then (if wanted == Integer || ps.high == Unseen then ps.(high := Seen(wanted)) else ps)
    else ps
  }

  // The walk over the members, failing at a field that is not inside one
  // eightbyte.  Elements of an array are walked for the members they have, so an
  // array of scalars names no eightbyte.
  function Walk(fields: List<Field>, base: nat, ps: Pieces): (r: Option<Pieces>)
    decreases fields
  {
    match fields
    case Nil => Some(ps)
    case Cons(f, rest) =>
      match WalkField(f.ty, base + f.offset, ps)
      case None => None
      case Some(ps1) => Walk(rest, base, ps1)
  }

  function WalkField(t: Type, at: nat, ps: Pieces): (r: Option<Pieces>)
    decreases t, 1
  {
    match t
    case Missing => None
    case Record(fields, _, _) => Walk(fields, at, ps)
    case Array(base, count) => if SizeOf(base) == 0 then Some(ps) else WalkElements(base, count, at, ps)
    case Scalar(bytes, floating) =>
      if bytes == 0 then Some(ps) else if at % 8 + bytes > 8 then None else Some(Mark(ps, at, floating))
    case Wide => None
  }

  function WalkElements(base: Type, count: nat, at: nat, ps: Pieces): (r: Option<Pieces>)
    decreases base, 2, count
  {
    if count == 0 || !base.Record? then Some(ps)
    else
      match Walk(base.fields, at, ps)
      case None => None
      case Some(ps1) => WalkElements(base, count - 1, at + SizeOf(base), ps1)
  }

  // The scalars of an object, as far as the walk sees them, in order.
  datatype Leaf = Leaf(at: nat, bytes: nat, floating: bool, broken: bool)

  function Leaves(fields: List<Field>, base: nat): List<Leaf>
    decreases fields
  {
    match fields
    case Nil => Nil
    case Cons(f, rest) => Append(LeavesOf(f.ty, base + f.offset), Leaves(rest, base))
  }

  function LeavesOf(t: Type, at: nat): List<Leaf>
    decreases t, 1
  {
    match t
    case Missing => Cons(Leaf(at, 0, false, true), Nil)
    case Record(fields, _, _) => Leaves(fields, at)
    case Array(base, count) => if SizeOf(base) == 0 then Nil else LeavesOfElements(base, count, at)
    case Scalar(bytes, floating) => if bytes == 0 then Nil else Cons(Leaf(at, bytes, floating, false), Nil)
    case Wide => Cons(Leaf(at, 16, false, false), Nil)
  }

  function LeavesOfElements(base: Type, count: nat, at: nat): List<Leaf>
    decreases base, 2, count
  {
    if count == 0 || !base.Record? then Nil
    else Append(Leaves(base.fields, at), LeavesOfElements(base, count - 1, at + SizeOf(base)))
  }

  predicate Inside(l: Leaf) { !l.broken && l.at % 8 + l.bytes <= 8 }

  predicate AllInside(ls: List<Leaf>) {
    match ls
    case Nil => true
    case Cons(l, rest) => Inside(l) && AllInside(rest)
  }

  predicate Reaches(ls: List<Leaf>, piece: nat, floating: bool) {
    match ls
    case Nil => false
    case Cons(l, rest) => (l.at / 8 == piece && l.floating == floating) || Reaches(rest, piece, floating)
  }

  // What the marks of a list of scalars leave behind, whatever their order.
  function Marked(ps: Pieces, ls: List<Leaf>): Pieces {
    Pieces(MarkedPiece(ps.low, ls, 0), MarkedPiece(ps.high, ls, 1))
  }

  function MarkedPiece(p: Piece, ls: List<Leaf>, piece: nat): Piece {
    if p == Seen(Integer) || Reaches(ls, piece, false) then Seen(Integer)
    else if p == Seen(Sse) || Reaches(ls, piece, true) then Seen(Sse)
    else Unseen
  }

  lemma {:induction false} ReachesAppend(xs: List<Leaf>, ys: List<Leaf>, piece: nat, floating: bool)
    ensures Reaches(Append(xs, ys), piece, floating) == (Reaches(xs, piece, floating) || Reaches(ys, piece, floating))
    ensures AllInside(Append(xs, ys)) == (AllInside(xs) && AllInside(ys))
  {
    if xs.Cons? { ReachesAppend(xs.tail, ys, piece, floating); }
  }

  lemma {:induction false} MarkedAppend(ps: Pieces, xs: List<Leaf>, ys: List<Leaf>)
    ensures Marked(ps, Append(xs, ys)) == Marked(Marked(ps, xs), ys)
    ensures AllInside(Append(xs, ys)) == (AllInside(xs) && AllInside(ys))
  {
    ReachesAppend(xs, ys, 0, false);
    ReachesAppend(xs, ys, 0, true);
    ReachesAppend(xs, ys, 1, false);
    ReachesAppend(xs, ys, 1, true);
  }

  // The walk succeeds exactly when every scalar lies inside one eightbyte, and
  // names an eightbyte by all the scalars in it.
  lemma {:induction false} WalkIsMarked(fields: List<Field>, base: nat, ps: Pieces)
    ensures Walk(fields, base, ps) == if AllInside(Leaves(fields, base)) then Some(Marked(ps, Leaves(fields, base))) else None
    decreases fields
  {
    match fields {
      case Nil => MarkedNone(ps);
      case Cons(f, rest) =>
        WalkFieldIsMarked(f.ty, base + f.offset, ps);
        var ls := LeavesOf(f.ty, base + f.offset);
        WalkIsMarked(rest, base, Marked(ps, ls));
        MarkedAppend(ps, ls, Leaves(rest, base));
    }
  }

  lemma {:induction false} WalkFieldIsMarked(t: Type, at: nat, ps: Pieces)
    ensures WalkField(t, at, ps) == if AllInside(LeavesOf(t, at)) then Some(Marked(ps, LeavesOf(t, at))) else None
    decreases t, 1
  {
    MarkedNone(ps);
    match t {
      case Missing =>
      case Record(fields, _, _) => WalkIsMarked(fields, at, ps);
      case Array(base, count) => if SizeOf(base) != 0 { WalkElementsIsMarked(base, count, at, ps); }
      case Scalar(bytes, floating) => if bytes != 0 && at % 8 + bytes <= 8 { OneMarked(ps, Leaf(at, bytes, floating, false)); }
      case Wide =>
    }
  }

  lemma {:induction false} OneMarked(ps: Pieces, l: Leaf)
    ensures Marked(ps, Cons(l, Nil)) == Mark(ps, l.at, l.floating)
  {
    OneReaches(l, 0);
    OneReaches(l, 1);
    MarkedNone(ps);
  }

  lemma {:induction false} OneReaches(l: Leaf, piece: nat)
    ensures Reaches(Cons(l, Nil), piece, l.floating) == (l.at / 8 == piece)
    ensures !Reaches(Cons(l, Nil), piece, !l.floating)
  {
    assert !Reaches(Nil, piece, l.floating) && !Reaches(Nil, piece, !l.floating);
  }

  lemma {:induction false} MarkedNone(ps: Pieces)
    ensures Marked(ps, Nil) == ps
  {
    assert !Reaches(Nil, 0, false) && !Reaches(Nil, 0, true) && !Reaches(Nil, 1, false) && !Reaches(Nil, 1, true);
    NoneMarked(ps.low);
    NoneMarked(ps.high);
  }

  lemma {:induction false} NoneMarked(p: Piece)
    ensures p == Seen(Integer) || p == Seen(Sse) || p == Unseen
  {
    match p {
      case Unseen =>
      case Seen(c) => match c { case Integer => case Sse => }
    }
  }

  lemma {:induction false} WalkElementsIsMarked(base: Type, count: nat, at: nat, ps: Pieces)
    ensures WalkElements(base, count, at, ps)
         == if AllInside(LeavesOfElements(base, count, at)) then Some(Marked(ps, LeavesOfElements(base, count, at))) else None
    decreases base, 2, count
  {
    MarkedNone(ps);
    if count > 0 && base.Record? {
      WalkIsMarked(base.fields, at, ps);
      var ls := Leaves(base.fields, at);
      WalkElementsIsMarked(base, count - 1, at + SizeOf(base), Marked(ps, ls));
      MarkedAppend(ps, ls, LeavesOfElements(base, count - 1, at + SizeOf(base)));
    }
  }

  datatype Shape = NotPassable | InMemory | Eightbytes(classes: seq<Class>)

  function Eightbyte(p: Piece): Class {
    if p == Seen(Sse) then Sse else Integer
  }

  // Padding travels in a general register.
  function AggregatePieces(t: Type): (s: Shape)
    requires t.Record?
    ensures s.Eightbytes? ==> 1 <= |s.classes| <= 2
  {
    if t.incomplete || t.bytes == 0 then NotPassable
    else if t.bytes > 16 then InMemory
    else
      match Walk(t.fields, 0, Pieces(Unseen, Unseen))
      case None => InMemory
      case Some(ps) =>
        Eightbytes(if t.bytes <= 8 then [Eightbyte(ps.low)] else [Eightbyte(ps.low), Eightbyte(ps.high)])
  }

  // An eightbyte is carried in a vector register exactly when a floating scalar
  // lies in it and no other scalar does; an object has eightbytes exactly when it
  // is no larger than two and no scalar crosses a boundary.
  lemma {:induction false} AggregateClasses(t: Type)
    requires t.Record?
    ensures var s, ls := AggregatePieces(t), Leaves(t.fields, 0);
            && (s.Eightbytes? <==> !t.incomplete && 0 < t.bytes <= 16 && AllInside(ls))
            && (s.Eightbytes? ==> |s.classes| == (t.bytes + 7) / 8)
            && (s.Eightbytes? ==> forall i :: 0 <= i < |s.classes| ==>
                 (s.classes[i] == Sse <==> Reaches(ls, i, true) && !Reaches(ls, i, false)))
  {
    WalkIsMarked(t.fields, 0, Pieces(Unseen, Unseen));
  }

  datatype Slot = Slot(ok: bool, inRegister: bool, memory: bool, classes: seq<Class>, registers: seq<nat>,
                       offset: nat, size: nat)

  // Registers and stack bytes given out so far.
  datatype Counters = Counters(general: nat, vector: nat, stack: nat)

  function RoundUp(value: nat): (r: nat) {
    if value > SIZE_MAX - 7 then SIZE_MAX else (value + 7) / 8 * 8
  }

  function Needs(classes: seq<Class>, kind: Class): nat {
    if classes == [] then 0 else (if classes[0] == kind then 1 else 0) + Needs(classes[1..], kind)
  }

  // One register for each eightbyte, in order.
  function Numbered(classes: seq<Class>, general: nat, vector: nat): (rs: seq<nat>)
    ensures |rs| == |classes|
  {
    if classes == [] then []
    else if classes[0] == Sse then [vector] + Numbered(classes[1..], general, vector + 1)
    else [general] + Numbered(classes[1..], general + 1, vector)
  }

  // All the registers an argument needs, or none of them.
  predicate Available(classes: seq<Class>, c: Counters) {
    c.general + Needs(classes, Integer) <= 6 && c.vector + Needs(classes, Sse) <= 8
  }

  function InRegisters(classes: seq<Class>, size: nat, c: Counters): (Slot, Counters) {
    (Slot(true, true, false, classes, Numbered(classes, c.general, c.vector), 0, size),
     c.(general := c.general + Needs(classes, Integer), vector := c.vector + Needs(classes, Sse)))
  }

  function OnStack(classes: seq<Class>, memory: bool, size: nat, c: Counters): (Slot, Counters) {
    var at := RoundUp(c.stack);
    (Slot(true, false, memory, classes, [], at, size), c.(stack := at + size))
  }

  const Refused: Slot := Slot(false, false, false, [], [], 0, 0)

  // An object whose size cannot even be rounded ends the assignment.
  predicate Overflows(t: Type) {
    t.Record? && AggregatePieces(t).InMemory? && RoundUp(t.bytes) == SIZE_MAX
  }

  function PlaceOne(t: Type, c: Counters): (Slot, Counters) {
    match t
    case Missing => (Refused, c)
    case Wide => if Available([Integer, Integer], c) then InRegisters([Integer, Integer], 0, c)
                 else OnStack([Integer, Integer], false, 16, c)
    case Record(_, bytes, _) =>
      (match AggregatePieces(t)
       case NotPassable => (Refused, c)
       case InMemory => OnStack([], true, RoundUp(bytes), c)
       case Eightbytes(classes) =>
         if Available(classes, c) then InRegisters(classes, RoundUp(bytes), c)
         else OnStack(classes, false, RoundUp(bytes), c))
    case Scalar(_, true) => if c.vector < 8 then InRegisters([Sse], 8, c) else OnStack([], false, 8, c)
    case _ => if c.general < 6 then InRegisters([Integer], 8, c) else OnStack([], false, 8, c)
  }

  function Start(returnsMemory: bool): Counters { Counters(if returnsMemory then 1 else 0, 0, 0) }

  function After(types: seq<Type>, n: nat, c: Counters): Counters
    requires n <= |types|
  {
    if n == 0 then c else PlaceOne(types[n - 1], After(types, n - 1, c)).1
  }

  function SlotOf(types: seq<Type>, i: nat, returnsMemory: bool): Slot
    requires i < |types|
  {
    PlaceOne(types[i], After(types, i, Start(returnsMemory))).0
  }

  // Counters never pass the registers there are, and the stack stays in words.
  predicate Counted(c: Counters) {
    c.general <= 6 && c.vector <= 8 && c.stack % 8 == 0 && c.stack <= SIZE_MAX - 7
  }

  // The registers a slot uses, by class.
  predicate Uses(s: Slot, kind: Class, r: nat) {
    s.ok && s.inRegister && exists k :: 0 <= k < |s.classes| && k < |s.registers| && s.classes[k] == kind && s.registers[k] == r
  }

  lemma {:induction false} NumberedRange(classes: seq<Class>, general: nat, vector: nat, k: nat)
    requires k < |classes|
    ensures var r := Numbered(classes, general, vector)[k];
            if classes[k] == Sse then vector <= r < vector + Needs(classes, Sse)
            else general <= r < general + Needs(classes, Integer)
  {
    if k > 0 {
      if classes[0] == Sse { NumberedRange(classes[1..], general, vector + 1, k - 1); }
      else { NumberedRange(classes[1..], general + 1, vector, k - 1); }
    }
  }

  // No register twice within an argument.
  lemma {:induction false} NumberedDistinct(classes: seq<Class>, general: nat, vector: nat, j: nat, k: nat)
    requires j < k < |classes| && classes[j] == classes[k]
    ensures Numbered(classes, general, vector)[j] < Numbered(classes, general, vector)[k]
  {
    var general', vector' := if classes[0] == Sse then general else general + 1, if classes[0] == Sse then vector + 1 else vector;
    if j > 0 {
      NumberedDistinct(classes[1..], general', vector', j - 1, k - 1);
    } else {
      NumberedRange(classes[1..], general', vector', k - 1);
    }
  }

  // What one placement takes lies between the counters before and after it.
  ghost predicate Takes(s: Slot, c: Counters, c': Counters) {
    && c.general <= c'.general && c.vector <= c'.vector && c.stack <= c'.stack
    && (forall r: nat :: Uses(s, Integer, r) ==> c.general <= r < c'.general)
    && (forall r: nat :: Uses(s, Sse, r) ==> c.vector <= r < c'.vector)
    && (s.ok && !s.inRegister ==> s.offset == c.stack && c'.stack == c.stack + s.size && s.size % 8 == 0)
    && (!(s.ok && !s.inRegister) ==> c'.stack == c.stack)
  }

  lemma {:induction false} RegistersTake(classes: seq<Class>, size: nat, c: Counters)
    requires Counted(c) && Available(classes, c)
    ensures var (s, c') := InRegisters(classes, size, c); Takes(s, c, c') && Counted(c')
  {
    var (s, c') := InRegisters(classes, size, c);
    forall r: nat | Uses(s, Integer, r) ensures c.general <= r < c'.general {
      var k :| 0 <= k < |classes| && classes[k] == Integer && s.registers[k] == r;
      NumberedRange(classes, c.general, c.vector, k);
    }
    forall r: nat | Uses(s, Sse, r) ensures c.vector <= r < c'.vector {
      var k :| 0 <= k < |classes| && classes[k] == Sse && s.registers[k] == r;
      NumberedRange(classes, c.general, c.vector, k);
    }
  }

  lemma {:induction false} PlaceOneTakes(t: Type, c: Counters)
    requires Counted(c) && !Overflows(t) && PlaceOne(t, c).1.stack <= SIZE_MAX - 7
    ensures var (s, c') := PlaceOne(t, c); Takes(s, c, c') && Counted(c')
  {
    hide AggregatePieces;
    match t {
      case Wide => if Available([Integer, Integer], c) { RegistersTake([Integer, Integer], 0, c); }
      case Record(_, bytes, _) =>
        var shape := AggregatePieces(t);
        if shape.Eightbytes? && Available(shape.classes, c) { RegistersTake(shape.classes, RoundUp(bytes), c); }
      case Scalar(_, floating) =>
        if floating && c.vector < 8 { RegistersTake([Sse], 8, c); }
        if !floating && c.general < 6 { RegistersTake([Integer], 8, c); }
      case Array(_, _) => if c.general < 6 { RegistersTake([Integer], 8, c); }
      case Missing =>
    }
  }

  // Every argument can be placed and the outgoing area is addressable.
  ghost predicate Placeable(types: seq<Type>, returnsMemory: bool) {
    && (forall i :: 0 <= i < |types| ==> !Overflows(types[i]))
    && (forall n: nat :: n <= |types| ==> After(types, n, Start(returnsMemory)).stack <= SIZE_MAX - 7)
  }

  lemma {:induction false} StackBound(types: seq<Type>, n: nat, returnsMemory: bool)
    requires Placeable(types, returnsMemory) && n < |types|
    ensures PlaceOne(types[n], After(types, n, Start(returnsMemory))).1.stack <= SIZE_MAX - 7
    ensures !Overflows(types[n])
    ensures After(types, n + 1, Start(returnsMemory)) == PlaceOne(types[n], After(types, n, Start(returnsMemory))).1
  {
    hide PlaceOne, Overflows;
    assert After(types, n + 1, Start(returnsMemory)).stack <= SIZE_MAX - 7;
  }

  lemma {:induction false} AfterCounted(types: seq<Type>, n: nat, returnsMemory: bool)
    requires Placeable(types, returnsMemory) && n <= |types|
    ensures Counted(After(types, n, Start(returnsMemory)))
  {
    hide PlaceOne, Overflows, Placeable, Uses;
    if n > 0 {
      AfterCounted(types, n - 1, returnsMemory);
      StackBound(types, n - 1, returnsMemory);
      PlaceOneTakes(types[n - 1], After(types, n - 1, Start(returnsMemory)));
    }
  }

  lemma {:induction false} SlotTakes(types: seq<Type>, i: nat, returnsMemory: bool)
    requires Placeable(types, returnsMemory) && i < |types|
    ensures Takes(SlotOf(types, i, returnsMemory), After(types, i, Start(returnsMemory)), After(types, i + 1, Start(returnsMemory)))
  {
    hide PlaceOne, Overflows, Placeable, Uses, Takes;
    AfterCounted(types, i, returnsMemory);
    StackBound(types, i, returnsMemory);
    PlaceOneTakes(types[i], After(types, i, Start(returnsMemory)));
  }

  lemma {:induction false} AfterGrows(types: seq<Type>, i: nat, j: nat, returnsMemory: bool)
    requires Placeable(types, returnsMemory) && i <= j <= |types|
    ensures var a, b := After(types, i, Start(returnsMemory)), After(types, j, Start(returnsMemory));
            a.general <= b.general <= 6 && a.vector <= b.vector <= 8 && a.stack <= b.stack
    decreases j - i
  {
    hide PlaceOne, Overflows, Placeable, Uses, SlotOf;
    AfterCounted(types, j, returnsMemory);
    if i < j {
      AfterGrows(types, i, j - 1, returnsMemory);
      SlotTakes(types, j - 1, returnsMemory);
    }
  }

  ghost predicate Apart(s: Slot, t: Slot) {
    && (forall kind, r: nat :: !(Uses(s, kind, r) && Uses(t, kind, r)))
    && (s.ok && t.ok && !s.inRegister && !t.inRegister ==> s.offset + s.size <= t.offset)
  }

  // No register and no stack byte belongs to two arguments.
  lemma {:induction false} SlotsApart(types: seq<Type>, i: nat, j: nat, returnsMemory: bool)
    requires Placeable(types, returnsMemory) && i < j < |types|
    ensures Apart(SlotOf(types, i, returnsMemory), SlotOf(types, j, returnsMemory))
  {
    hide PlaceOne, Overflows, Placeable, Uses, SlotOf, After;
    SlotTakes(types, i, returnsMemory);
    SlotTakes(types, j, returnsMemory);
    AfterGrows(types, i + 1, j, returnsMemory);
    var s, t := SlotOf(types, i, returnsMemory), SlotOf(types, j, returnsMemory);
    forall kind, r: nat ensures !(Uses(s, kind, r) && Uses(t, kind, r)) {
      match kind { case Integer => case Sse => }
    }
  }

  function StackBytes(types: seq<Type>, n: nat, returnsMemory: bool): nat
    requires n <= |types|
  {
    if n == 0 then 0
    else
      var s := SlotOf(types, n - 1, returnsMemory);
      StackBytes(types, n - 1, returnsMemory) + if s.ok && !s.inRegister then s.size else 0
  }

  // Stack slots follow one another without a gap, in argument order, from 0 to
  // the end of the area.
  lemma {:induction false} StackTiled(types: seq<Type>, n: nat, returnsMemory: bool)
    requires Placeable(types, returnsMemory) && n <= |types|
    ensures After(types, n, Start(returnsMemory)).stack == StackBytes(types, n, returnsMemory)
    ensures n < |types| && SlotOf(types, n, returnsMemory).ok && !SlotOf(types, n, returnsMemory).inRegister ==>
              SlotOf(types, n, returnsMemory).offset == StackBytes(types, n, returnsMemory)
  {
    hide PlaceOne, Overflows, Placeable, Uses;
    if n > 0 {
      StackTiled(types, n - 1, returnsMemory);
      SlotTakes(types, n - 1, returnsMemory);
    }
    if n < |types| { SlotTakes(types, n, returnsMemory); }
  }

  // An argument is on the stack only when the registers it needs are not all
  // there, and then none of it is in a register.
  lemma {:induction false} StackOnlyWhenFull(types: seq<Type>, i: nat, returnsMemory: bool)
    requires i < |types|
    ensures var s, c := SlotOf(types, i, returnsMemory), After(types, i, Start(returnsMemory));
            && (s.inRegister ==> |s.registers| == |s.classes| > 0)
            && (s.ok && !s.inRegister ==>
                  (s.registers == []
                   && (s.memory || (if s.classes == [] then (if types[i] == Scalar(SizeOf(types[i]), true) then c.vector >= 8 else c.general >= 6)
                                    else !Available(s.classes, c)))))
  {
  }

  // What each argument gets, from the slots of the arguments before it.

  // The eightbytes an argument can travel in: one for a scalar, in the vector file
  // when it is floating; an array is passed as its address; two general ones for a
  // 128-bit integer; those of an aggregate.
  function Wanted(t: Type): Option<seq<Class>> {
    match t
    case Scalar(_, floating) => Some(if floating then [Sse] else [Integer])
    case Array(_, _) => Some([Integer])
    case Wide => Some([Integer, Integer])
    case Record(_, _, _) => (match AggregatePieces(t) case Eightbytes(classes) => Some(classes) case _ => None)
    case Missing => None
  }

  predicate Passable(t: Type) { !t.Missing? && (t.Record? ==> !t.incomplete && t.bytes > 0) }

  function FileSize(kind: Class): nat { if kind == Integer then 6 else 8 }

  // The registers of one file that hold the first n arguments, and the address of a
  // memory result.
  function Held(types: seq<Type>, n: nat, returnsMemory: bool, kind: Class): nat
    requires n <= |types|
  {
    if n == 0 then if returnsMemory && kind == Integer then 1 else 0
    else
      var s := SlotOf(types, n - 1, returnsMemory);
      Held(types, n - 1, returnsMemory, kind) + if s.inRegister then multiset(s.classes)[kind] else 0
  }

  lemma {:induction false} NeedsCounts(classes: seq<Class>, kind: Class)
    ensures Needs(classes, kind) == multiset(classes)[kind]
  {
    if classes != [] {
      NeedsCounts(classes[1..], kind);
      assert classes == [classes[0]] + classes[1..];
    }
  }

  lemma {:induction false} NumberedAt(classes: seq<Class>, general: nat, vector: nat, k: nat)
    requires k < |classes|
    ensures Numbered(classes, general, vector)[k]
         == (if classes[k] == Sse then vector else general) + multiset(classes[..k])[classes[k]]
  {
    if k == 0 {
      assert classes[..0] == [];
    } else {
      assert classes[..k] == [classes[0]] + classes[1..][..k - 1];
      NumberedAt(classes[1..], if classes[0] == Sse then general else general + 1, if classes[0] == Sse then vector + 1 else vector, k - 1);
    }
  }

  function CountOf(c: Counters, kind: Class): nat { if kind == Integer then c.general else c.vector }

  // A slot as it should be, from what the registers hold before it.
  ghost predicate Fitting(t: Type, s: Slot, general: nat, vector: nat) {
    && s.ok == Passable(t)
    && (s.inRegister ==> s.ok && Wanted(t) == Some(s.classes) && |s.registers| == |s.classes|)
    && (s.inRegister ==> forall k :: 0 <= k < |s.classes| ==>
         s.registers[k] == (if s.classes[k] == Sse then vector else general) + multiset(s.classes[..k])[s.classes[k]])
    && (Wanted(t).Some? ==>
         (s.inRegister <==>
            && (multiset(Wanted(t).value)[Integer] > 0 ==> general + multiset(Wanted(t).value)[Integer] <= FileSize(Integer))
            && (multiset(Wanted(t).value)[Sse] > 0 ==> vector + multiset(Wanted(t).value)[Sse] <= FileSize(Sse))))
    && (s.ok && !s.inRegister && !Overflows(t) ==>
         s.size % 8 == 0 && (if t.Record? then t.bytes <= s.size < t.bytes + 8 else s.size == if t.Wide? then 16 else 8))
  }

  lemma {:induction false} Sums(a: nat, b: nat, classes: seq<Class>)
    ensures Needs(classes, Integer) == multiset(classes)[Integer] && Needs(classes, Sse) == multiset(classes)[Sse]
    ensures |Numbered(classes, a, b)| == |classes|
    ensures forall k :: 0 <= k < |classes| ==>
              Numbered(classes, a, b)[k] == (if classes[k] == Sse then b else a) + multiset(classes[..k])[classes[k]]
  {
    NeedsCounts(classes, Integer);
    NeedsCounts(classes, Sse);
    forall k | 0 <= k < |classes|
      ensures Numbered(classes, a, b)[k] == (if classes[k] == Sse then b else a) + multiset(classes[..k])[classes[k]]
    {
      NumberedAt(classes, a, b, k);
    }
  }

  lemma {:induction false} SingleClass(kind: Class)
    ensures multiset([kind])[Integer] == (if kind == Integer then 1 else 0) && multiset([kind])[Sse] == (if kind == Sse then 1 else 0)
    ensures multiset([Integer, Integer])[Integer] == 2 && multiset([Integer, Integer])[Sse] == 0
  {
  }

  lemma {:induction false} WordsUp(bytes: nat)
    requires RoundUp(bytes) < SIZE_MAX
    ensures RoundUp(bytes) % 8 == 0 && bytes <= RoundUp(bytes) < bytes + 8
  {
  }

  lemma {:induction false} PlacedFitting(t: Type, c: Counters)
    requires c.general <= 6 && c.vector <= 8
    ensures var (s, c') := PlaceOne(t, c);
            && Fitting(t, s, c.general, c.vector)
            && c'.general == c.general + (if s.inRegister then multiset(s.classes)[Integer] else 0) <= 6
            && c'.vector == c.vector + (if s.inRegister then multiset(s.classes)[Sse] else 0) <= 8
  {
    hide PlaceOne, Fitting;
    if t.Scalar? || t.Array? {
      ScalarFitting(t, c);
    } else if t.Record? {
      RecordFitting(t, c);
    } else {
      WideFitting(t, c);
    }
  }

  lemma {:induction false} ScalarFitting(t: Type, c: Counters)
    requires (t.Scalar? || t.Array?) && c.general <= 6 && c.vector <= 8
    ensures var (s, c') := PlaceOne(t, c);
            && Fitting(t, s, c.general, c.vector)
            && c'.general == c.general + (if s.inRegister then multiset(s.classes)[Integer] else 0) <= 6
            && c'.vector == c.vector + (if s.inRegister then multiset(s.classes)[Sse] else 0) <= 8
  {
    hide AggregatePieces, RoundUp, Needs, Numbered;
    var kind := if t.Scalar? && t.floating then Sse else Integer;
    SingleClass(kind);
    One(c.general, c.vector, kind);
    assert [kind][..0] == [];
  }

  lemma {:induction false} WideFitting(t: Type, c: Counters)
    requires (t.Wide? || t.Missing?) && c.general <= 6 && c.vector <= 8
    ensures var (s, c') := PlaceOne(t, c);
            && Fitting(t, s, c.general, c.vector)
            && c'.general == c.general + (if s.inRegister then multiset(s.classes)[Integer] else 0) <= 6
            && c'.vector == c.vector + (if s.inRegister then multiset(s.classes)[Sse] else 0) <= 8
  {
    hide AggregatePieces, RoundUp, Needs, Numbered;
    SingleClass(Integer);
    Sums(c.general, c.vector, [Integer, Integer]);
  }

  lemma {:induction false} One(general: nat, vector: nat, kind: Class)
    ensures Numbered([kind], general, vector) == [if kind == Sse then vector else general]
    ensures Needs([kind], Integer) == (if kind == Integer then 1 else 0) && Needs([kind], Sse) == (if kind == Sse then 1 else 0)
  {
    assert [kind][1..] == [];
  }

  lemma {:induction false} PassableShape(t: Type)
    requires t.Record?
    ensures Passable(t) <==> !AggregatePieces(t).NotPassable?
  {
    hide Walk;
  }

  lemma {:induction false} RecordFitting(t: Type, c: Counters)
    requires t.Record? && c.general <= 6 && c.vector <= 8
    ensures var (s, c') := PlaceOne(t, c);
            && Fitting(t, s, c.general, c.vector)
            && c'.general == c.general + (if s.inRegister then multiset(s.classes)[Integer] else 0) <= 6
            && c'.vector == c.vector + (if s.inRegister then multiset(s.classes)[Sse] else 0) <= 8
  {
    hide AggregatePieces, RoundUp, Needs, Numbered, Passable;
    PassableShape(t);
    if AggregatePieces(t).Eightbytes? { Sums(c.general, c.vector, AggregatePieces(t).classes); SmallEightbytes(t); }
    if RoundUp(t.bytes) < SIZE_MAX { WordsUp(t.bytes); }
    Saturates(t.bytes);
  }

  lemma {:induction false} SmallEightbytes(t: Type)
    requires t.Record? && AggregatePieces(t).Eightbytes?
    ensures t.bytes <= 16 && RoundUp(t.bytes) < SIZE_MAX
  {
    hide Walk;
  }

  lemma {:induction false} Saturates(bytes: nat)
    ensures RoundUp(bytes) <= SIZE_MAX
  {
  }

  lemma {:induction false} HeldCounted(types: seq<Type>, n: nat, returnsMemory: bool)
    requires n <= |types|
    ensures var c := After(types, n, Start(returnsMemory));
            && c.general == Held(types, n, returnsMemory, Integer) <= 6 && c.vector == Held(types, n, returnsMemory, Sse) <= 8
  {
    hide PlaceOne, Fitting;
    if n > 0 {
      HeldCounted(types, n - 1, returnsMemory);
      PlacedFitting(types[n - 1], After(types, n - 1, Start(returnsMemory)));
    }
  }

  // Every argument, whatever the types: in registers it travels in the classes its
  // type asks for, each eightbyte in the next register of its file; it is on the
  // stack exactly when a file it asks for lacks room, or its type asks for none; and
  // there it takes whole words, no more than it needs.
  lemma {:induction false} ArgumentPlaced(types: seq<Type>, i: nat, returnsMemory: bool)
    requires i < |types|
    ensures Fitting(types[i], SlotOf(types, i, returnsMemory), Held(types, i, returnsMemory, Integer), Held(types, i, returnsMemory, Sse))
  {
    hide PlaceOne, Fitting;
    HeldCounted(types, i, returnsMemory);
    PlacedFitting(types[i], After(types, i, Start(returnsMemory)));
  }

  // A floating argument goes to the vector file however full the general one is.
  lemma {:induction false} FloatingArgument(types: seq<Type>, i: nat, returnsMemory: bool)
    requires i < |types| && types[i].Scalar? && types[i].floating
    ensures var s, held := SlotOf(types, i, returnsMemory), Held(types, i, returnsMemory, Sse);
            && s.ok && (s.inRegister <==> held < 8) && (s.inRegister ==> s.classes == [Sse] && s.registers == [held])
  {
    ArgumentPlaced(types, i, returnsMemory);
    SingleClass(Sse);
    assert [Sse][..0] == [];
  }

  predicate IntegerScalar(t: Type) { t.Array? || (t.Scalar? && !t.floating) }

  // An integer or pointer takes the next general register, or the next stack word
  // when there is none.
  lemma {:induction false} PlaceInteger(t: Type, c: Counters)
    requires IntegerScalar(t) && c.general <= 6 && c.stack % 8 == 0 && c.stack <= 512
    ensures PlaceOne(t, c)
         == if c.general < 6 then (Slot(true, true, false, [Integer], [c.general], 0, 8), c.(general := c.general + 1))
            else (Slot(true, false, false, [], [], c.stack, 8), c.(stack := c.stack + 8))
  {
    hide AggregatePieces, Available, Overflows;
    assert [Integer][1..] == [];
    assert Needs([Integer], Integer) == 1 && Needs([Integer], Sse) == 0;
    assert Numbered([], c.general + 1, c.vector) == [];
    assert Numbered([Integer], c.general, c.vector) == [c.general];
    assert RoundUp(c.stack) == c.stack;
  }

  // With integer and pointer arguments only, the first six take the registers in
  // order and the others the stack words in order.
  lemma {:induction false} IntegerArguments(types: seq<Type>, i: nat)
    requires forall k :: 0 <= k < |types| ==> IntegerScalar(types[k])
    requires i <= |types| <= 64
    ensures After(types, i, Start(false)) == Counters(if i < 6 then i else 6, 0, if i < 6 then 0 else 8 * (i - 6))
    ensures i < |types| ==>
              SlotOf(types, i, false) == (if i < 6 then Slot(true, true, false, [Integer], [i], 0, 8)
                                          else Slot(true, false, false, [], [], 8 * (i - 6), 8))
  {
    hide PlaceOne, IntegerScalar;
    if i > 0 {
      IntegerArguments(types, i - 1);
      PlaceInteger(types[i - 1], After(types, i - 1, Start(false)));
    }
    if i < |types| { PlaceInteger(types[i], After(types, i, Start(false))); }
  }

  lemma {:induction false} StepTo(types: seq<Type>, i: nat, returnsMemory: bool)
    requires i < |types|
    ensures PlaceOne(types[i], After(types, i, Start(returnsMemory)))
         == (SlotOf(types, i, returnsMemory), After(types, i + 1, Start(returnsMemory)))
  {
    hide PlaceOne;
  }

  lemma {:induction false} StepFrom(types: seq<Type>, returnsMemory: bool)
    ensures After(types, 0, Start(returnsMemory)) == Start(returnsMemory)
  {
  }

  // The assignment as it runs, filling the caller's slots.
  method AssignArguments(types: seq<Type>, returnsMemory: bool, slots: array<Slot>) returns (area: nat)
    requires slots.Length == |types|
    modifies slots
    ensures (forall i :: 0 <= i < |types| ==> !Overflows(types[i])) ==>
              && (forall i :: 0 <= i < |types| ==> slots[i] == SlotOf(types, i, returnsMemory))
              && area == RoundUp(After(types, |types|, Start(returnsMemory)).stack)
    ensures (exists i :: 0 <= i < |types| && Overflows(types[i])) ==>
              area == 0 && exists i :: 0 <= i < |types| && Overflows(types[i]) && !slots[i].ok
  {
    hide PlaceOne, Overflows, SlotOf, After, RoundUp;
    StepFrom(types, returnsMemory);
    var c, i := Start(returnsMemory), 0;
    while i < |types|
      invariant 0 <= i <= |types| && c == After(types, i, Start(returnsMemory))
      invariant forall k :: 0 <= k < i ==> slots[k] == SlotOf(types, k, returnsMemory) && !Overflows(types[k])
    {
      if Overflows(types[i]) {
        slots[i] := Refused;
        return 0;
      }
      StepTo(types, i, returnsMemory);
      var (s, c1) := PlaceOne(types[i], c);
      slots[i] := s;
      c := c1;
      i := i + 1;
    }
    area := RoundUp(c.stack);
  }
}
