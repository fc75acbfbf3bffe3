// Precedence climbing over the ten binary levels of C (sections 6.5.5 to 6.5.14
// of C17), as the parser builds trees.
module Precedence {
  import opened Lists

  datatype Symbol =
    | Star | Slash | Percent | Plus | Minus | ShiftLeft | ShiftRight | Less | Greater | LessEqual | GreaterEqual
    | Equal | NotEqual | Ampersand | Caret | Bar | AndAnd | OrOr | Bang | Tilde | Open | Close | Other

  // A word of 64 bits and whether it counts as unsigned.
  datatype Value = Value(bits: nat, unsigned: bool)

  datatype Token = Literal(value: Value) | Sym(symbol: Symbol)

  datatype Tree = Leaf(value: Value) | Prefix(symbol: Symbol, operand: Tree) | Binary(symbol: Symbol, left: Tree, right: Tree)

  // No level at all is level 0.
  function BinaryPrecedence(s: Symbol): nat {
    match s
    case Star => 10
    case Slash => 10
    case Percent => 10
    case Plus => 9
    case Minus => 9
    case ShiftLeft => 8
    case ShiftRight => 8
    case Less => 7
    case Greater => 7
    case LessEqual => 7
    case GreaterEqual => 7
    case Equal => 6
    case NotEqual => 6
    case Ampersand => 5
    case Caret => 4
    case Bar => 3
    case AndAnd => 2
    case OrOr => 1
    case Bang => 0
    case Tilde => 0
    case Open => 0
    case Close => 0
    case Other => 0
  }

  const HIGHEST: nat := 11

  predicate IsPrefix(s: Symbol) { s == Bang || s == Tilde || s == Plus || s == Minus }

  function Level(ts: List<Token>): nat {
    if ts.Cons? && ts.head.Sym? then BinaryPrecedence(ts.head.symbol) else 0
  }

  datatype Parsed<T> = Failed | Parsed(result: T, rest: List<Token>)

  function ParseOperand(ts: List<Token>): (p: Parsed<Tree>)
    ensures p.Parsed? ==> Len(p.rest) < Len(ts)
    decreases Len(ts), 0
  {
    match ts
    case Nil => Failed
    case Cons(Literal(v), rest) => Parsed(Leaf(v), rest)
    case Cons(Sym(s), rest) =>
      if IsPrefix(s) then
        var operand := ParseOperand(rest);
        if operand.Failed? then Failed else Parsed(Prefix(s, operand.result), operand.rest)
      else if s == Open then
        var inner := ParseBinary(rest, 0);
        if inner.Failed? || inner.rest.Nil? || inner.rest.head != Sym(Close) then Failed else Parsed(inner.result, inner.rest.tail)
      else Failed
  }

  function ParseBinary(ts: List<Token>, minimum: nat): (p: Parsed<Tree>)
    ensures p.Parsed? ==> Len(p.rest) < Len(ts)
    decreases Len(ts), 2
  {
    var first := ParseOperand(ts);
    if first.Failed? then Failed else Climb(first.result, first.rest, minimum)
  }

  // What the loop makes of a left operand and the tokens after it.
  function Climb(left: Tree, ts: List<Token>, minimum: nat): (p: Parsed<Tree>)
    ensures p.Parsed? ==> Len(p.rest) <= Len(ts)
    decreases Len(ts), 1
  {
    if Level(ts) == 0 || Level(ts) < minimum then Parsed(left, ts)
    else
      var right := ParseBinary(ts.tail, Level(ts) + 1);
      if right.Failed? then Failed else Climb(Binary(ts.head.symbol, left, right.result), right.rest, minimum)
  }

  predicate WellFormed(t: Tree) {
    match t
    case Leaf(_) => true
    case Prefix(s, a) => IsPrefix(s) && WellFormed(a)
    case Binary(s, a, b) => BinaryPrecedence(s) > 0 && WellFormed(a) && WellFormed(b)
  }

  // The tokens of a tree where an operator below the level needs parentheses, and
  // nowhere else, followed by more tokens.
  function Print(t: Tree, level: nat, more: List<Token>): List<Token>
    decreases t, 1
  {
    if t.Binary? && BinaryPrecedence(t.symbol) < level then Cons(Sym(Open), PrintBare(t, Cons(Sym(Close), more)))
    else PrintBare(t, more)
  }

  function PrintBare(t: Tree, more: List<Token>): List<Token>
    decreases t, 0
  {
    match t
    case Leaf(v) => Cons(Literal(v), more)
    case Prefix(s, a) => Cons(Sym(s), Print(a, HIGHEST, more))
    case Binary(s, a, b) => Print(a, BinaryPrecedence(s), Cons(Sym(s), Print(b, BinaryPrecedence(s) + 1, more)))
  }

  // Parsing the print of a tree at least as tight as the minimum goes on with the
  // tree as the left operand of what follows.
  lemma {:induction false} ParsePrinted(t: Tree, level: nat, minimum: nat, more: List<Token>)
    requires WellFormed(t) && minimum <= level <= HIGHEST && (t.Binary? ==> Level(more) <= level)
    ensures ParseBinary(Print(t, level, more), minimum) == Climb(t, more, minimum)
    decreases t, 2
  {
    if t.Binary? && BinaryPrecedence(t.symbol) >= level {
      BarePrinted(t, minimum, more);
    } else {
      OperandPrinted(t, level, more);
    }
  }

  lemma {:induction false} BarePrinted(t: Tree, minimum: nat, more: List<Token>)
    requires WellFormed(t) && t.Binary? && minimum <= BinaryPrecedence(t.symbol) && Level(more) <= BinaryPrecedence(t.symbol)
    ensures ParseBinary(PrintBare(t, more), minimum) == Climb(t, more, minimum)
    decreases t, 0
  {
    var p := BinaryPrecedence(t.symbol);
    var tail := Print(t.right, p + 1, more);
    PrecedenceRange(t.symbol);
    ParsePrinted(t.left, p, minimum, Cons(Sym(t.symbol), tail));
    ParsePrinted(t.right, p + 1, p + 1, more);
  }

  lemma {:induction false} PrecedenceRange(s: Symbol)
    ensures BinaryPrecedence(s) < HIGHEST
  {
  }

  // A tree printed as an operand: a literal, a prefixed operand or parentheses.
  lemma {:induction false} OperandPrinted(t: Tree, level: nat, more: List<Token>)
    requires WellFormed(t) && (t.Binary? ==> BinaryPrecedence(t.symbol) < level)
    ensures ParseOperand(Print(t, level, more)) == Parsed(t, more)
    decreases t, 1
  {
    match t {
      case Leaf(_) =>
      case Prefix(_, a) =>
        if a.Binary? { PrecedenceRange(a.symbol); }
        OperandPrinted(a, HIGHEST, more);
      case Binary(_, _, _) => BarePrinted(t, 0, Cons(Sym(Close), more));
    }
  }

  // Parsing undoes printing: every token is consumed and the tree comes back, with
  // operators of one level grouped to the left.
  lemma {:induction false} RoundTrip(t: Tree)
    requires WellFormed(t)
    ensures ParseBinary(Print(t, 0, Nil), 0) == Parsed(t, Nil)
  {
    ParsePrinted(t, 0, 0, Nil);
  }

  // Nothing but well-formed trees comes out of the parser.
  lemma {:induction false} OperandWellFormed(ts: List<Token>)
    ensures ParseOperand(ts).Parsed? ==> WellFormed(ParseOperand(ts).result)
    decreases Len(ts), 0
  {
    match ts {
      case Nil =>
      case Cons(Literal(_), _) =>
      case Cons(Sym(s), rest) => if IsPrefix(s) { OperandWellFormed(rest); } else { BinaryWellFormed(rest, 0); }
    }
  }

  lemma {:induction false} BinaryWellFormed(ts: List<Token>, minimum: nat)
    ensures ParseBinary(ts, minimum).Parsed? ==> WellFormed(ParseBinary(ts, minimum).result)
    decreases Len(ts), 2
  {
    OperandWellFormed(ts);
    var first := ParseOperand(ts);
    if first.Parsed? { ClimbWellFormed(first.result, first.rest, minimum); }
  }

  lemma {:induction false} ClimbWellFormed(left: Tree, ts: List<Token>, minimum: nat)
    requires WellFormed(left)
    ensures Climb(left, ts, minimum).Parsed? ==> WellFormed(Climb(left, ts, minimum).result)
    decreases Len(ts), 1
  {
    if Level(ts) > 0 && Level(ts) >= minimum {
      BinaryWellFormed(ts.tail, Level(ts) + 1);
      var right := ParseBinary(ts.tail, Level(ts) + 1);
      if right.Parsed? { ClimbWellFormed(Binary(ts.head.symbol, left, right.result), right.rest, minimum); }
    }
  }

  function From(tokens: seq<Token>, i: nat): List<Token>
    requires i <= |tokens|
    decreases |tokens| - i
  {
    if i == |tokens| then Nil else Cons(tokens[i], From(tokens, i + 1))
  }

  lemma {:induction false} FromLength(tokens: seq<Token>, i: nat)
    requires i <= |tokens|
    ensures Len(From(tokens, i)) == |tokens| - i
    decreases |tokens| - i
  {
    if i < |tokens| { FromLength(tokens, i + 1); }
  }

  // The parser and its position.
  class Parser {
    const tokens: seq<Token>
    var position: nat

    ghost predicate Valid()
      reads this
    {
      position <= |tokens|
    }

    ghost function Rest(): List<Token>
      reads this
      requires Valid()
    {
      From(tokens, position)
    }

    constructor (tokens: seq<Token>)
      ensures Valid() && this.tokens == tokens && position == 0
    {
      this.tokens := tokens;
      position := 0;
    }

    // One unary expression.
    method Operand() returns (ok: bool, tree: Tree)
      requires Valid()
      modifies this
      ensures Valid() && position >= old(position) && (ok ==> position > old(position))
      ensures var p := ParseOperand(old(Rest())); ok == p.Parsed? && (ok ==> p == Parsed(tree, Rest()))
      decreases |tokens| - position, 0
    {
      tree := Leaf(Value(0, false));
      if position >= |tokens| { return false, tree; }
      var token := tokens[position];
      position := position + 1;
      if token.Literal? { return true, Leaf(token.value); }
      if IsPrefix(token.symbol) {
        var operand;
        ok, operand := Operand();
        return ok, Prefix(token.symbol, operand);
      }
      if token.symbol != Open { return false, tree; }
      ok, tree := BinaryLevel(0);
      if ok {
        ok := position < |tokens| && tokens[position] == Sym(Close);
        if ok { position := position + 1; }
      }
    }

    method BinaryLevel(minimum: nat) returns (ok: bool, tree: Tree)
      requires Valid()
      modifies this
      ensures Valid() && position >= old(position) && (ok ==> position > old(position))
      ensures var p := ParseBinary(old(Rest()), minimum); ok == p.Parsed? && (ok ==> p == Parsed(tree, Rest()))
      decreases |tokens| - position, 1
    {
      ghost var start := position;
      ok, tree := Operand();
      if !ok { return; }
      while position < |tokens| && tokens[position].Sym? && BinaryPrecedence(tokens[position].symbol) > 0
            && BinaryPrecedence(tokens[position].symbol) >= minimum
        invariant Valid() && position > start && ok
        invariant ParseBinary(old(Rest()), minimum) == Climb(tree, Rest(), minimum)
        decreases |tokens| - position
      {
        var symbol := tokens[position].symbol;
        position := position + 1;
        var right;
        ok, right := BinaryLevel(BinaryPrecedence(symbol) + 1);
        if !ok { return; }
        tree := Binary(symbol, tree, right);
      }
    }
  }
}
