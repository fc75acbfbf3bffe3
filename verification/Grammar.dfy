// The grammar of expressions (sections 6.5.1 and 6.5.3 to 6.5.14 of C17), and that
// precedence climbing parses just what it derives.
module Grammar {
  import opened Options
  import opened Lists
  import opened Precedence
  import Expressions

  datatype Nonterminal =
    | LogicalOr | LogicalAnd | InclusiveOr | ExclusiveOr | And | Equality | Relational | Shift | Additive | Multiplicative | Unary

  // Every binary nonterminal is its operand alone, or itself, one of its operators
  // and its operand.
  function Operators(n: Nonterminal): set<Symbol> {
    match n
    case LogicalOr => {OrOr}
    case LogicalAnd => {AndAnd}
    case InclusiveOr => {Bar}
    case ExclusiveOr => {Caret}
    case And => {Ampersand}
    case Equality => {Equal, NotEqual}
    case Relational => {Less, Greater, LessEqual, GreaterEqual}
    case Shift => {ShiftLeft, ShiftRight}
    case Additive => {Plus, Minus}
    case Multiplicative => {Star, Slash, Percent}
    case Unary => {}
  }

  function Operand(n: Nonterminal): Nonterminal {
    match n
    case LogicalOr => LogicalAnd
    case LogicalAnd => InclusiveOr
    case InclusiveOr => ExclusiveOr
    case ExclusiveOr => And
    case And => Equality
    case Equality => Relational
    case Relational => Shift
    case Shift => Additive
    case Additive => Multiplicative
    case Multiplicative => Unary
    case Unary => Unary
  }

  function Height(n: Nonterminal): nat {
    match n
    case LogicalOr => 10
    case LogicalAnd => 9
    case InclusiveOr => 8
    case ExclusiveOr => 7
    case And => 6
    case Equality => 5
    case Relational => 4
    case Shift => 3
    case Additive => 2
    case Multiplicative => 1
    case Unary => 0
  }

  // The nonterminal derives a tree from all of the tokens.
  ghost predicate Derives(n: Nonterminal, ts: seq<Token>, t: Tree)
    decreases |ts|, Height(n), 1
  {
    if n.Unary? then DerivesUnary(ts, t)
    else
      || Derives(Operand(n), ts, t)
      || (t.Binary? && t.symbol in Operators(n)
          && exists i :: 0 <= i < |ts| && ts[i] == Sym(t.symbol) && Derives(n, ts[..i], t.left) && Derives(Operand(n), ts[i + 1..], t.right))
  }

  // A constant, a unary operator and its operand, or an expression in parentheses.
  ghost predicate DerivesUnary(ts: seq<Token>, t: Tree)
    decreases |ts|, 0, 0
  {
    || (t.Leaf? && ts == [Literal(t.value)])
    || (t.Prefix? && t.symbol in {Bang, Tilde, Plus, Minus} && |ts| > 0 && ts[0] == Sym(t.symbol) && Derives(Unary, ts[1..], t.operand))
    || (|ts| > 2 && ts[0] == Sym(Open) && ts[|ts| - 1] == Sym(Close) && Derives(LogicalOr, ts[1..|ts| - 1], t))
  }

  // The tokens, and then more.
  function Before(ts: seq<Token>, more: List<Token>): List<Token>
    decreases |ts|
  {
    if ts == [] then more else Cons(ts[0], Before(ts[1..], more))
  }

  lemma {:induction false} BeforeAppend(ss: seq<Token>, ts: seq<Token>, more: List<Token>)
    ensures Before(ss + ts, more) == Before(ss, Before(ts, more))
    decreases |ss|
  {
    if ss == [] {
      assert ss + ts == ts;
    } else {
      assert (ss + ts)[1..] == ss[1..] + ts;
      BeforeAppend(ss[1..], ts, more);
    }
  }

  lemma {:induction false} BeforeSplit(ts: seq<Token>, i: nat, more: List<Token>)
    requires i < |ts|
    ensures Before(ts, more) == Before(ts[..i], Cons(ts[i], Before(ts[i + 1..], more)))
  {
    assert ts == ts[..i] + ts[i..];
    BeforeAppend(ts[..i], ts[i..], more);
    assert ts[i..][1..] == ts[i + 1..];
  }

  function LevelOf(n: Nonterminal): nat { 11 - Height(n) }

  function At(level: nat): Nonterminal
    requires 1 <= level <= 11
  {
    [LogicalOr, LogicalAnd, InclusiveOr, ExclusiveOr, And, Equality, Relational, Shift, Additive, Multiplicative, Unary][level - 1]
  }

  // The table of precedences is the grammar's.
  lemma {:induction false} Precedences(s: Symbol, n: Nonterminal)
    ensures s in Operators(n) <==> BinaryPrecedence(s) == LevelOf(n)
    ensures !n.Unary? ==> LevelOf(Operand(n)) == LevelOf(n) + 1
  {
  }

  // What a level derives the looser ones derive.
  lemma {:induction false} Looser(level: nat, tighter: nat, ts: seq<Token>, t: Tree)
    requires 1 <= level <= tighter <= 11 && Derives(At(tighter), ts, t)
    ensures Derives(At(level), ts, t)
    decreases tighter - level
  {
    if level < tighter {
      assert Operand(At(tighter - 1)) == At(tighter);
      Looser(level, tighter - 1, ts, t);
    }
  }

  // What is derived is parsed: it is the left operand of what follows.
  lemma {:induction false} DerivedIsParsed(n: Nonterminal, ts: seq<Token>, t: Tree, more: List<Token>, minimum: nat)
    requires Derives(n, ts, t) && minimum <= LevelOf(n) && Level(more) <= LevelOf(n)
    ensures ParseBinary(Before(ts, more), minimum) == Climb(t, more, minimum)
    decreases |ts|, Height(n), 1
  {
    hide BinaryPrecedence, Before;
    if n.Unary? {
      UnaryIsParsed(ts, t, more);
    } else if Derives(Operand(n), ts, t) {
      DerivedIsParsed(Operand(n), ts, t, more, minimum);
    } else {
      var i :| 0 <= i < |ts| && ts[i] == Sym(t.symbol) && Derives(n, ts[..i], t.left) && Derives(Operand(n), ts[i + 1..], t.right);
      OperatorIsParsed(n, ts, t, i, more, minimum);
    }
  }

  lemma {:induction false} OperatorIsParsed(n: Nonterminal, ts: seq<Token>, t: Tree, i: nat, more: List<Token>, minimum: nat)
    requires !n.Unary? && t.Binary? && t.symbol in Operators(n) && i < |ts| && ts[i] == Sym(t.symbol)
    requires Derives(n, ts[..i], t.left) && Derives(Operand(n), ts[i + 1..], t.right)
    requires minimum <= LevelOf(n) && Level(more) <= LevelOf(n)
    ensures ParseBinary(Before(ts, more), minimum) == Climb(t, more, minimum)
    decreases |ts|, Height(n), 0
  {
    hide BinaryPrecedence, Derives, Operators, Before;
    var rest := Cons(ts[i], Before(ts[i + 1..], more));
    Precedences(t.symbol, n);
    BeforeSplit(ts, i, more);
    DerivedIsParsed(n, ts[..i], t.left, rest, minimum);
    DerivedIsParsed(Operand(n), ts[i + 1..], t.right, more, LevelOf(n) + 1);
  }

  lemma {:induction false} UnaryIsParsed(ts: seq<Token>, t: Tree, more: List<Token>)
    requires DerivesUnary(ts, t)
    ensures ParseOperand(Before(ts, more)) == Parsed(t, more)
    decreases |ts|, 0, 0
  {
    if t.Leaf? && ts == [Literal(t.value)] {
      assert ts[1..] == [];
    } else if t.Prefix? && |ts| > 0 && ts[0] == Sym(t.symbol) && Derives(Unary, ts[1..], t.operand) && IsPrefix(t.symbol) {
      UnaryIsParsed(ts[1..], t.operand, more);
    } else {
      var inner := ts[1..|ts| - 1];
      assert ts[1..] == inner + [Sym(Close)];
      BeforeAppend(inner, [Sym(Close)], more);
      assert [Sym(Close)][1..] == [];
      DerivedIsParsed(LogicalOr, inner, t, Cons(Sym(Close), more), 0);
    }
  }

  // What is parsed is derived, by the level it was looked for at.
  lemma {:induction false} ParsedIsDerived(ts: List<Token>, minimum: nat) returns (s: seq<Token>)
    requires minimum <= 11 && ParseBinary(ts, minimum).Parsed?
    ensures var p := ParseBinary(ts, minimum);
            && ts == Before(s, p.rest) && Derives(At(if minimum == 0 then 1 else minimum), s, p.result)
            && (Level(p.rest) == 0 || Level(p.rest) < minimum)
    decreases Len(ts), 2
  {
    hide BinaryPrecedence;
    var first := ParseOperand(ts);
    var head := OperandIsDerived(ts);
    HighestLevel(first.rest);
    var tail := ClimbIsDerived(head, first.result, 11, first.rest, minimum);
    BeforeAppend(head, tail, ParseBinary(ts, minimum).rest);
    s := head + tail;
  }

  lemma {:induction false} HighestLevel(ts: List<Token>)
    ensures Level(ts) <= 10
  {
  }

  lemma {:induction false} OperandIsDerived(ts: List<Token>) returns (s: seq<Token>)
    requires ParseOperand(ts).Parsed?
    ensures ts == Before(s, ParseOperand(ts).rest) && DerivesUnary(s, ParseOperand(ts).result)
    decreases Len(ts), 0
  {
    var p := ParseOperand(ts);
    if ts.head.Literal? {
      s := [ts.head];
    } else if IsPrefix(ts.head.symbol) {
      var inner := OperandIsDerived(ts.tail);
      s := [ts.head] + inner;
      assert s[1..] == inner;
    } else {
      var inner := ParsedIsDerived(ts.tail, 0);
      var q := ParseBinary(ts.tail, 0);
      s := [ts.head] + inner + [Sym(Close)];
      assert s[1..|s| - 1] == inner && s[1..] == inner + [Sym(Close)];
      Nonempty(LogicalOr, inner, q.result);
      BeforeAppend(inner, [Sym(Close)], p.rest);
      assert [Sym(Close)][1..] == [];
    }
  }

  lemma {:induction false} Nonempty(n: Nonterminal, ts: seq<Token>, t: Tree)
    requires Derives(n, ts, t)
    ensures |ts| > 0
    decreases Height(n)
  {
    if !n.Unary? && Derives(Operand(n), ts, t) { Nonempty(Operand(n), ts, t); }
  }

  // A left operand that some level derives, followed by no tighter operator.
  lemma {:induction false} ClimbIsDerived(head: seq<Token>, left: Tree, level: nat, ts: List<Token>, minimum: nat) returns (s: seq<Token>)
    requires minimum <= level && 1 <= level <= 11 && Derives(At(level), head, left) && Level(ts) <= level
    requires Climb(left, ts, minimum).Parsed?
    ensures var p := Climb(left, ts, minimum);
            && ts == Before(s, p.rest) && Derives(At(if minimum == 0 then 1 else minimum), head + s, p.result)
            && (Level(p.rest) == 0 || Level(p.rest) < minimum)
    decreases Len(ts), 1
  {
    hide BinaryPrecedence, Derives;
    if Level(ts) == 0 || Level(ts) < minimum {
      s := [];
      assert head + s == head;
      Looser(if minimum == 0 then 1 else minimum, level, head, left);
    } else {
      var p, op := Level(ts), ts.head;
      HighestLevel(ts);
      var right := ParseBinary(ts.tail, p + 1);
      var operand := ParsedIsDerived(ts.tail, p + 1);
      Looser(p, level, head, left);
      var longer := head + [op] + operand;
      OneOperator(p, head, op, operand, left, right.result);
      var tail := ClimbIsDerived(longer, Binary(op.symbol, left, right.result), p, right.rest, minimum);
      s := [op] + operand + tail;
      assert head + s == longer + tail && s[1..] == operand + tail;
      BeforeAppend(operand, tail, Climb(left, ts, minimum).rest);
    }
  }

  lemma {:induction false} OneOperator(p: nat, head: seq<Token>, op: Token, operand: seq<Token>, left: Tree, right: Tree)
    requires 1 <= p <= 10 && op.Sym? && BinaryPrecedence(op.symbol) == p
    requires Derives(At(p), head, left) && Derives(At(p + 1), operand, right)
    ensures Derives(At(p), head + [op] + operand, Binary(op.symbol, left, right))
  {
    hide BinaryPrecedence;
    var ts := head + [op] + operand;
    Precedences(op.symbol, At(p));
    assert ts[|head|] == op && ts[..|head|] == head && ts[|head| + 1..] == operand;
    assert Operand(At(p)) == At(p + 1) && LevelOf(At(p)) == p;
  }

  lemma {:induction false} FromIsBefore(ts: seq<Token>, i: nat)
    requires i <= |ts|
    ensures From(ts, i) == Before(ts[i..], Nil)
    decreases |ts| - i
  {
    if i < |ts| {
      FromIsBefore(ts, i + 1);
      assert ts[i..][1..] == ts[i + 1..];
    }
  }

  // The parser accepts a list of tokens as a tree exactly when the grammar derives
  // the tree from it.
  lemma {:induction false} ParsesGrammar(ts: seq<Token>, t: Tree)
    ensures ParseBinary(From(ts, 0), 0) == Parsed(t, Nil) <==> Derives(LogicalOr, ts, t)
  {
    hide BinaryPrecedence, Derives;
    FromIsBefore(ts, 0);
    assert ts[0..] == ts;
    if Derives(LogicalOr, ts, t) { DerivedIsParsed(LogicalOr, ts, t, Nil, 0); }
    if ParseBinary(Before(ts, Nil), 0) == Parsed(t, Nil) {
      var s := ParsedIsDerived(Before(ts, Nil), 0);
      SameTokens(ts, s);
    }
  }

  lemma {:induction false} SameTokens(ss: seq<Token>, ts: seq<Token>)
    requires Before(ss, Nil) == Before(ts, Nil)
    ensures ss == ts
    decreases |ss|
  {
    if ss != [] && ts != [] {
      SameTokens(ss[1..], ts[1..]);
      assert ss == [ss[0]] + ss[1..] && ts == [ts[0]] + ts[1..];
    }
  }

  // No tokens are derived as two trees.
  lemma {:induction false} Unambiguous(ts: seq<Token>, t: Tree, u: Tree)
    requires Derives(LogicalOr, ts, t) && Derives(LogicalOr, ts, u)
    ensures t == u
  {
    hide BinaryPrecedence, Derives;
    ParsesGrammar(ts, t);
    ParsesGrammar(ts, u);
  }

  // The preprocessor has a value for a list of tokens exactly when the grammar
  // derives a tree with that value from it.
  lemma {:induction false} ValuesGrammar(ts: seq<Token>, v: Value)
    ensures Expressions.ParseValue(From(ts, 0), 0) == Parsed(v, Nil)
       <==> exists t :: Derives(LogicalOr, ts, t) && Expressions.Evaluate(t) == Some(v)
  {
    hide BinaryPrecedence, Derives, Expressions.Evaluate;
    Expressions.BinaryValue(From(ts, 0), 0);
    var p := ParseBinary(From(ts, 0), 0);
    if p.Parsed? { ParsesGrammar(ts, p.result); }
    if t :| Derives(LogicalOr, ts, t) && Expressions.Evaluate(t) == Some(v) { ParsesGrammar(ts, t); }
  }
}
