// What a macro is replaced by: which tokens a call's arguments are, what becomes of
// the body, and that everything else is passed on.
module MacroCalls {
  import opened Results
  import opened Options
  import opened Macros

  // The newest of the definitions of a name.
  ghost predicate Newest(ms: seq<Macro>, name: string, m: Macro) {
    exists p :: 0 <= p < |ms| && ms[p] == m && m.name == name && forall q :: 0 <= q < p ==> ms[q].name != name
  }

  predicate Named(ms: seq<Macro>, t: Token) { t.kind == Identifier && exists p :: 0 <= p < |ms| && ms[p].name == t.text }

  lemma {:induction false} FindNewest(ms: seq<Macro>, t: Token)
    ensures Find(ms, t).Some? <==> Named(ms, t)
    ensures forall m :: t.kind == Identifier && Newest(ms, t.text, m) ==> Find(ms, t) == Some(m)
    decreases |ms|
  {
    if t.kind == Identifier && ms != [] {
      FindNewest(ms[1..], t);
      if ms[0].name != t.text {
        if Named(ms, t) {
          var p :| 0 <= p < |ms| && ms[p].name == t.text;
          assert ms[1..][p - 1].name == t.text;
        }
        forall m | Newest(ms, t.text, m) ensures Newest(ms[1..], t.text, m) {
          var p :| 0 <= p < |ms| && ms[p] == m && forall q :: 0 <= q < p ==> ms[q].name != t.text;
          assert ms[1..][p - 1] == m;
          forall q | 0 <= q < p - 1 ensures ms[1..][q].name != t.text { assert ms[1..][q] == ms[q + 1]; }
        }
      } else {
        assert ms[0].name == t.text;
      }
    }
  }

  // The body.

  // The k-th parameter stands here, the first of that name.
  ghost predicate Stands(m: Macro, t: Token, k: nat) {
    && t.kind == Identifier && k < |m.parameters| && m.parameters[k] == t.text
    && forall j :: 0 <= j < k ==> m.parameters[j] != t.text
  }

  // What a token of the body becomes: its argument's tokens where a parameter
  // stands, itself anywhere else.
  ghost predicate PieceOf(m: Macro, arguments: seq<seq<Token>>, t: Token, piece: seq<Token>) {
    && (forall k: nat :: Stands(m, t, k) ==> piece == if k < |arguments| then arguments[k] else [])
    && ((forall k: nat :: !Stands(m, t, k)) ==> piece == [t])
  }

  function Joined(pieces: seq<seq<Token>>): seq<Token> {
    if pieces == [] then [] else pieces[0] + Joined(pieces[1..])
  }

  lemma {:induction false} IndexStands(m: Macro, t: Token, i: nat)
    requires i <= |m.parameters| && forall j :: 0 <= j < i ==> t.kind != Identifier || m.parameters[j] != t.text
    ensures var k := ParameterIndex(m, t, i);
            (k < |m.parameters| ==> Stands(m, t, k)) && (k == |m.parameters| ==> forall j: nat :: !Stands(m, t, j))
    decreases |m.parameters| - i
  {
    if i < |m.parameters| && !(t.kind == Identifier && m.parameters[i] == t.text) { IndexStands(m, t, i + 1); }
  }

  // The substituted body is one piece for each of its tokens, in order.
  lemma {:induction false} BodySubstituted(m: Macro, arguments: seq<seq<Token>>, body: seq<Token>, pieces: seq<seq<Token>>)
    requires |pieces| == |body| && forall i :: 0 <= i < |body| ==> PieceOf(m, arguments, body[i], pieces[i])
    ensures Substitute(m, arguments, body) == Joined(pieces)
    decreases |body|
  {
    if body != [] {
      IndexStands(m, body[0], 0);
      assert PieceOf(m, arguments, body[0], pieces[0]);
      forall i | 0 <= i < |body[1..]| ensures PieceOf(m, arguments, body[1..][i], pieces[1..][i]) {
        assert body[1..][i] == body[i + 1] && pieces[1..][i] == pieces[i + 1];
      }
      BodySubstituted(m, arguments, body[1..], pieces[1..]);
    }
  }

  // The arguments.

  // How many parentheses are open after the first i tokens.
  function Depth(ts: seq<Token>, i: nat): int
    requires i <= |ts|
  {
    if i == 0 then 0
    else Depth(ts, i - 1) + if ts[i - 1].text == "(" then 1 else if ts[i - 1].text == ")" then -1 else 0
  }

  ghost predicate Balanced(ts: seq<Token>) {
    Depth(ts, |ts|) == 0 && forall i :: 0 <= i <= |ts| ==> Depth(ts, i) >= 0
  }

  // The k-th argument as it can be written: on one line, its parentheses matched,
  // and no comma outside them unless it is the rest of a variadic call.
  ghost predicate Writable(m: Macro, k: nat, ts: seq<Token>) {
    && Balanced(ts) && (forall i :: 0 <= i < |ts| ==> ts[i].kind != Newline)
    && ((m.variadic && k + 1 >= |m.parameters|) || forall i :: 0 <= i < |ts| && ts[i].text == "," ==> Depth(ts, i) > 0)
  }

  // The arguments from the k-th on, with commas between them, up to the closing
  // parenthesis at the end.
  ghost predicate Written(m: Macro, arguments: seq<seq<Token>>, k: nat, input: seq<Token>, i: nat, end: nat)
    requires k <= |arguments|
    decreases |arguments| - k
  {
    if k == |arguments| then i == end < |input| && input[i].text == ")" && input[i].kind != Newline
    else
      var a, j := arguments[k], i + |arguments[k]|;
      && Writable(m, k, a) && j <= end < |input| && input[i..j] == a
      && (if k + 1 == |arguments| then a != [] && Written(m, arguments, k + 1, input, j, end)
          else !(m.variadic && k + 1 >= |m.parameters|)
               && input[j].text == "," && input[j].kind != Newline && j < end && Written(m, arguments, k + 1, input, j + 1, end))
  }

  lemma {:induction false} EndsInside(m: Macro, arguments: seq<seq<Token>>, k: nat, input: seq<Token>, i: nat, end: nat)
    requires k <= |arguments| && Written(m, arguments, k, input, i, end)
    ensures i <= end < |input| && input[end].text == ")"
    decreases |arguments| - k
  {
    if k < |arguments| {
      var j := i + |arguments[k]|;
      EndsInside(m, arguments, k + 1, input, if k + 1 == |arguments| then j else j + 1, end);
    }
  }

  // One argument is read from its j-th token on.
  lemma {:induction false} ArgumentRead(m: Macro, k: nat, a: seq<Token>, j: nat, input: seq<Token>, i: nat)
    requires j <= |a| && Writable(m, k, a) && i + |a| - j < |input| && input[i..i + |a| - j] == a[j..]
    requires var t := input[i + |a| - j];
             t.kind != Newline && (t.text == ")" || (t.text == "," && !(m.variadic && k + 1 >= |m.parameters|)))
    ensures Depth(a, j) >= 0
    ensures var t, e := input[i + |a| - j], i + |a| - j;
            Argument(input, i, m, k, Depth(a, j), a[..j]) == Ok((a, if t.text == ")" then e else e + 1))
    decreases |a| - j
  {
    hide Depth, Writable;
    if j == |a| {
      WholeArgument(m, k, a);
      assert a[..j] == a;
    } else {
      SliceStep(input, i, a, j);
      TokenOfArgument(m, k, a, j);
      ArgumentRead(m, k, a, j + 1, input, i + 1);
    }
  }

  lemma {:induction false} SliceStep(input: seq<Token>, i: nat, a: seq<Token>, j: nat)
    requires j < |a| && i + |a| - j <= |input| && input[i..i + |a| - j] == a[j..]
    ensures input[i] == a[j] && input[i + 1..i + |a| - j] == a[j + 1..] && a[..j] + [a[j]] == a[..j + 1]
  {
    assert input[i] == input[i..i + |a| - j][0];
    assert input[i + 1..i + |a| - j] == input[i..i + |a| - j][1..];
  }

  lemma {:induction false} WholeArgument(m: Macro, k: nat, a: seq<Token>)
    requires Writable(m, k, a)
    ensures Depth(a, |a|) == 0
  {
  }

  lemma {:induction false} TokenOfArgument(m: Macro, k: nat, a: seq<Token>, j: nat)
    requires j < |a| && Writable(m, k, a)
    ensures a[j].kind != Newline && Depth(a, j) >= 0 && Depth(a, j + 1) >= 0
    ensures Depth(a, j + 1) == Depth(a, j) + if a[j].text == "(" then 1 else if a[j].text == ")" then -1 else 0
    ensures a[j].text == "," ==> (m.variadic && k + 1 >= |m.parameters|) || Depth(a, j) > 0
  {
  }

  lemma {:induction false} FirstOfArgument(m: Macro, k: nat, a: seq<Token>)
    requires Writable(m, k, a) && a != []
    ensures a[0].text != ")" && a[0].kind != Newline
  {
    assert Depth(a, 1) >= 0 && Depth(a, 0) == 0;
  }

  lemma {:induction false} ArgumentsRead(m: Macro, arguments: seq<seq<Token>>, k: nat, input: seq<Token>, i: nat, end: nat)
    requires k <= |arguments| && Written(m, arguments, k, input, i, end)
    requires |arguments| <= Capacity(m)
    ensures Arguments(input, i, m, arguments[..k]) == Ok((arguments, end + 1))
    decreases |arguments| - k
  {
    hide Argument, Writable;
    EndsInside(m, arguments, k, input, i, end);
    if k == |arguments| {
      assert arguments[..k] == arguments;
      assert SkipNewlines(input, i) == i;
    } else {
      var a, j := arguments[k], i + |arguments[k]|;
      var last := k + 1 == |arguments|;
      if a != [] {
        FirstOfArgument(m, k, a);
        assert input[i] == input[i..j][0] == a[0];
      }
      assert SkipNewlines(input, i) == i;
      assert input[i..i + |a| - 0] == a[0..] && a[..0] == [];
      ArgumentRead(m, k, a, 0, input, i);
      assert arguments[..k] + [a] == arguments[..k + 1];
      ArgumentsRead(m, arguments, k + 1, input, if last then j else j + 1, end);
    }
  }

  // As many arguments as the macro has parameters; a variadic one may lack its last.
  predicate Enough(m: Macro, n: nat) {
    if m.variadic then |m.parameters| <= n + 1 && n <= Capacity(m) else n == |m.parameters|
  }

  // Reading a call back: the arguments are the ones written, and what follows is what
  // follows the closing parenthesis.
  lemma {:induction false} CallRead(m: Macro, arguments: seq<seq<Token>>, input: seq<Token>, i: nat, end: nat)
    requires i < |input| && Written(m, arguments, 0, input, i + 1, end) && Enough(m, |arguments|)
    ensures end < |input| && ParseArguments(input, i, m) == Ok((arguments, end + 1))
  {
    hide Written, Arguments;
    EndsInside(m, arguments, 0, input, i + 1, end);
    ArgumentsRead(m, arguments, 0, input, i + 1, end);
    assert arguments[..0] == [];
  }

  // Positions are relative: only the tokens from there on matter.

  lemma {:induction false} SkipShifted(input: seq<Token>, d: nat, i: nat)
    requires d <= i <= |input|
    ensures SkipNewlines(input, i) == SkipNewlines(input[d..], i - d) + d
    decreases |input| - i
  {
    if i < |input| {
      assert input[d..][i - d] == input[i];
      SkipShifted(input, d, i + 1);
    }
  }

  function Moved<T>(r: Result<(T, nat)>, d: nat): Result<(T, nat)> {
    if r.Error? then r else Ok((r.value.0, r.value.1 + d))
  }

  lemma {:induction false} ArgumentShifted(input: seq<Token>, d: nat, i: nat, m: Macro, used: nat, depth: nat, taken: seq<Token>)
    requires d <= i <= |input|
    ensures Argument(input, i, m, used, depth, taken) == Moved(Argument(input[d..], i - d, m, used, depth, taken), d)
    decreases |input| - i
  {
    if i < |input| {
      var t := input[i];
      assert input[d..][i - d] == t;
      if t.text == ")" && depth == 0 {}
      else if t.kind == Newline { ArgumentShifted(input, d, i + 1, m, used, depth, taken); }
      else if t.text == "(" { ArgumentShifted(input, d, i + 1, m, used, depth + 1, taken + [t]); }
      else if t.text == ")" { ArgumentShifted(input, d, i + 1, m, used, depth - 1, taken + [t]); }
      else { ArgumentShifted(input, d, i + 1, m, used, depth, taken + [t]); }
    }
  }

  lemma {:induction false} ArgumentsShifted(input: seq<Token>, d: nat, i: nat, m: Macro, taken: seq<seq<Token>>)
    requires d <= i <= |input|
    ensures Arguments(input, i, m, taken) == Moved(Arguments(input[d..], i - d, m, taken), d)
    decreases |input| - i
  {
    hide Argument;
    SkipShifted(input, d, i);
    var start := SkipNewlines(input, i);
    if start < |input| {
      assert input[d..][start - d] == input[start];
      ArgumentShifted(input, d, start, m, |taken|, 0, []);
      var one := Argument(input, start, m, |taken|, 0, []);
      if input[start].text != ")" && one.Ok? { ArgumentsShifted(input, d, one.value.1, m, taken + [one.value.0]); }
    }
  }

  // A call is read the same.
  lemma {:induction false} CallShifted(input: seq<Token>, d: nat, i: nat, m: Macro)
    requires d <= i < |input|
    ensures Calls(input, i) == Calls(input[d..], i - d)
    ensures Calls(input, i) ==>
              ParseArguments(input, SkipNewlines(input, i + 1), m)
              == Moved(ParseArguments(input[d..], SkipNewlines(input[d..], i - d + 1), m), d)
  {
    hide Arguments;
    SkipShifted(input, d, i + 1);
    var j := SkipNewlines(input, i + 1);
    if j < |input| {
      assert input[d..][j - d] == input[j];
      ArgumentsShifted(input, d, j + 1, m, []);
    }
  }

  lemma {:induction false} FromShifted(ms: seq<Macro>, input: seq<Token>, d: nat, i: nat, cx: Context, own: Option<string>)
    requires d <= i <= |input|
    ensures ExpandFrom(ms, input, i, cx, own) == ExpandFrom(ms, input[d..], i - d, cx, own)
    decreases |input| - i
  {
    hide Names, Shown, ParseArguments, Substitute, Find, Expand, SkipNewlines, Expandable, Nested, Then;
    if i < |input| {
      var found := Find(ms, input[i]);
      assert input[d..][i - d] == input[i];
      FromShifted(ms, input, d, i + 1, cx, own);
      if found.Some? {
        CallShifted(input, d, i, found.value);
        if Calls(input, i) {
          var r := ParseArguments(input, SkipNewlines(input, i + 1), found.value);
          if r.Ok? { FromShifted(ms, input, d, r.value.1, cx, own); }
        }
      }
    }
  }

  lemma {:induction false} RestOf(ms: seq<Macro>, input: seq<Token>, i: nat, cx: Context, own: Option<string>)
    requires i <= |input| && cx.depth < MAX_DEPTH
    ensures ExpandFrom(ms, input, i, cx, own) == Expand(ms, input[i..], cx, own)
  {
    FromShifted(ms, input, i, i, cx, own);
  }

  // Expansion.

  // The token may be replaced where it stands: its macro is not being expanded, and
  // it did not come out of its own expansion.
  ghost predicate Free(name: string, t: Token, cx: Context, own: Option<string>) {
    && name !in t.hidden && name !in cx.hideset
    && (own.Some? ==> own.value !in t.hidden && own.value != name)
  }

  // Inside the expansion of one more macro.
  function Inside(cx: Context, name: string): Context { Context(cx.depth + 1, cx.hideset + [name], cx.keepNewlines) }

  function Followed(first: Result<seq<Emitted>>, rest: Result<seq<Emitted>>): Result<seq<Emitted>> {
    if first.Error? then first else if rest.Error? then rest else Ok(first.value + rest.value)
  }

  // An object-like macro's name is replaced by the expansion of its body, and the
  // rest follows.
  lemma {:induction false} ObjectExpands(ms: seq<Macro>, input: seq<Token>, m: Macro, cx: Context, own: Option<string>)
    requires input != [] && input[0].kind == Identifier && Newest(ms, input[0].text, m) && !m.functionLike
    requires Free(m.name, input[0], cx, own) && cx.depth < MAX_DEPTH
    ensures Expand(ms, input, cx, own)
         == Followed(Expand(ms, m.body, Inside(cx, m.name), Some(m.name)), Expand(ms, input[1..], cx, own))
  {
    hide Names, Shown, Arguments, Argument, Substitute, Find, SkipNewlines;
    FindNewest(ms, input[0]);
    RestOf(ms, input, 1, cx, own);
    assert Nested(cx, input[0]) == Inside(cx, m.name);
    hide Expand;
    OneStep(ms, input, cx, own);
  }

  lemma {:induction false} OneStep(ms: seq<Macro>, input: seq<Token>, cx: Context, own: Option<string>)
    requires cx.depth < MAX_DEPTH
    ensures Expand(ms, input, cx, own) == ExpandFrom(ms, input, 0, cx, own)
  {
  }

  // A call of a function-like macro is replaced by the expansion of its body with
  // the arguments put in, and what follows the call follows.
  lemma {:induction false} CallExpands(ms: seq<Macro>, input: seq<Token>, m: Macro, arguments: seq<seq<Token>>, pieces: seq<seq<Token>>,
                                       end: nat, cx: Context, own: Option<string>)
    requires |input| > 1 && input[0].kind == Identifier && Newest(ms, input[0].text, m) && m.functionLike
    requires Free(m.name, input[0], cx, own) && cx.depth < MAX_DEPTH
    requires input[1].text == "(" && input[1].kind != Newline
    requires Written(m, arguments, 0, input, 2, end) && Enough(m, |arguments|)
    requires |pieces| == |m.body| && forall i :: 0 <= i < |m.body| ==> PieceOf(m, arguments, m.body[i], pieces[i])
    ensures end < |input|
    ensures Expand(ms, input, cx, own)
         == Followed(Expand(ms, Joined(pieces), Inside(cx, m.name), Some(m.name)), Expand(ms, input[end + 1..], cx, own))
  {
    hide Names, Shown, Arguments, Argument, Substitute, Find, Expand, Written, PieceOf, Joined;
    FindNewest(ms, input[0]);
    CallRead(m, arguments, input, 1, end);
    BodySubstituted(m, arguments, m.body, pieces);
    RestOf(ms, input, end + 1, cx, own);
    assert Nested(cx, input[0]) == Inside(cx, m.name);
    assert SkipNewlines(input, 1) == 1;
    OneStep(ms, input, cx, own);
  }

  // A token that is no macro's name, or must not be replaced, or is a function-like
  // macro's name without a call, is passed on, marked with the macro it came out of.
  lemma {:induction false} TokenPasses(ms: seq<Macro>, input: seq<Token>, cx: Context, own: Option<string>)
    requires input != [] && input[0].kind != Newline && cx.depth < MAX_DEPTH
    requires Named(ms, input[0]) ==>
               !Free(input[0].text, input[0], cx, own)
               || ((exists m :: Newest(ms, input[0].text, m) && m.functionLike) && (|input| == 1 || (input[1].text != "(" && input[1].kind != Newline)))
    ensures var t := input[0];
            var hidden := if own.None? then t.hidden else t.hidden + {own.value};
            Expand(ms, input, cx, own) == Followed(Ok([Emitted(t.(hidden := hidden), cx.hideset)]), Expand(ms, input[1..], cx, own))
  {
    hide Names, Shown, Arguments, Argument, Substitute, Find, Expand;
    FindNewest(ms, input[0]);
    RestOf(ms, input, 1, cx, own);
    OneStep(ms, input, cx, own);
    if |input| > 1 && input[1].kind != Newline { assert SkipNewlines(input, 1) == 1; }
  }

  lemma {:induction false} NewlinePasses(ms: seq<Macro>, input: seq<Token>, cx: Context, own: Option<string>)
    requires input != [] && input[0].kind == Newline && cx.depth < MAX_DEPTH
    ensures Expand(ms, input, cx, own)
         == Followed(Ok(if cx.keepNewlines then [Emitted(input[0], cx.hideset)] else []), Expand(ms, input[1..], cx, own))
  {
    hide Names, Shown, Arguments, Argument, Substitute, Find, Expand;
    RestOf(ms, input, 1, cx, own);
    OneStep(ms, input, cx, own);
  }

  // Text without macro names passes through, token for token.
  lemma {:induction false} PlainText(ms: seq<Macro>, input: seq<Token>, cx: Context, own: Option<string>)
    requires cx.depth < MAX_DEPTH && forall i :: 0 <= i < |input| ==> !Named(ms, input[i]) && input[i].kind != Newline
    ensures var r := Expand(ms, input, cx, own);
            && r.Ok? && |r.value| == |input|
            && forall i :: 0 <= i < |input| ==> r.value[i].token.text == input[i].text && r.value[i].token.kind == input[i].kind
                                                && r.value[i].within == cx.hideset
    decreases |input|
  {
    hide Expand, Named;
    if input == [] {
      NoText(ms, cx, own);
    } else {
      TokenPasses(ms, input, cx, own);
      forall i | 0 <= i < |input[1..]| ensures !Named(ms, input[1..][i]) && input[1..][i].kind != Newline { assert input[1..][i] == input[i + 1]; }
      PlainText(ms, input[1..], cx, own);
    }
  }

  lemma {:induction false} NoText(ms: seq<Macro>, cx: Context, own: Option<string>)
    requires cx.depth < MAX_DEPTH
    ensures Expand(ms, [], cx, own) == Ok([])
  {
  }

  const SUB := Token("SUB", Identifier, {})
  const FIVE := Token("5", Plain, {})
  const COMMA := Token(",", Plain, {})
  const THREE := Token("3", Plain, {})
  const A := Token("a", Identifier, {})
  const LESS := Token("-", Plain, {})
  const B := Token("b", Identifier, {})

  // #define SUB(a, b) a - b
  const DIFFERENCE := Macro("SUB", true, ["a", "b"], false, [A, LESS, B])

  lemma {:induction false} DifferencePieces()
    ensures var arguments, pieces := [[FIVE], [THREE]], [[FIVE], [LESS], [THREE]];
            forall i :: 0 <= i < 3 ==> PieceOf(DIFFERENCE, arguments, DIFFERENCE.body[i], pieces[i])
    ensures Joined([[FIVE], [LESS], [THREE]]) == [FIVE, LESS, THREE]
  {
    var arguments, pieces := [[FIVE], [THREE]], [[FIVE], [LESS], [THREE]];
    assert Stands(DIFFERENCE, A, 0) && Stands(DIFFERENCE, B, 1);
    assert PieceOf(DIFFERENCE, arguments, A, [FIVE]);
    assert PieceOf(DIFFERENCE, arguments, LESS, [LESS]);
    assert PieceOf(DIFFERENCE, arguments, B, [THREE]);
    assert pieces[1..] == [[LESS], [THREE]] && pieces[1..][1..] == [[THREE]] && pieces[1..][1..][1..] == [];
    assert Joined(pieces[1..][1..][1..]) == [];
    assert Joined(pieces[1..][1..]) == [THREE] + [];
    assert Joined(pieces[1..]) == [LESS] + ([THREE] + []);
  }

  lemma {:induction false} DifferenceCall()
    ensures Written(DIFFERENCE, [[FIVE], [THREE]], 0, [SUB, OPEN, FIVE, COMMA, THREE, CLOSE], 2, 5)
  {
    var arguments, input := [[FIVE], [THREE]], [SUB, OPEN, FIVE, COMMA, THREE, CLOSE];
    OneToken(DIFFERENCE, 0, FIVE);
    OneToken(DIFFERENCE, 1, THREE);
    assert input[2..3] == [FIVE] && input[4..5] == [THREE];
    assert Written(DIFFERENCE, arguments, 2, input, 5, 5);
    assert Written(DIFFERENCE, arguments, 1, input, 4, 5);
  }

  // SUB(5, 3) is 5 - 3.
  lemma {:induction false} OrderKept()
    ensures var r := Expand([DIFFERENCE], [SUB, OPEN, FIVE, COMMA, THREE, CLOSE], Context(0, [], false), None);
            r.Ok? && Texts(r.value) == ["5", "-", "3"]
  {
    hide Expand, Written, PieceOf, Joined;
    var ms, input, cx := [DIFFERENCE], [SUB, OPEN, FIVE, COMMA, THREE, CLOSE], Context(0, [], false);
    assert ms[0] == DIFFERENCE && Newest(ms, "SUB", DIFFERENCE);
    DifferencePieces();
    DifferenceCall();
    CallExpands(ms, input, DIFFERENCE, [[FIVE], [THREE]], [[FIVE], [LESS], [THREE]], 5, cx, None);
    PlainText(ms, [FIVE, LESS, THREE], Inside(cx, "SUB"), Some("SUB"));
    assert input[6..] == [];
    NoText(ms, cx, None);
  }

  // A last argument without tokens is not counted: f(1,) has one argument here, and
  // two in C.
  lemma {:induction false} EmptyLastArgument()
    ensures ParseArguments([SUB, OPEN, FIVE, COMMA, CLOSE], 1, DIFFERENCE) == Error(1104)
  {
    var input := [SUB, OPEN, FIVE, COMMA, CLOSE];
    assert [] + [FIVE] == [FIVE];
    assert Argument(input, 3, DIFFERENCE, 0, 0, [FIVE]) == Ok(([FIVE], 4));
    assert Argument(input, 2, DIFFERENCE, 0, 0, []) == Ok(([FIVE], 4));
    assert [] + [[FIVE]] == [[FIVE]];
    assert Arguments(input, 4, DIFFERENCE, [[FIVE]]) == Ok(([[FIVE]], 5));
    assert Arguments(input, 2, DIFFERENCE, []) == Ok(([[FIVE]], 5));
  }

  lemma {:induction false} OneToken(m: Macro, k: nat, t: Token)
    requires t.kind != Newline && t.text != "(" && t.text != ")" && t.text != ","
    ensures Writable(m, k, [t])
  {
    assert Depth([t], 0) == 0 && Depth([t], 1) == 0;
  }
}
