// Macro replacement (section 6.10.3 of C17) with hidesets.
module Macros {
  import opened Results
  import opened Options

  datatype Kind = Identifier | Newline | Plain

  datatype Token = Token(text: string, kind: Kind, hidden: set<string>)

  datatype Macro = Macro(name: string, functionLike: bool, parameters: seq<string>, variadic: bool, body: seq<Token>)

  const MAX_DEPTH: nat := 64

  // The macros being expanded, outermost first, and how deep the expansion is.
  datatype Context = Context(depth: nat, hideset: seq<string>, keepNewlines: bool)

  // A token passed on, and the macros it comes out of.
  datatype Emitted = Emitted(token: Token, within: seq<string>)

  // The newest definition of a name.
  function Find(ms: seq<Macro>, t: Token): (m: Option<Macro>)
    ensures m.Some? ==> t.kind == Identifier && m.value in ms && m.value.name == t.text
  {
    if t.kind != Identifier || ms == [] then None
    else if ms[0].name == t.text then Some(ms[0])
    else Find(ms[1..], t)
  }

  function Names(ms: seq<Macro>): set<string> { set i | 0 <= i < |ms| :: ms[i].name }

  function Added(hideset: seq<string>, name: string): seq<string> { if name in hideset then hideset else hideset + [name] }

  function Nested(cx: Context, t: Token): Context {
    Context(cx.depth + 1, if t.kind == Identifier then Added(cx.hideset, t.text) else cx.hideset, cx.keepNewlines)
  }

  predicate Expandable(t: Token, m: Macro, cx: Context, own: Option<string>) {
    && m.name !in t.hidden && m.name !in cx.hideset
    && (own.None? || own.value !in t.hidden) && !(own.Some? && t.kind == Identifier && t.text == own.value)
  }

  function SkipNewlines(input: seq<Token>, i: nat): (j: nat)
    requires i <= |input|
    ensures i <= j <= |input|
    decreases |input| - i
  {
    if i < |input| && input[i].kind == Newline then SkipNewlines(input, i + 1) else i
  }

  // One argument, to the comma or the parenthesis that ends it.
  function Argument(input: seq<Token>, i: nat, m: Macro, used: nat, depth: nat, taken: seq<Token>): (r: Result<(seq<Token>, nat)>)
    requires i <= |input|
    ensures r.Ok? ==> i <= r.value.1 <= |input|
    ensures r.Ok? && i < |input| && !(input[i].text == ")" && depth == 0) ==> i < r.value.1
    decreases |input| - i
  {
    if i == |input| then Error(1102)
    else
      var t := input[i];
      if t.text == ")" && depth == 0 then Ok((taken, i))
      else if t.kind == Newline then Argument(input, i + 1, m, used, depth, taken)
      else if t.text == "(" then Argument(input, i + 1, m, used, depth + 1, taken + [t])
      else if t.text == ")" then Argument(input, i + 1, m, used, depth - 1, taken + [t])
      else if t.text == "," && depth == 0 && !(m.variadic && used + 1 >= |m.parameters|) then Ok((taken, i + 1))
      else Argument(input, i + 1, m, used, depth, taken + [t])
  }

  function Capacity(m: Macro): nat { if |m.parameters| == 0 then 1 else |m.parameters| }

  function Arguments(input: seq<Token>, i: nat, m: Macro, taken: seq<seq<Token>>): (r: Result<(seq<seq<Token>>, nat)>)
    requires i <= |input|
    ensures r.Ok? ==> i < r.value.1 <= |input|
    decreases |input| - i
  {
    var start := SkipNewlines(input, i);
    if start == |input| then Error(1102)
    else if input[start].text == ")" then Ok((taken, start + 1))
    else if |taken| >= Capacity(m) && !(m.variadic && m.parameters != []) then Error(1103)
    else
      var one := Argument(input, start, m, |taken|, 0, []);
      if one.Error? then Error(one.code) else Arguments(input, one.value.1, m, taken + [one.value.0])
  }

  // The arguments after the opening parenthesis at i, in the number the macro takes.
  function ParseArguments(input: seq<Token>, i: nat, m: Macro): (r: Result<(seq<seq<Token>>, nat)>)
    requires i < |input|
    ensures r.Ok? ==> i < r.value.1 <= |input|
  {
    var r := Arguments(input, i + 1, m, []);
    if r.Error? then r
    else if m.variadic && |r.value.0| + 1 < |m.parameters| then Error(1104)
    else if !m.variadic && |r.value.0| != |m.parameters| then Error(1104)
    else r
  }

  function ParameterIndex(m: Macro, t: Token, i: nat): (k: nat)
    requires i <= |m.parameters|
    ensures i <= k <= |m.parameters|
    decreases |m.parameters| - i
  {
    if i == |m.parameters| || (t.kind == Identifier && m.parameters[i] == t.text) then i else ParameterIndex(m, t, i + 1)
  }

  // The body with each parameter replaced by its argument's tokens.
  function Substitute(m: Macro, arguments: seq<seq<Token>>, body: seq<Token>): seq<Token>
    decreases |body|
  {
    if body == [] then []
    else
      var k := ParameterIndex(m, body[0], 0);
      (if k == |m.parameters| then [body[0]] else if k < |arguments| then arguments[k] else [])
      + Substitute(m, arguments, body[1..])
  }

  lemma {:induction false} FewerLeft(ms: seq<Macro>, hideset: seq<string>, name: string)
    requires name in Names(ms) && name !in hideset
    ensures |Names(ms) - Shown(Added(hideset, name))| < |Names(ms) - Shown(hideset)|
  {
    ShownMore(hideset, name);
    var before, after := Names(ms) - Shown(hideset), Names(ms) - Shown(Added(hideset, name));
    assert name in before && after == before - {name};
  }

  lemma {:induction false} ShownMore(hideset: seq<string>, name: string)
    ensures Shown(Added(hideset, name)) == Shown(hideset) + {name}
    ensures name in Shown(hideset) <==> name in hideset
  {
    var more := Added(hideset, name);
    forall x | x in Shown(hideset) + {name} ensures x in Shown(more) {
      if x in Shown(hideset) {
        var i :| 0 <= i < |hideset| && hideset[i] == x;
        assert more[i] == x;
      } else {
        assert more[|hideset|] == x;
      }
    }
    forall x | x in Shown(more) ensures x in Shown(hideset) + {name} {
      var i :| 0 <= i < |more| && more[i] == x;
      if i < |hideset| { assert hideset[i] == x; }
    }
  }

  function Shown(hideset: seq<string>): set<string> { set i | 0 <= i < |hideset| :: hideset[i] }

  lemma {:induction false} FoundNamed(ms: seq<Macro>, t: Token)
    requires Find(ms, t).Some?
    ensures Find(ms, t).value.name in Names(ms)
  {
  }

  // The expansion of the input from i on.  Every expansion inside it has one macro
  // fewer to expand.
  function ExpandFrom(ms: seq<Macro>, input: seq<Token>, i: nat, cx: Context, own: Option<string>): Result<seq<Emitted>>
    requires i <= |input|
    decreases |Names(ms) - Shown(cx.hideset)|, 0, |input| - i
  {
    if i == |input| then Ok([])
    else
      var t, found := input[i], Find(ms, input[i]);
      if t.kind == Newline then
        Then(if cx.keepNewlines then [Emitted(t, cx.hideset)] else [], ExpandFrom(ms, input, i + 1, cx, own))
      else if found.Some? && Expandable(t, found.value, cx, own) && !found.value.functionLike then
        FoundNamed(ms, t);
        FewerLeft(ms, cx.hideset, found.value.name);
        var inner := Expand(ms, found.value.body, Nested(cx, t), Some(found.value.name));
        if inner.Error? then inner else Then(inner.value, ExpandFrom(ms, input, i + 1, cx, own))
      else if found.Some? && Expandable(t, found.value, cx, own) && Calls(input, i) then
        FoundNamed(ms, t);
        FewerLeft(ms, cx.hideset, found.value.name);
        var arguments := ParseArguments(input, SkipNewlines(input, i + 1), found.value);
        if arguments.Error? then Error(arguments.code)
        else
          var body := Substitute(found.value, arguments.value.0, found.value.body);
          var inner := Expand(ms, body, Nested(cx, t), Some(found.value.name));
          if inner.Error? then inner else Then(inner.value, ExpandFrom(ms, input, arguments.value.1, cx, own))
      else
        var hidden := if own.None? then t.hidden else t.hidden + {own.value};
        Then([Emitted(t.(hidden := hidden), cx.hideset)], ExpandFrom(ms, input, i + 1, cx, own))
  }

  predicate Calls(input: seq<Token>, i: nat)
    requires i < |input|
  {
    SkipNewlines(input, i + 1) < |input| && input[SkipNewlines(input, i + 1)].text == "("
  }

  function Then(first: seq<Emitted>, rest: Result<seq<Emitted>>): Result<seq<Emitted>> {
    if rest.Error? then rest else Ok(first + rest.value)
  }

  function Expand(ms: seq<Macro>, input: seq<Token>, cx: Context, own: Option<string>): Result<seq<Emitted>>
    decreases |Names(ms) - Shown(cx.hideset)|, 1
  {
    if cx.depth >= MAX_DEPTH then Error(1105) else ExpandFrom(ms, input, 0, cx, own)
  }

  // Reachable contexts: the macros being expanded are distinct and defined, and
  // the depth counts them.
  ghost predicate Reachable(ms: seq<Macro>, cx: Context) {
    && cx.depth == |cx.hideset|
    && (forall i, j :: 0 <= i < j < |cx.hideset| ==> cx.hideset[i] != cx.hideset[j])
    && (forall i :: 0 <= i < |cx.hideset| ==> cx.hideset[i] in Names(ms))
  }

  lemma {:induction false} NestedReachable(ms: seq<Macro>, cx: Context, t: Token)
    requires Reachable(ms, cx) && Find(ms, t).Some? && t.text !in cx.hideset
    ensures Reachable(ms, Nested(cx, t))
  {
    FoundNamed(ms, t);
  }

  // Distinct defined names are no more than there are.
  lemma {:induction false} DepthBound(ms: seq<Macro>, cx: Context, n: nat)
    requires Reachable(ms, cx) && n <= |cx.hideset|
    ensures |Shown(cx.hideset[..n])| == n && Shown(cx.hideset[..n]) <= Names(ms)
    ensures n <= |Names(ms)|
  {
    var shown := Shown(cx.hideset[..n]);
    if n > 0 {
      DepthBound(ms, cx, n - 1);
      var before := Shown(cx.hideset[..n - 1]);
      assert shown == before + {cx.hideset[n - 1]} by {
        forall x | x in before + {cx.hideset[n - 1]} ensures x in shown {
          if x in before {
            var i :| 0 <= i < n - 1 && cx.hideset[..n - 1][i] == x;
            assert cx.hideset[..n][i] == x;
          } else {
            assert cx.hideset[..n][n - 1] == x;
          }
        }
        forall x | x in shown ensures x in before + {cx.hideset[n - 1]} {
          var i :| 0 <= i < n && cx.hideset[..n][i] == x;
          if i < n - 1 { assert cx.hideset[..n - 1][i] == x; }
        }
      }
      assert cx.hideset[n - 1] !in before;
    }
    assert |Names(ms)| >= n by { Larger(shown, Names(ms)); }
  }

  lemma {:induction false} Larger(a: set<string>, b: set<string>)
    requires a <= b
    ensures |a| <= |b|
  {
    assert b == a + (b - a);
  }

  // Every token passed on comes out of distinct macros: none is expanded inside
  // its own expansion, and they are never nested deeper than there are macros.
  ghost predicate WellNested(ms: seq<Macro>, out: seq<Emitted>) {
    forall k :: 0 <= k < |out| ==> Reachable(ms, Context(|out[k].within|, out[k].within, false)) && |out[k].within| <= |Names(ms)|
  }

  lemma {:induction false} JoinedNested(ms: seq<Macro>, first: seq<Emitted>, rest: Result<seq<Emitted>>)
    requires WellNested(ms, first) && (rest.Ok? ==> WellNested(ms, rest.value))
    ensures Then(first, rest).Ok? ==> WellNested(ms, Then(first, rest).value)
  {
  }

  lemma {:induction false} OneNested(ms: seq<Macro>, t: Token, cx: Context)
    requires Reachable(ms, cx)
    ensures WellNested(ms, [Emitted(t, cx.hideset)])
  {
    DepthBound(ms, cx, |cx.hideset|);
  }

  lemma {:induction false} ExpandNested(ms: seq<Macro>, input: seq<Token>, cx: Context, own: Option<string>)
    requires Reachable(ms, cx)
    ensures Expand(ms, input, cx, own).Ok? ==> WellNested(ms, Expand(ms, input, cx, own).value)
    ensures Expand(ms, input, cx, own) == Error(1105) ==> |Names(ms)| >= MAX_DEPTH
    decreases |Names(ms) - Shown(cx.hideset)|, 1
  {
    DepthBound(ms, cx, |cx.hideset|);
    if cx.depth < MAX_DEPTH { ExpandFromNested(ms, input, 0, cx, own); }
  }

  lemma {:induction false} ExpandFromNested(ms: seq<Macro>, input: seq<Token>, i: nat, cx: Context, own: Option<string>)
    requires Reachable(ms, cx) && i <= |input|
    ensures ExpandFrom(ms, input, i, cx, own).Ok? ==> WellNested(ms, ExpandFrom(ms, input, i, cx, own).value)
    ensures ExpandFrom(ms, input, i, cx, own) == Error(1105) ==> |Names(ms)| >= MAX_DEPTH
    decreases |Names(ms) - Shown(cx.hideset)|, 0, |input| - i, 0
  {
    hide Reachable, WellNested, Find, Arguments, Argument, Substitute, SkipNewlines, Names, Shown;
    if i < |input| {
      var t, found := input[i], Find(ms, input[i]);
      if t.kind != Newline && found.Some? && Expandable(t, found.value, cx, own) && (!found.value.functionLike || Calls(input, i)) {
        FoundNamed(ms, t);
        FewerLeft(ms, cx.hideset, found.value.name);
        NestedReachable(ms, cx, t);
        if !found.value.functionLike {
          InnerNested(ms, input, i + 1, cx, own, found.value, found.value.body);
        } else {
          ArgumentCodes(input, i, found.value);
          var arguments := ParseArguments(input, SkipNewlines(input, i + 1), found.value);
          if arguments.Ok? {
            InnerNested(ms, input, arguments.value.1, cx, own, found.value, Substitute(found.value, arguments.value.0, found.value.body));
          }
        }
      } else {
        ExpandFromNested(ms, input, i + 1, cx, own);
        KeptNested(ms, t, cx, own, ExpandFrom(ms, input, i + 1, cx, own));
      }
    } else {
      NothingNested(ms);
    }
  }

  // An expansion followed by the rest of the input.
  lemma {:induction false} InnerNested(ms: seq<Macro>, input: seq<Token>, next: nat, cx: Context, own: Option<string>, m: Macro, body: seq<Token>)
    requires Reachable(ms, cx) && next <= |input|
    requires var cx1 := Context(cx.depth + 1, Added(cx.hideset, m.name), cx.keepNewlines);
             Reachable(ms, cx1) && |Names(ms) - Shown(cx1.hideset)| < |Names(ms) - Shown(cx.hideset)|
    ensures var inner := Expand(ms, body, Context(cx.depth + 1, Added(cx.hideset, m.name), cx.keepNewlines), Some(m.name));
            && (inner == Error(1105) ==> |Names(ms)| >= MAX_DEPTH)
            && (ExpandFrom(ms, input, next, cx, own) == Error(1105) ==> |Names(ms)| >= MAX_DEPTH)
            && (inner.Ok? ==>
                  var r := Then(inner.value, ExpandFrom(ms, input, next, cx, own));
                  r.Ok? ==> WellNested(ms, r.value))
    decreases |Names(ms) - Shown(cx.hideset)|, 0, |input| - next, 1
  {
    hide Reachable, WellNested, Names, Shown;
    var cx1 := Context(cx.depth + 1, Added(cx.hideset, m.name), cx.keepNewlines);
    ExpandNested(ms, body, cx1, Some(m.name));
    ExpandFromNested(ms, input, next, cx, own);
    var inner := Expand(ms, body, cx1, Some(m.name));
    if inner.Ok? { JoinedNested(ms, inner.value, ExpandFrom(ms, input, next, cx, own)); }
  }

  // A token passed on as it is, followed by the rest.
  lemma {:induction false} KeptNested(ms: seq<Macro>, t: Token, cx: Context, own: Option<string>, rest: Result<seq<Emitted>>)
    requires Reachable(ms, cx) && (rest.Ok? ==> WellNested(ms, rest.value))
    ensures var hidden := if own.None? then t.hidden else t.hidden + {own.value};
            && (Then([Emitted(t.(hidden := hidden), cx.hideset)], rest).Ok? ==>
                  WellNested(ms, Then([Emitted(t.(hidden := hidden), cx.hideset)], rest).value))
            && (Then(if cx.keepNewlines then [Emitted(t, cx.hideset)] else [], rest).Ok? ==>
                  WellNested(ms, Then(if cx.keepNewlines then [Emitted(t, cx.hideset)] else [], rest).value))
  {
    hide Reachable, WellNested;
    var hidden := if own.None? then t.hidden else t.hidden + {own.value};
    NothingNested(ms);
    OneNested(ms, t, cx);
    OneNested(ms, t.(hidden := hidden), cx);
    JoinedNested(ms, [Emitted(t.(hidden := hidden), cx.hideset)], rest);
    JoinedNested(ms, if cx.keepNewlines then [Emitted(t, cx.hideset)] else [], rest);
  }

  lemma {:induction false} NothingNested(ms: seq<Macro>)
    ensures WellNested(ms, [])
  {
  }

  lemma {:induction false} ArgumentCodes(input: seq<Token>, i: nat, m: Macro)
    requires i < |input| && Calls(input, i)
    ensures ParseArguments(input, SkipNewlines(input, i + 1), m) != Error(1105)
  {
    ArgumentsCode(input, SkipNewlines(input, i + 1) + 1, m, []);
  }

  lemma {:induction false} ArgumentsCode(input: seq<Token>, i: nat, m: Macro, taken: seq<seq<Token>>)
    requires i <= |input|
    ensures Arguments(input, i, m, taken) != Error(1105)
    decreases |input| - i
  {
    var start := SkipNewlines(input, i);
    if start < |input| && input[start].text != ")" {
      ArgumentCode(input, start, m, |taken|, 0, []);
      var one := Argument(input, start, m, |taken|, 0, []);
      if one.Ok? { ArgumentsCode(input, one.value.1, m, taken + [one.value.0]); }
    }
  }

  lemma {:induction false} ArgumentCode(input: seq<Token>, i: nat, m: Macro, used: nat, depth: nat, taken: seq<Token>)
    requires i <= |input|
    ensures Argument(input, i, m, used, depth, taken) != Error(1105)
    decreases |input| - i
  {
    if i < |input| && !(input[i].text == ")" && depth == 0) {
      var t := input[i];
      if t.kind == Newline { ArgumentCode(input, i + 1, m, used, depth, taken); }
      else if t.text == "(" { ArgumentCode(input, i + 1, m, used, depth + 1, taken + [t]); }
      else if t.text == ")" { ArgumentCode(input, i + 1, m, used, depth - 1, taken + [t]); }
      else { ArgumentCode(input, i + 1, m, used, depth, taken + [t]); }
    }
  }

  // Expansion always ends, and with fewer than 64 macro names it never stops for
  // its depth.
  lemma {:induction false} DepthSuffices(ms: seq<Macro>, input: seq<Token>, keepNewlines: bool)
    requires |Names(ms)| < MAX_DEPTH
    ensures Expand(ms, input, Context(0, [], keepNewlines), None) != Error(1105)
  {
    ExpandNested(ms, input, Context(0, [], keepNewlines), None);
  }

  // Tokens as they are read, before any replacement.
  predicate Clean(ts: seq<Token>) { forall k :: 0 <= k < |ts| ==> ts[k].hidden == {} }

  predicate CleanMacros(ms: seq<Macro>) { forall k :: 0 <= k < |ms| ==> Clean(ms[k].body) }

  predicate ObjectLike(ms: seq<Macro>, t: Token) { Find(ms, t).Some? && !Find(ms, t).value.functionLike }

  // Nothing that could be replaced is left: an object-like macro's name is passed
  // on only out of that macro's own expansion.
  ghost predicate Complete(ms: seq<Macro>, out: seq<Emitted>) {
    forall k :: 0 <= k < |out| ==> (ObjectLike(ms, out[k].token) ==> out[k].token.text in out[k].within)
  }

  lemma {:induction false} CleanArguments(input: seq<Token>, i: nat, m: Macro, taken: seq<seq<Token>>)
    requires i <= |input| && Clean(input) && (forall k :: 0 <= k < |taken| ==> Clean(taken[k])) && Arguments(input, i, m, taken).Ok?
    ensures forall k :: 0 <= k < |Arguments(input, i, m, taken).value.0| ==> Clean(Arguments(input, i, m, taken).value.0[k])
    decreases |input| - i
  {
    hide Clean;
    var start := SkipNewlines(input, i);
    if input[start].text != ")" {
      NoTokens();
      CleanArgument(input, start, m, |taken|, 0, []);
      var one := Argument(input, start, m, |taken|, 0, []).value;
      CleanArguments(input, one.1, m, taken + [one.0]);
    }
  }

  lemma {:induction false} NoTokens()
    ensures Clean([])
  {
  }

  lemma {:induction false} CleanArgument(input: seq<Token>, i: nat, m: Macro, used: nat, depth: nat, taken: seq<Token>)
    requires i <= |input| && Clean(input) && Clean(taken) && Argument(input, i, m, used, depth, taken).Ok?
    ensures Clean(Argument(input, i, m, used, depth, taken).value.0)
    decreases |input| - i
  {
    var t := input[i];
    if t.text == ")" && depth == 0 {
    } else if t.kind == Newline {
      CleanArgument(input, i + 1, m, used, depth, taken);
    } else if t.text == "(" {
      CleanArgument(input, i + 1, m, used, depth + 1, taken + [t]);
    } else if t.text == ")" {
      CleanArgument(input, i + 1, m, used, depth - 1, taken + [t]);
    } else if !(t.text == "," && depth == 0 && !(m.variadic && used + 1 >= |m.parameters|)) {
      CleanArgument(input, i + 1, m, used, depth, taken + [t]);
    }
  }

  lemma {:induction false} CleanSubstitute(m: Macro, arguments: seq<seq<Token>>, body: seq<Token>)
    requires Clean(body) && forall k :: 0 <= k < |arguments| ==> Clean(arguments[k])
    ensures Clean(Substitute(m, arguments, body))
    decreases |body|
  {
    if body != [] { CleanSubstitute(m, arguments, body[1..]); }
  }

  lemma {:induction false} JoinedComplete(ms: seq<Macro>, first: seq<Emitted>, rest: Result<seq<Emitted>>)
    requires Complete(ms, first) && (rest.Ok? ==> Complete(ms, rest.value))
    ensures Then(first, rest).Ok? ==> Complete(ms, Then(first, rest).value)
  {
    hide ObjectLike;
  }

  // Whose expansion it is counts among the macros being expanded.
  predicate OwnIsIn(own: Option<string>, cx: Context) { own.Some? ==> own.value in cx.hideset }

  lemma {:induction false} ExpandComplete(ms: seq<Macro>, input: seq<Token>, cx: Context, own: Option<string>)
    requires Clean(input) && CleanMacros(ms) && OwnIsIn(own, cx)
    ensures Expand(ms, input, cx, own).Ok? ==> Complete(ms, Expand(ms, input, cx, own).value)
    decreases |Names(ms) - Shown(cx.hideset)|, 1
  {
    if cx.depth < MAX_DEPTH { ExpandFromComplete(ms, input, 0, cx, own); }
  }

  lemma {:induction false} ExpandFromComplete(ms: seq<Macro>, input: seq<Token>, i: nat, cx: Context, own: Option<string>)
    requires Clean(input) && CleanMacros(ms) && OwnIsIn(own, cx) && i <= |input|
    ensures ExpandFrom(ms, input, i, cx, own).Ok? ==> Complete(ms, ExpandFrom(ms, input, i, cx, own).value)
    decreases |Names(ms) - Shown(cx.hideset)|, 0, |input| - i, 0
  {
    hide Complete, Arguments, Argument, Substitute, SkipNewlines, Names, Shown, Clean;
    if i == |input| {
      NothingComplete(ms);
    } else {
      var t, found := input[i], Find(ms, input[i]);
      if t.kind != Newline && found.Some? && Expandable(t, found.value, cx, own) && (!found.value.functionLike || Calls(input, i)) {
        FoundNamed(ms, t);
        FewerLeft(ms, cx.hideset, found.value.name);
        BodyClean(ms, found.value);
        if !found.value.functionLike {
          InnerComplete(ms, input, i + 1, cx, own, found.value, found.value.body);
        } else {
          var arguments := ParseArguments(input, SkipNewlines(input, i + 1), found.value);
          if arguments.Ok? {
            CleanArguments(input, SkipNewlines(input, i + 1) + 1, found.value, []);
            CleanSubstitute(found.value, arguments.value.0, found.value.body);
            InnerComplete(ms, input, arguments.value.1, cx, own, found.value, Substitute(found.value, arguments.value.0, found.value.body));
          }
        }
      } else {
        ExpandFromComplete(ms, input, i + 1, cx, own);
        KeptComplete(ms, input, i, cx, own, ExpandFrom(ms, input, i + 1, cx, own));
      }
    }
  }

  lemma {:induction false} NothingComplete(ms: seq<Macro>)
    ensures Complete(ms, [])
  {
  }

  lemma {:induction false} BodyClean(ms: seq<Macro>, m: Macro)
    requires CleanMacros(ms) && m in ms
    ensures Clean(m.body)
  {
  }

  lemma {:induction false} InnerComplete(ms: seq<Macro>, input: seq<Token>, next: nat, cx: Context, own: Option<string>, m: Macro, body: seq<Token>)
    requires Clean(input) && CleanMacros(ms) && OwnIsIn(own, cx) && next <= |input| && Clean(body)
    requires |Names(ms) - Shown(Added(cx.hideset, m.name))| < |Names(ms) - Shown(cx.hideset)|
    ensures var inner := Expand(ms, body, Context(cx.depth + 1, Added(cx.hideset, m.name), cx.keepNewlines), Some(m.name));
            inner.Ok? ==>
              var r := Then(inner.value, ExpandFrom(ms, input, next, cx, own));
              r.Ok? ==> Complete(ms, r.value)
    decreases |Names(ms) - Shown(cx.hideset)|, 0, |input| - next, 1
  {
    hide Complete, Names, Shown, Clean;
    var cx1 := Context(cx.depth + 1, Added(cx.hideset, m.name), cx.keepNewlines);
    ExpandComplete(ms, body, cx1, Some(m.name));
    ExpandFromComplete(ms, input, next, cx, own);
    var inner := Expand(ms, body, cx1, Some(m.name));
    if inner.Ok? { JoinedComplete(ms, inner.value, ExpandFrom(ms, input, next, cx, own)); }
  }

  lemma {:induction false} KeptComplete(ms: seq<Macro>, input: seq<Token>, i: nat, cx: Context, own: Option<string>, rest: Result<seq<Emitted>>)
    requires i < |input| && Clean(input) && OwnIsIn(own, cx) && (rest.Ok? ==> Complete(ms, rest.value))
    requires var t, found := input[i], Find(ms, input[i]);
             t.kind == Newline || found.None? || !Expandable(t, found.value, cx, own) || (found.value.functionLike && !Calls(input, i))
    ensures var t := input[i];
            var hidden := if own.None? then t.hidden else t.hidden + {own.value};
            && (Then([Emitted(t.(hidden := hidden), cx.hideset)], rest).Ok? ==>
                  Complete(ms, Then([Emitted(t.(hidden := hidden), cx.hideset)], rest).value))
            && (t.kind == Newline && Then(if cx.keepNewlines then [Emitted(t, cx.hideset)] else [], rest).Ok? ==>
                  Complete(ms, Then(if cx.keepNewlines then [Emitted(t, cx.hideset)] else [], rest).value))
  {
    var t := input[i];
    var hidden := if own.None? then t.hidden else t.hidden + {own.value};
    FindText(ms, t, t.(hidden := hidden));
    JoinedComplete(ms, [Emitted(t.(hidden := hidden), cx.hideset)], rest);
    if t.kind == Newline { JoinedComplete(ms, if cx.keepNewlines then [Emitted(t, cx.hideset)] else [], rest); }
  }

  lemma {:induction false} FindText(ms: seq<Macro>, t: Token, u: Token)
    requires t.kind == u.kind && t.text == u.text
    ensures Find(ms, t) == Find(ms, u)
    decreases |ms|
  {
    if ms != [] { FindText(ms[1..], t, u); }
  }

  // A chain of macros, each replaced by the next one's name: the names are longer
  // and longer.
  function Link(i: nat): string { if i == 0 then "x" else Link(i - 1) + "x" }

  function Word(i: nat): Token { Token(Link(i), Identifier, {}) }

  function Links(n: nat): seq<Macro> {
    seq(n, i requires 0 <= i < n => Macro(Link(i), false, [], false, [Word(i + 1)]))
  }

  lemma {:induction false} LinkLength(i: nat)
    ensures |Link(i)| == i + 1
  {
    if i > 0 { LinkLength(i - 1); }
  }

  lemma {:induction false} FindLink(ms: seq<Macro>, n: nat, i: nat, j: nat)
    requires j <= i < n && ms == Links(n)[j..]
    ensures Find(ms, Word(i)) == Some(Links(n)[i])
    decreases i - j
  {
    hide Link;
    LinkLength(i);
    LinkLength(j);
    assert ms[0] == Links(n)[j];
    if j < i {
      assert ms[1..] == Links(n)[j + 1..];
      FindLink(ms[1..], n, i, j + 1);
    }
  }

  function Chained(i: nat): seq<string> { if i == 0 then [] else Chained(i - 1) + [Link(i - 1)] }

  lemma {:induction false} NotChained(i: nat, j: nat)
    requires i <= j
    ensures |Chained(i)| == i && Link(j) !in Chained(i)
  {
    hide Link;
    if i > 0 {
      NotChained(i - 1, j);
      LinkLength(i - 1);
      LinkLength(j);
    }
  }

  lemma {:induction false} NoLink(ms: seq<Macro>, n: nat, j: nat)
    requires j <= n && ms == Links(n)[j..]
    ensures Find(ms, Word(n)) == None
    decreases n - j
  {
    hide Link;
    if j < n {
      LinkLength(n);
      LinkLength(j);
      assert ms[0] == Links(n)[j] && ms[1..] == Links(n)[j + 1..];
      NoLink(ms[1..], n, j + 1);
    }
  }

  function Owner(i: nat): Option<string> { if i == 0 then None else Some(Link(i - 1)) }

  // The end of the chain is no macro's name.
  lemma {:induction false} ChainEnds(n: nat)
    requires n < MAX_DEPTH
    ensures var r := Expand(Links(n), [Word(n)], Context(n, Chained(n), false), Owner(n));
            r.Ok? && |r.value| == 1 && r.value[0].token.text == Link(n)
  {
    hide Link, Names, Shown;
    assert Links(n)[0..] == Links(n);
    NoLink(Links(n), n, 0);
    var hidden := if n == 0 then {} else {Link(n - 1)};
    var cx, one := Context(n, Chained(n), false), Emitted(Word(n).(hidden := hidden), Chained(n));
    assert ExpandFrom(Links(n), [Word(n)], 1, cx, Owner(n)) == Ok([]);
    assert Word(n).hidden + hidden == hidden;
    assert ExpandFrom(Links(n), [Word(n)], 0, cx, Owner(n)) == Ok([one] + []);
  }

  lemma {:induction false} ChainFrom(n: nat, i: nat)
    requires i <= n && i < MAX_DEPTH
    ensures var r := Expand(Links(n), [Word(i)], Context(i, Chained(i), false), Owner(i));
            if n >= MAX_DEPTH then r == Error(1105) else r.Ok? && |r.value| == 1 && r.value[0].token.text == Link(n)
    decreases n - i
  {
    hide Link, Names, Shown;
    if i == n { ChainEnds(n); return; }
    var ms := Links(n);
    assert ms[0..] == ms;
    FindLink(ms, n, i, 0);
    NotChained(i, i);
    if i > 0 { LinkLength(i); LinkLength(i - 1); }
    var cx := Context(i, Chained(i), false);
    assert Expandable(Word(i), ms[i], cx, Owner(i));
    assert Nested(cx, Word(i)) == Context(i + 1, Chained(i + 1), false);
    assert ms[i].body == [Word(i + 1)];
    if i + 1 < MAX_DEPTH { ChainFrom(n, i + 1); }
    var inner := Expand(ms, ms[i].body, Nested(cx, Word(i)), Owner(i + 1));
    assert ExpandFrom(ms, [Word(i)], 1, cx, Owner(i)) == Ok([]);
    assert ExpandFrom(ms, [Word(i)], 0, cx, Owner(i)) == if inner.Error? then inner else Ok(inner.value + []);
  }

  // The bound is sharp: a chain of macros is refused for its depth exactly when
  // there are 64 of them or more, though nothing is expanded inside itself; a
  // shorter one ends in its last name.
  lemma {:induction false} DepthRunsOut(n: nat)
    ensures var r := Expand(Links(n), [Word(0)], Context(0, [], false), None);
            && (r == Error(1105) <==> n >= MAX_DEPTH)
            && (n < MAX_DEPTH ==> r.Ok? && |r.value| == 1 && r.value[0].token.text == Link(n))
  {
    hide Link, Expand, Links;
    ChainFrom(n, 0);
  }

  const F := Token("f", Identifier, {})
  const OPEN := Token("(", Plain, {})
  const CLOSE := Token(")", Plain, {})
  const ONE := Token("1", Plain, {})

  // #define f(x) x
  const IDENTITY := Macro("f", true, ["x"], false, [Token("x", Identifier, {})])

  lemma {:induction false} InnerArgument()
    ensures ParseArguments([F, OPEN, F, OPEN, ONE, CLOSE, CLOSE], 1, IDENTITY) == Ok(([[F, OPEN, ONE, CLOSE]], 7))
  {
    var input := [F, OPEN, F, OPEN, ONE, CLOSE, CLOSE];
    assert Argument(input, 6, IDENTITY, 0, 0, [F, OPEN, ONE, CLOSE]) == Ok(([F, OPEN, ONE, CLOSE], 6));
    assert [F, OPEN, ONE] + [CLOSE] == [F, OPEN, ONE, CLOSE];
    assert Argument(input, 5, IDENTITY, 0, 1, [F, OPEN, ONE]) == Ok(([F, OPEN, ONE, CLOSE], 6));
    assert [F, OPEN] + [ONE] == [F, OPEN, ONE];
    assert Argument(input, 4, IDENTITY, 0, 1, [F, OPEN]) == Ok(([F, OPEN, ONE, CLOSE], 6));
    assert [F] + [OPEN] == [F, OPEN];
    assert Argument(input, 3, IDENTITY, 0, 0, [F]) == Ok(([F, OPEN, ONE, CLOSE], 6));
    assert [] + [F] == [F];
    assert Argument(input, 2, IDENTITY, 0, 0, []) == Ok(([F, OPEN, ONE, CLOSE], 6));
    assert [] + [[F, OPEN, ONE, CLOSE]] == [[F, OPEN, ONE, CLOSE]];
    assert Arguments(input, 6, IDENTITY, [[F, OPEN, ONE, CLOSE]]) == Ok(([[F, OPEN, ONE, CLOSE]], 7));
  }

  function Texts(out: seq<Emitted>): seq<string> { seq(|out|, i requires 0 <= i < |out| => out[i].token.text) }

  // Arguments are not expanded before they are put in: f(f(1)) is 1 in C, and f(1)
  // here.
  lemma {:induction false} ArgumentUnexpanded()
    ensures var r := Expand([IDENTITY], [F, OPEN, F, OPEN, ONE, CLOSE, CLOSE], Context(0, [], false), None);
            r.Ok? && Texts(r.value) == ["f", "(", "1", ")"]
  {
    hide Names, Shown;
    var ms, input, cx := [IDENTITY], [F, OPEN, F, OPEN, ONE, CLOSE, CLOSE], Context(0, [], false);
    InnerArgument();
    var body, inside := [F, OPEN, ONE, CLOSE], Context(1, ["f"], false);
    assert Substitute(IDENTITY, [body], IDENTITY.body) == body + Substitute(IDENTITY, [body], IDENTITY.body[1..]) == body + [];
    assert body + [] == body && Nested(cx, F) == inside;
    Unexpanded(ms, body, inside);
    assert Find(ms, F) == Some(IDENTITY) && Expandable(F, IDENTITY, cx, None) && SkipNewlines(input, 1) == 1;
    assert ExpandFrom(ms, input, 7, cx, None) == Ok([]);
    var inner := Expand(ms, body, inside, Some("f"));
    assert ExpandFrom(ms, input, 0, cx, None) == Ok(inner.value + []);
    assert inner.value + [] == inner.value;
  }

  // Inside its own expansion the macro's name stays as it is.
  lemma {:induction false} Unexpanded(ms: seq<Macro>, body: seq<Token>, cx: Context)
    requires ms == [IDENTITY] && body == [F, OPEN, ONE, CLOSE] && cx == Context(1, ["f"], false)
    ensures var r := Expand(ms, body, cx, Some("f")); r.Ok? && Texts(r.value) == ["f", "(", "1", ")"]
  {
    hide Names, Shown;
    assert cx.hideset[0] == "f";
    assert ExpandFrom(ms, body, 4, cx, Some("f")) == Ok([]);
    assert Find(ms, CLOSE) == None && Find(ms, ONE) == None && Find(ms, OPEN) == None;
    var e := (t: Token) => Emitted(t.(hidden := t.hidden + {"f"}), cx.hideset);
    assert ExpandFrom(ms, body, 3, cx, Some("f")) == Ok([e(CLOSE)] + []);
    assert [e(CLOSE)] + [] == [e(CLOSE)];
    assert ExpandFrom(ms, body, 2, cx, Some("f")) == Ok([e(ONE)] + [e(CLOSE)]);
    assert ExpandFrom(ms, body, 1, cx, Some("f")) == Ok([e(OPEN)] + ([e(ONE)] + [e(CLOSE)]));
    assert ExpandFrom(ms, body, 0, cx, Some("f")) == Ok([e(F)] + ([e(OPEN)] + ([e(ONE)] + [e(CLOSE)])));
  }

  lemma {:induction false} ThenTwice(a: seq<Emitted>, b: seq<Emitted>, r: Result<seq<Emitted>>)
    ensures Then(a, Then(b, r)) == Then(a + b, r) && Then([], r) == r && Then(a, Ok([])) == Ok(a)
  {
    assert r.Ok? ==> a + (b + r.value) == a + b + r.value && [] + r.value == r.value;
    assert a + [] == a;
  }

  // The expansion loop: output grows as the input is walked.
  method ExpandRange(ms: seq<Macro>, input: seq<Token>, cx: Context, own: Option<string>) returns (r: Result<seq<Emitted>>)
    ensures r == Expand(ms, input, cx, own)
    decreases |Names(ms) - Shown(cx.hideset)|
  {
    hide Names, Shown, Arguments, Argument, Substitute, Find;
    if cx.depth >= MAX_DEPTH { return Error(1105); }
    var output: seq<Emitted>, i := [], 0;
    ThenTwice([], [], ExpandFrom(ms, input, 0, cx, own));
    while i < |input|
      invariant 0 <= i <= |input|
      invariant Expand(ms, input, cx, own) == Then(output, ExpandFrom(ms, input, i, cx, own))
      decreases |input| - i
    {
      var t, found := input[i], Find(ms, input[i]);
      if t.kind == Newline {
        var line := if cx.keepNewlines then [Emitted(t, cx.hideset)] else [];
        ThenTwice(output, line, ExpandFrom(ms, input, i + 1, cx, own));
        output := output + line;
        i := i + 1;
      } else if found.Some? && Expandable(t, found.value, cx, own) && (!found.value.functionLike || Calls(input, i)) {
        FoundNamed(ms, t);
        FewerLeft(ms, cx.hideset, found.value.name);
        var body, next := found.value.body, i + 1;
        if found.value.functionLike {
          var arguments := ParseArguments(input, SkipNewlines(input, i + 1), found.value);
          if arguments.Error? { return Error(arguments.code); }
          body, next := Substitute(found.value, arguments.value.0, body), arguments.value.1;
        }
        var inner := ExpandRange(ms, body, Nested(cx, t), Some(found.value.name));
        if inner.Error? { return inner; }
        ThenTwice(output, inner.value, ExpandFrom(ms, input, next, cx, own));
        output := output + inner.value;
        i := next;
      } else {
        var hidden := if own.None? then t.hidden else t.hidden + {own.value};
        ThenTwice(output, [Emitted(t.(hidden := hidden), cx.hideset)], ExpandFrom(ms, input, i + 1, cx, own));
        output := output + [Emitted(t.(hidden := hidden), cx.hideset)];
        i := i + 1;
      }
    }
    ThenTwice(output, [], Ok([]));
    r := Ok(output);
  }
}
