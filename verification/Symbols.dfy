// Resolving names across objects.
module Symbols {
  import opened Results
  import Records
  import ObjectFile
  import Layout

  type Byte = Records.Byte
  type Text = ObjectFile.Text
  type Section = ObjectFile.Section

  datatype Home = Nowhere | In(section: nat)

  datatype Symbol = Symbol(name: Text, value: nat, home: Home, binding: nat, kind: nat, size: nat)

  // The sections and symbols of all objects, in the order they are linked.
  datatype Unit = Unit(sections: seq<Section>, symbols: seq<Symbol>)

  const COMMON: nat := 4

  predicate UnitOk(u: Unit) {
    && Layout.SectionsOk(u.sections)
    && forall i :: 0 <= i < |u.symbols| ==>
         (u.symbols[i].home.In? ==> u.symbols[i].home.section < |u.sections|
                                    && u.symbols[i].value <= u.sections[u.symbols[i].home.section].size)
  }

  predicate IsCommon(s: Symbol) { s.binding == 1 && s.kind == COMMON && s.home.Nowhere? }

  predicate IsDefinition(s: Symbol) { s.binding == 1 && s.home.In? }

  const RUNTIME_NAMES: seq<string> := [
    "cc64_putc", "cc64_write", "cc64_read", "cc64_alloc", "cc64_free", "cc64_open", "cc64_create", "cc64_lseek", "cc64_close",
    "cc64_delete", "cc64_exit", "cc64_console_ready", "cc64_console_line", "cc64_time_fields", "cc64_date_fields"]

  predicate Spells(name: Text, s: string) { |name| == |s| && forall i :: 0 <= i < |s| ==> name[i] == s[i] as int }

  predicate RuntimeName(name: Text) { exists i :: 0 <= i < |RUNTIME_NAMES| && Spells(name, RUNTIME_NAMES[i]) }

  datatype Global = Global(address: nat, size: nat, common: bool)

  datatype Resolution = Resolution(globals: map<Text, Global>, bss: nat, values: seq<nat>)

  function Align8(size: nat): nat { (size + 7) / 8 * 8 }

  // Room for a common symbol is added to the end of the last output.
  function BssAfter(u: Unit, i: nat): nat
    requires UnitOk(u) && i <= |u.symbols|
  {
    if i == 0 then Layout.SizeOf(u.sections, ObjectFile.BSS, |u.sections|)
    else if IsCommon(u.symbols[i - 1]) then Align8(BssAfter(u, i - 1)) + u.symbols[i - 1].size
    else BssAfter(u, i - 1)
  }

  // The symbol's own place in the image.
  function AddressOf(u: Unit, i: nat): nat
    requires UnitOk(u) && i < |u.symbols|
  {
    var s := u.symbols[i];
    if s.home.In? then s.value + Layout.SectionAt(u.sections, s.home.section)
    else if IsCommon(s) then Layout.Base(u.sections, ObjectFile.BSS) + Align8(BssAfter(u, i))
    else s.value
  }

  predicate BothTentative(u: Unit, s: Symbol, size: nat)
    requires UnitOk(u)
  {
    s.kind == 1 && s.home.In? && s.home.section < |u.sections| && u.sections[s.home.section].kind == ObjectFile.BSS && size == s.size
  }

  function Enter(u: Unit, i: nat, globals: map<Text, Global>): Result<map<Text, Global>>
    requires UnitOk(u) && i < |u.symbols|
  {
    var s, address := u.symbols[i], AddressOf(u, i);
    if s.binding != 1 then Ok(globals)
    else if IsCommon(s) then
      if s.name in globals && !globals[s.name].common then Error(5020)
      else if s.name !in globals || s.size > globals[s.name].size then Ok(globals[s.name := Global(address, s.size, true)])
      else Ok(globals)
    else if s.home.Nowhere? then Ok(globals)
    else if s.name in globals && !globals[s.name].common then
      if !BothTentative(u, s, globals[s.name].size) && !RuntimeName(s.name) then Error(5020) else Ok(globals)
    else Ok(globals[s.name := Global(address, s.size, false)])
  }

  // The names known after the first n symbols.
  function Resolve(u: Unit, n: nat): Result<map<Text, Global>>
    requires UnitOk(u) && n <= |u.symbols|
  {
    if n == 0 then Ok(map[])
    else
      var before := Resolve(u, n - 1);
      if before.Error? then before else Enter(u, n - 1, before.value)
  }

  ghost predicate First(u: Unit, name: Text, f: nat, n: nat) {
    && f < n <= |u.symbols| && IsDefinition(u.symbols[f]) && u.symbols[f].name == name
    && forall j :: 0 <= j < f ==> !(IsDefinition(u.symbols[j]) && u.symbols[j].name == name)
  }

  ghost predicate Undefined(u: Unit, name: Text, n: nat)
    requires n <= |u.symbols|
  {
    forall j :: 0 <= j < n ==> !(IsDefinition(u.symbols[j]) && u.symbols[j].name == name)
  }

  // The first of the largest common symbols.
  ghost predicate Largest(u: Unit, name: Text, c: nat, n: nat) {
    && c < n <= |u.symbols| && IsCommon(u.symbols[c]) && u.symbols[c].name == name
    && forall j :: 0 <= j < n && IsCommon(u.symbols[j]) && u.symbols[j].name == name ==>
         u.symbols[j].size < u.symbols[c].size || (u.symbols[j].size == u.symbols[c].size && c <= j)
  }

  ghost predicate NoCommon(u: Unit, name: Text, n: nat)
    requires n <= |u.symbols|
  {
    forall j :: 0 <= j < n ==> !(IsCommon(u.symbols[j]) && u.symbols[j].name == name)
  }

  // What a name stands for: its first definition, or else the largest of its
  // common symbols.
  ghost predicate StandsFor(u: Unit, name: Text, n: nat, globals: map<Text, Global>)
    requires UnitOk(u) && n <= |u.symbols|
  {
    && (forall f: nat :: First(u, name, f, n) ==>
          name in globals && globals[name] == Global(AddressOf(u, f), u.symbols[f].size, false))
    && (forall c: nat :: Undefined(u, name, n) && Largest(u, name, c, n) ==>
          name in globals && globals[name] == Global(AddressOf(u, c), u.symbols[c].size, true))
    && (Undefined(u, name, n) && NoCommon(u, name, n) ==> name !in globals)
  }

  lemma {:induction false} FirstExists(u: Unit, name: Text, n: nat) returns (f: nat)
    requires n <= |u.symbols| && !Undefined(u, name, n)
    ensures First(u, name, f, n)
  {
    f := 0;
    while !(IsDefinition(u.symbols[f]) && u.symbols[f].name == name)
      invariant f < n && Undefined(u, name, f)
      decreases n - f
    {
      f := f + 1;
    }
  }

  lemma {:induction false} LargestExists(u: Unit, name: Text, n: nat) returns (c: nat)
    requires n <= |u.symbols| && !NoCommon(u, name, n)
    ensures Largest(u, name, c, n)
  {
    var s := u.symbols[n - 1];
    if NoCommon(u, name, n - 1) {
      c := n - 1;
    } else {
      c := LargestExists(u, name, n - 1);
      if IsCommon(s) && s.name == name && s.size > u.symbols[c].size { c := n - 1; }
    }
  }

  lemma {:induction false} EnterStands(u: Unit, n: nat, globals: map<Text, Global>, name: Text)
    requires UnitOk(u) && n < |u.symbols| && StandsFor(u, name, n, globals) && Enter(u, n, globals).Ok?
    ensures StandsFor(u, name, n + 1, Enter(u, n, globals).value)
  {
    hide AddressOf, RuntimeName, BothTentative;
    var s, m := u.symbols[n], n + 1;
    if Undefined(u, name, n) {
      UndefinedEnters(u, n, globals, name);
    } else {
      var f := FirstExists(u, name, n);
      assert First(u, name, f, m);
      assert forall g: nat :: First(u, name, g, m) ==> g == f;
    }
  }

  lemma {:induction false} UndefinedEnters(u: Unit, n: nat, globals: map<Text, Global>, name: Text)
    requires UnitOk(u) && n < |u.symbols| && StandsFor(u, name, n, globals) && Enter(u, n, globals).Ok? && Undefined(u, name, n)
    ensures StandsFor(u, name, n + 1, Enter(u, n, globals).value)
  {
    hide AddressOf, RuntimeName, BothTentative;
    var s, m := u.symbols[n], n + 1;
    if NoCommon(u, name, n) {
      assert forall c: nat :: Largest(u, name, c, m) ==> c == n;
    } else {
      var c := LargestExists(u, name, n);
      assert globals[name] == Global(AddressOf(u, c), u.symbols[c].size, true);
      var d := if IsCommon(s) && s.name == name && s.size > u.symbols[c].size then n else c;
      assert Largest(u, name, d, m);
      assert forall e: nat :: Largest(u, name, e, m) ==> e == d;
    }
    assert forall f: nat :: First(u, name, f, m) ==> f == n;
  }

  // Every name stands for its first definition, else its largest common symbol.
  lemma {:induction false} ResolvedNames(u: Unit, n: nat, name: Text)
    requires UnitOk(u) && n <= |u.symbols| && Resolve(u, n).Ok?
    ensures StandsFor(u, name, n, Resolve(u, n).value)
  {
    hide StandsFor, Enter;
    if n > 0 {
      ResolvedNames(u, n - 1, name);
      EnterStands(u, n - 1, Resolve(u, n - 1).value, name);
    } else {
      NothingStands(u, name);
    }
  }

  lemma {:induction false} NothingStands(u: Unit, name: Text)
    requires UnitOk(u)
    ensures StandsFor(u, name, 0, map[])
  {
  }

  // A common symbol may not follow a definition of its name; a second definition
  // must be a tentative one as large as the first, or a runtime routine.
  ghost predicate Admissible(u: Unit, i: nat)
    requires UnitOk(u) && i < |u.symbols|
  {
    var s := u.symbols[i];
    && (IsCommon(s) ==> Undefined(u, s.name, i))
    && (IsDefinition(s) ==>
          forall f: nat :: First(u, s.name, f, i) ==> BothTentative(u, s, u.symbols[f].size) || RuntimeName(s.name))
  }

  lemma {:induction false} EnterAdmits(u: Unit, n: nat, globals: map<Text, Global>)
    requires UnitOk(u) && n < |u.symbols| && StandsFor(u, u.symbols[n].name, n, globals)
    ensures Enter(u, n, globals).Ok? <==> Admissible(u, n)
  {
    hide AddressOf, RuntimeName, BothTentative;
    var s := u.symbols[n];
    if Undefined(u, s.name, n) {
      if !NoCommon(u, s.name, n) { var c := LargestExists(u, s.name, n); }
    } else {
      var f := FirstExists(u, s.name, n);
      assert forall g: nat :: First(u, s.name, g, n) ==> g == f;
    }
  }

  // Resolution succeeds exactly when every symbol is admissible.
  lemma {:induction false} ResolvesWhen(u: Unit, n: nat)
    requires UnitOk(u) && n <= |u.symbols|
    ensures Resolve(u, n).Ok? <==> forall i :: 0 <= i < n ==> Admissible(u, i)
  {
    hide StandsFor, Enter, Admissible;
    if n > 0 {
      ResolvesWhen(u, n - 1);
      if Resolve(u, n - 1).Ok? {
        ResolvedNames(u, n - 1, u.symbols[n - 1].name);
        EnterAdmits(u, n - 1, Resolve(u, n - 1).value);
      }
    }
  }

  lemma {:induction false} BssGrows(u: Unit, i: nat, j: nat)
    requires UnitOk(u) && i <= j <= |u.symbols|
    ensures BssAfter(u, i) <= BssAfter(u, j)
  {
    if i < j { BssGrows(u, i, j - 1); }
  }

  // Common symbols have room of their own, past every section, at multiples of 8.
  lemma {:induction false} CommonsApart(u: Unit, i: nat, j: nat)
    requires UnitOk(u) && i < j < |u.symbols| && IsCommon(u.symbols[i]) && IsCommon(u.symbols[j])
    ensures AddressOf(u, i) + u.symbols[i].size <= AddressOf(u, j)
    ensures AddressOf(u, i) >= Layout.EndOf(u.sections, ObjectFile.BSS)
    ensures AddressOf(u, i) % 8 == 0
  {
    hide Layout.SizeOf, Layout.Base;
    Layout.BaseAligned(u.sections, ObjectFile.BSS);
    BssGrows(u, 0, i);
    BssGrows(u, i + 1, j);
  }

  // The resolver's loop: values are filled in, names entered, common symbols
  // given room.
  method ResolveSymbols(u: Unit) returns (r: Result<Resolution>)
    requires UnitOk(u)
    ensures r.Ok? <==> Resolve(u, |u.symbols|).Ok?
    ensures r.Ok? ==>
              && r.value.globals == Resolve(u, |u.symbols|).value && r.value.bss == BssAfter(u, |u.symbols|)
              && |r.value.values| == |u.symbols|
              && forall i :: 0 <= i < |u.symbols| ==> r.value.values[i] == AddressOf(u, i)
  {
    hide Layout.SizeOf, Layout.Base, Layout.SectionAt, RuntimeName, BothTentative;
    var globals: map<Text, Global>, bss, values := map[], Layout.SizeOf(u.sections, ObjectFile.BSS, |u.sections|), [];
    var i := 0;
    while i < |u.symbols|
      invariant 0 <= i <= |u.symbols| && |values| == i && bss == BssAfter(u, i)
      invariant Resolve(u, i) == Ok(globals)
      invariant forall k :: 0 <= k < i ==> values[k] == AddressOf(u, k)
    {
      var s := u.symbols[i];
      var value := s.value;
      if s.home.In? { value := s.value + Layout.SectionAt(u.sections, s.home.section); }
      if IsCommon(s) {
        value := Layout.Base(u.sections, ObjectFile.BSS) + Align8(bss);
        bss := Align8(bss) + s.size;
      }
      values := values + [value];
      var entered := Enter(u, i, globals);
      NotResolved(u, i + 1);
      if entered.Error? { return Error(entered.code); }
      globals := entered.value;
      i := i + 1;
    }
    r := Ok(Resolution(globals, bss, values));
  }

  lemma {:induction false} NotResolved(u: Unit, n: nat)
    requires UnitOk(u) && n <= |u.symbols|
    ensures Resolve(u, n).Error? ==> Resolve(u, |u.symbols|).Error?
    decreases |u.symbols| - n
  {
    hide Enter;
    if n < |u.symbols| { NotResolved(u, n + 1); }
  }
}
