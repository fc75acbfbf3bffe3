// Building an object and writing it out.
module ObjectWriter {
  import Words
  import Crc
  import Records
  import Strings
  import ObjectFile
  import ObjectRoundTrip

  type Byte = Records.Byte
  type Text = Strings.Text
  type Object = ObjectFile.Object
  type Symbol = ObjectFile.Symbol
  type Relocation = ObjectFile.Relocation

  // A symbol of the compiler, as a relocation refers to it.
  datatype Source = Source(id: nat, name: Text, internal: bool, isFunction: bool)

  // A table entry, whether it is defined here, and the compiler's symbol it was made
  // for, if it was.
  datatype Entry = Entry(symbol: Symbol, defined: bool, source: int)

  datatype Use = Use(offset: nat, target: Source, kind: nat, addend: int, width: nat)

  datatype Built = Built(name: Text, kind: nat, alignment: nat, size: nat, data: seq<Byte>, uses: seq<Use>)

  const UNKNOWN: int := -1

  predicate Matches(e: Entry, target: Source) {
    e.source == target.id || (e.source == UNKNOWN && e.symbol.name == target.name)
  }

  function FindSymbol(entries: seq<Entry>, target: Source, i: nat): (r: nat)
    requires i <= |entries|
    ensures i <= r <= |entries| && (r < |entries| ==> Matches(entries[r], target))
    ensures r == |entries| ==> forall k :: i <= k < |entries| ==> !Matches(entries[k], target)
    decreases |entries| - i
  {
    if i == |entries| || Matches(entries[i], target) then i else FindSymbol(entries, target, i + 1)
  }

  ghost predicate Found(entries: seq<Entry>, target: Source) { exists i :: 0 <= i < |entries| && Matches(entries[i], target) }

  ghost predicate UseFits(u: Use, entries: seq<Entry>) {
    && u.offset + u.width <= ObjectFile.PAYLOAD_LIMIT && ObjectFile.WidthMatches(u.kind, u.width)
    && Words.InRange(Words.LONG, u.addend) && Found(entries, u.target)
  }

  ghost predicate BuiltFits(s: Built, entries: seq<Entry>) {
    && Strings.Plain(s.name) && s.kind <= 3 && ObjectRoundTrip.IsAlignment(s.alignment) && s.size <= ObjectFile.PAYLOAD_LIMIT
    && (if s.kind == ObjectFile.BSS then s.data == [] else s.size == |s.data|)
    && forall j :: 0 <= j < |s.uses| ==> UseFits(s.uses[j], entries)
  }

  ghost predicate EntryFits(e: Entry) {
    && Strings.Plain(e.symbol.name) && e.symbol.section < ObjectFile.WORD32 && e.symbol.binding <= 1 && e.symbol.kind <= 4
    && e.symbol.size < Words.WORD
  }

  // The order object files list symbols in.
  function CompareText(a: Text, b: Text): int
    decreases |a|
  {
    if a == [] && b == [] then 0
    else if a == [] then -1
    else if b == [] then 1
    else if a[0] != b[0] then a[0] - b[0]
    else CompareText(a[1..], b[1..])
  }

  function Compare(a: Entry, b: Entry): int {
    var s, t := a.symbol, b.symbol;
    if s.binding != t.binding then s.binding - t.binding
    else if CompareText(s.name, t.name) != 0 then CompareText(s.name, t.name)
    else if s.value != t.value then s.value - t.value
    else if s.section != t.section then s.section - t.section
    else if s.kind != t.kind then s.kind - t.kind
    else if s.size != t.size then s.size - t.size
    else if a.defined != b.defined then (if a.defined then 1 else -1)
    else 0
  }

  lemma {:induction false} TextEqual(a: Text, b: Text)
    ensures CompareText(a, b) == 0 <==> a == b
    ensures CompareText(a, b) < 0 <==> CompareText(b, a) > 0
    decreases |a|
  {
    if a != [] && b != [] {
      assert a == [a[0]] + a[1..] && b == [b[0]] + b[1..];
      TextEqual(a[1..], b[1..]);
    }
  }

  lemma {:induction false} TextTransitive(a: Text, b: Text, c: Text)
    requires CompareText(a, b) <= 0 && CompareText(b, c) <= 0
    ensures CompareText(a, c) <= 0
    decreases |a|
  {
    if a != [] && b != [] && c != [] && a[0] == b[0] == c[0] { TextTransitive(a[1..], b[1..], c[1..]); }
  }

  // A total order, equal only on symbols that are the same and defined alike: sorting
  // gives one table whatever order the symbols came in.
  lemma {:induction false} SymbolOrder(a: Entry, b: Entry, c: Entry)
    ensures Compare(a, b) == 0 <==> a.symbol == b.symbol && a.defined == b.defined
    ensures Compare(a, b) < 0 <==> Compare(b, a) > 0
    ensures Compare(a, b) <= 0 && Compare(b, c) <= 0 ==> Compare(a, c) <= 0
  {
    hide CompareText;
    TextEqual(a.symbol.name, b.symbol.name);
    TextEqual(b.symbol.name, a.symbol.name);
    TextEqual(b.symbol.name, c.symbol.name);
    TextEqual(a.symbol.name, c.symbol.name);
    if CompareText(a.symbol.name, b.symbol.name) <= 0 && CompareText(b.symbol.name, c.symbol.name) <= 0 {
      TextTransitive(a.symbol.name, b.symbol.name, c.symbol.name);
    }
  }

  // Two sequences of one length differ first at k, where a has the smaller number.
  ghost predicate SmallerAt(a: seq<int>, b: seq<int>, k: nat) {
    k < |a| && k < |b| && a[..k] == b[..k] && a[k] < b[k]
  }

  // The order of texts: the first difference decides, and the end comes before any byte.
  ghost predicate TextBefore(a: Text, b: Text) {
    (exists k: nat :: SmallerAt(a, b, k)) || (|a| < |b| && a == b[..|a|])
  }

  // Local symbols come first, then names decide, then what is left.
  ghost predicate Precedes(a: Entry, b: Entry) {
    var s, t := a.symbol, b.symbol;
    || s.binding < t.binding
    || (s.binding == t.binding && TextBefore(s.name, t.name))
    || (s.binding == t.binding && s.name == t.name && exists k: nat :: SmallerAt(Rest(a), Rest(b), k))
  }

  function Rest(e: Entry): seq<int> {
    [e.symbol.value, e.symbol.section, e.symbol.kind, e.symbol.size, if e.defined then 1 else 0]
  }

  lemma {:induction false} TextDecides(a: Text, b: Text)
    ensures CompareText(a, b) < 0 <==> TextBefore(a, b)
    decreases |a|
  {
    if a != [] && b != [] && a[0] == b[0] {
      TextDecides(a[1..], b[1..]);
      assert a == [a[0]] + a[1..] && b == [b[0]] + b[1..];
      forall k: nat ensures SmallerAt(a[1..], b[1..], k) <==> SmallerAt(a, b, k + 1) {
        if k < |a[1..]| && k < |b[1..]| { assert a[..k + 1] == [a[0]] + a[1..][..k] && b[..k + 1] == [b[0]] + b[1..][..k]; }
      }
      if TextBefore(a, b) && !(|a| < |b| && a == b[..|a|]) {
        var k: nat :| SmallerAt(a, b, k);
        assert k > 0;
        assert SmallerAt(a[1..], b[1..], k - 1);
      }
      assert |a| < |b| ==> b[..|a|] == [b[0]] + b[1..][..|a[1..]|];
    } else if a != [] && b != [] && a[0] < b[0] {
      assert SmallerAt(a, b, 0);
    }
  }

  // The order is the one that goes by binding, name, value, section, kind and size, and
  // puts what is undefined first.
  lemma {:induction false} OrderIs(a: Entry, b: Entry)
    ensures Compare(a, b) < 0 <==> Precedes(a, b)
  {
    hide CompareText, TextBefore;
    TextEqual(a.symbol.name, b.symbol.name);
    TextDecides(a.symbol.name, b.symbol.name);
    if a.symbol.binding == b.symbol.binding && a.symbol.name == b.symbol.name { RestDecides(a, b); }
  }

  lemma {:induction false} RestDecides(a: Entry, b: Entry)
    requires a.symbol.binding == b.symbol.binding && CompareText(a.symbol.name, b.symbol.name) == 0
    ensures Compare(a, b) < 0 <==> exists k: nat :: SmallerAt(Rest(a), Rest(b), k)
  {
    hide CompareText;
    var x, y := Rest(a), Rest(b);
    var k := if x[0] != y[0] then 0 else if x[1] != y[1] then 1 else if x[2] != y[2] then 2 else if x[3] != y[3] then 3 else 4;
    assert x[..k] == y[..k];
    if Compare(a, b) < 0 { assert SmallerAt(x, y, k); }
    if exists i: nat :: SmallerAt(x, y, i) {
      var i: nat :| SmallerAt(x, y, i);
      if i > k { assert x[..i][k] == y[..i][k]; }
      if i < k { assert x[..k][i] == y[..k][i]; }
    }
  }

  ghost predicate InOrder(entries: seq<Entry>) {
    forall i, j :: 0 <= i < j < |entries| ==> Compare(entries[i], entries[j]) <= 0
  }

  predicate Before(a: Relocation, b: Relocation) {
    a.offset < b.offset || (a.offset == b.offset && a.symbol < b.symbol)
  }

  ghost predicate Ordered(rs: seq<Relocation>) {
    forall i, j :: 0 <= i < j < |rs| ==> rs[i].offset <= rs[j].offset && (rs[i].offset == rs[j].offset ==> rs[i].symbol <= rs[j].symbol)
  }

  function Resolved(u: Use, entries: seq<Entry>): Relocation {
    ObjectFile.Relocation(u.offset, FindSymbol(entries, u.target, 0), u.kind, u.addend, u.width)
  }

  function AllResolved(us: seq<Use>, entries: seq<Entry>): seq<Relocation> {
    seq(|us|, i requires 0 <= i < |us| => Resolved(us[i], entries))
  }

  function SymbolsOf(entries: seq<Entry>): seq<Symbol> {
    seq(|entries|, k requires 0 <= k < |entries| => entries[k].symbol)
  }

  // The object that a builder's state stands for, once its symbols are in order.
  ghost predicate Describes(o: Object, sections: seq<Built>, entries: seq<Entry>) {
    && |o.sections| == |sections| && |o.symbols| == |entries|
    && (forall i :: 0 <= i < |entries| ==> o.symbols[i] == entries[i].symbol)
    && forall i :: 0 <= i < |sections| ==> DescribesSection(o.sections[i], sections[i], entries)
  }

  ghost predicate DescribesSection(s: ObjectFile.Section, b: Built, entries: seq<Entry>) {
    && s.name == b.name && s.kind == b.kind && s.alignment == b.alignment && s.size == b.size && s.data == b.data
    && Ordered(s.relocations) && multiset(s.relocations) == multiset(AllResolved(b.uses, entries))
  }

  // The first j entries are in order and none after them comes before.
  ghost predicate Settled(rs: seq<Relocation>, j: nat) {
    forall a, b :: 0 <= a < b < |rs| && a < j ==> !Before(rs[b], rs[a])
  }

  // Of the entries from j to k, that at j comes first.
  ghost predicate Least(rs: seq<Relocation>, j: nat, k: nat) {
    j < |rs| && forall b :: j < b < k && b < |rs| ==> !Before(rs[b], rs[j])
  }

  lemma {:induction false} Exchanged(s: seq<Relocation>, j: nat, k: nat)
    requires j < k < |s| && Settled(s, j) && Least(s, j, k)
    ensures var t := if Before(s[k], s[j]) then s[j := s[k]][k := s[j]] else s;
            Settled(t, j) && Least(t, j, k + 1) && multiset(t) == multiset(s)
  {
    hide Before;
    Transitive();
    if Before(s[k], s[j]) {
      var t := s[j := s[k]][k := s[j]];
      forall a, b | 0 <= a < b < |t| && a < j ensures !Before(t[b], t[a]) {
        var c := if b == j then k else if b == k then j else b;
        assert t[b] == s[c] && t[a] == s[a];
      }
    }
  }

  lemma Transitive()
    ensures forall x, y, z :: Before(x, y) && Before(y, z) ==> Before(x, z)
    ensures forall x, y :: Before(x, y) ==> !Before(y, x)
  {
  }

  // Exchange sort, as the writer does it.
  method SortRelocations(rs: array<Relocation>)
    modifies rs
    ensures Ordered(rs[..]) && multiset(rs[..]) == multiset(old(rs[..]))
  {
    hide Before, Settled, Least;
    var j := 0;
    NothingSettled(rs[..]);
    while j < rs.Length
      invariant 0 <= j <= rs.Length && multiset(rs[..]) == multiset(old(rs[..])) && Settled(rs[..], j)
    {
      var k := j + 1;
      NoneBetween(rs[..], j);
      while k < rs.Length
        invariant j < k <= rs.Length && multiset(rs[..]) == multiset(old(rs[..]))
        invariant Settled(rs[..], j) && Least(rs[..], j, k)
      {
        ghost var s := rs[..];
        Exchanged(s, j, k);
        if Before(rs[k], rs[j]) {
          rs[j], rs[k] := rs[k], rs[j];
          assert rs[..] == s[j := s[k]][k := s[j]];
        }
        k := k + 1;
      }
      OneMoreSettled(rs[..], j);
      j := j + 1;
    }
    AllSettled(rs[..]);
  }

  lemma {:induction false} NothingSettled(s: seq<Relocation>)
    ensures Settled(s, 0)
  {
  }

  lemma {:induction false} NoneBetween(s: seq<Relocation>, j: nat)
    requires j < |s|
    ensures Least(s, j, j + 1)
  {
  }

  lemma {:induction false} OneMoreSettled(s: seq<Relocation>, j: nat)
    requires j < |s| && Settled(s, j) && Least(s, j, |s|)
    ensures Settled(s, j + 1)
  {
    hide Before;
  }

  lemma {:induction false} AllSettled(s: seq<Relocation>)
    requires Settled(s, |s|)
    ensures Ordered(s)
  {
    forall i, j | 0 <= i < j < |s| ensures s[i].offset <= s[j].offset && (s[i].offset == s[j].offset ==> s[i].symbol <= s[j].symbol) {
      assert !Before(s[j], s[i]);
    }
  }

  method ResolveSection(b: Built, entries: seq<Entry>) returns (s: ObjectFile.Section)
    ensures DescribesSection(s, b, entries)
  {
    var all := AllResolved(b.uses, entries);
    var rs := new Relocation[|all|](i requires 0 <= i < |all| => all[i]);
    assert rs[..] == all;
    SortRelocations(rs);
    s := ObjectFile.Section(b.name, b.kind, b.alignment, b.size, b.data, rs[..]);
  }

  lemma {:induction false} SectionDescribed(s: ObjectFile.Section, b: Built, entries: seq<Entry>)
    requires DescribesSection(s, b, entries) && BuiltFits(b, entries)
    ensures ObjectRoundTrip.SectionFits(s, |entries|)
  {
    hide ObjectFile.WidthMatches, Ordered;
    forall j | 0 <= j < |s.relocations| ensures ObjectRoundTrip.RelocationFits(s.relocations[j], |entries|) {
      assert s.relocations[j] in multiset(AllResolved(b.uses, entries));
      var all := AllResolved(b.uses, entries);
      var k :| 0 <= k < |all| && all[k] == s.relocations[j];
      assert UseFits(b.uses[k], entries);
    }
  }

  // The values that do not fit the format are refused.
  predicate InLimits(o: Object) {
    && |o.sections| <= ObjectFile.MAX_SECTIONS && |o.symbols| <= ObjectFile.MAX_SYMBOLS
    && ObjectFile.FileSize(o) <= ObjectFile.FILE_LIMIT
    && forall i :: 0 <= i < |o.symbols| ==> o.symbols[i].value < ObjectFile.WORD32
  }

  // The names of a file, interned in the order the writer comes to them.
  method InternNames(o: Object) returns (table: Strings.StringTable, offsets: seq<nat>)
    ensures fresh(table) && table.Valid() && (table.names, offsets) == Strings.InternAll([], ObjectFile.AllNames(o))
    ensures |offsets| == 2 + |o.sections| + |o.symbols|
  {
    hide Strings.Intern, Strings.Bytes;
    table := new Strings.StringTable();
    var all := ObjectFile.AllNames(o);
    offsets := [];
    var k := 0;
    while k < |all|
      invariant 0 <= k <= |all| && fresh(table) && table.Valid() && (table.names, offsets) == Strings.InternAll([], all[..k])
    {
      var offset := table.Add(all[k]);
      offsets := offsets + [offset];
      assert all[..k + 1][..k] == all[..k] && all[..k + 1][k] == all[k];
      k := k + 1;
    }
    assert all[..k] == all;
    Strings.InternAllNames([], all);
  }

  // The size of the whole file, summed up part by part.
  method Measure(o: Object, stringsSize: nat) returns (relocsEnd: nat, total: nat)
    requires stringsSize == |Strings.Bytes(ObjectFile.Names(o))|
    ensures relocsEnd == ObjectFile.StringsAt(o) && total == ObjectFile.FileSize(o)
  {
    hide Records.Flat, Strings.Bytes;
    relocsEnd := ObjectFile.RelocsAt(o);
    total := 0;
    var i := 0;
    while i < |o.sections|
      invariant 0 <= i <= |o.sections| && relocsEnd == ObjectFile.SectionRelocsAt(o, i)
      invariant total == Records.Start(ObjectFile.DataPieces(o), i)
    {
      ObjectRoundTrip.TableSize(ObjectFile.RelocTable(o.sections[i].relocations), ObjectFile.RELOC_SIZE);
      relocsEnd := relocsEnd + |o.sections[i].relocations| * ObjectFile.RELOC_SIZE;
      total := total + |o.sections[i].data|;
      i := i + 1;
    }
    Whole(ObjectFile.RelocPieces(o));
    Whole(ObjectFile.DataPieces(o));
    total := relocsEnd + stringsSize + total;
  }

  lemma {:induction false} Whole(pieces: seq<seq<Byte>>)
    ensures Records.Start(pieces, |pieces|) == |Records.Flat(pieces)|
  {
    Records.FlatStart(pieces, |pieces|);
    assert pieces[..|pieces|] == pieces;
  }

  lemma {:induction false} OneMorePiece(pieces: seq<seq<Byte>>, i: nat)
    requires i < |pieces|
    ensures Records.Flat(pieces[..i + 1]) == Records.Flat(pieces[..i]) + pieces[i]
  {
    assert pieces[..i + 1][..i] == pieces[..i];
  }

  // The parts of the file, filled at moving cursors.
  method LayOut(o: Object) returns (ok: bool, file: seq<Byte>)
    ensures ok == InLimits(o)
    ensures ok ==> file == ObjectFile.FileBytes(o)
  {
    hide Records.Flat, Records.Encode, Crc.Crc32, Crc.FileCrc32, Strings.Bytes, ObjectFile.Power, ObjectFile.Pieces, ObjectFile.Header, Strings.InternAll;
    if |o.sections| > ObjectFile.MAX_SECTIONS || |o.symbols| > ObjectFile.MAX_SYMBOLS { return false, []; }
    var table, offsets := InternNames(o);
    var stringsAt, total := Measure(o, |table.bytes|);
    if total > ObjectFile.FILE_LIMIT { return false, []; }
    var sectionTable := LayOutSections(o, offsets, stringsAt + |table.bytes|);
    var relocTable, data := LayOutContents(o);
    var fit, symbolTable := LayOutSymbols(o, offsets);
    if !fit { return false, []; }
    ObjectFile.Widths();
    var fields := Records.Encode(ObjectFile.HEADER,
      [ObjectFile.MAGIC, 1, 0x3433, 1, 62, ObjectFile.HEADER_SIZE, stringsAt + offsets[1], |ObjectFile.TARGET| + 1, ObjectFile.HEADER_SIZE,
       |o.sections|, ObjectFile.HEADER_SIZE + |o.sections| * ObjectFile.SECTION_SIZE, |o.symbols|, stringsAt, |table.bytes|, 0, 0, 0]);
    var rest := sectionTable + symbolTable + relocTable + table.bytes + data;
    AllParts(o, sectionTable, symbolTable, relocTable, table.bytes, data);
    file := ObjectFile.Header(fields, Crc.FileCrc32(ObjectFile.Header(fields, 0) + rest)) + rest;
    ok := true;
  }

  lemma {:induction false} AllParts(o: Object, a: seq<Byte>, b: seq<Byte>, c: seq<Byte>, d: seq<Byte>, e: seq<Byte>)
    requires a == Records.Flat(ObjectFile.SectionPieces(o)) && b == Records.Flat(ObjectFile.SymbolPieces(o))
    requires c == Records.Flat(ObjectFile.RelocPieces(o)) && d == Strings.Bytes(ObjectFile.Names(o))
    requires e == Records.Flat(ObjectFile.DataPieces(o))
    ensures Records.Flat(ObjectFile.Pieces(o)) == a + b + c + d + e
  {
    hide Records.Flat, ObjectFile.SectionPieces, ObjectFile.SymbolPieces, ObjectFile.RelocPieces, ObjectFile.DataPieces, Strings.Bytes, ObjectFile.Names;
    FivePieces(a, b, c, d, e);
  }

  lemma {:induction false} FivePieces(a: seq<Byte>, b: seq<Byte>, c: seq<Byte>, d: seq<Byte>, e: seq<Byte>)
    ensures Records.Flat([a, b, c, d, e]) == a + b + c + d + e
  {
    var ps := [a, b, c, d, e];
    assert Records.Flat(ps[..1]) == a by { OneMorePiece(ps, 0); }
    OneMorePiece(ps, 1);
    OneMorePiece(ps, 2);
    OneMorePiece(ps, 3);
    OneMorePiece(ps, 4);
    assert ps[..5] == ps;
  }

  // The relocation tables and the payloads.
  method LayOutContents(o: Object) returns (relocs: seq<Byte>, data: seq<Byte>)
    ensures relocs == Records.Flat(ObjectFile.RelocPieces(o)) && data == Records.Flat(ObjectFile.DataPieces(o))
  {
    hide Records.Flat, ObjectFile.RelocTable;
    relocs, data := [], [];
    NoPieces();
    var i := 0;
    while i < |o.sections|
      invariant 0 <= i <= |o.sections|
      invariant relocs == Records.Flat(ObjectFile.RelocPieces(o)[..i])
      invariant data == Records.Flat(ObjectFile.DataPieces(o)[..i])
    {
      OneMorePiece(ObjectFile.RelocPieces(o), i);
      OneMorePiece(ObjectFile.DataPieces(o), i);
      relocs := relocs + Records.Flat(ObjectFile.RelocTable(o.sections[i].relocations));
      data := data + o.sections[i].data;
      i := i + 1;
    }
    assert ObjectFile.RelocPieces(o)[..i] == ObjectFile.RelocPieces(o);
    assert ObjectFile.DataPieces(o)[..i] == ObjectFile.DataPieces(o);
  }

  method LayOutSections(o: Object, offsets: seq<nat>, dataAt: nat) returns (table: seq<Byte>)
    requires offsets == Strings.InternAll([], ObjectFile.AllNames(o)).1 && |offsets| == 2 + |o.sections| + |o.symbols|
    requires dataAt == ObjectFile.DataAt(o)
    ensures table == Records.Flat(ObjectFile.SectionPieces(o))
  {
    hide Records.Flat, Strings.Bytes, ObjectFile.SectionRecord, ObjectFile.AllNames, Strings.InternAll;
    table := [];
    NoPieces();
    var payloadAt, relocsAt := dataAt, ObjectFile.RelocsAt(o);
    var i := 0;
    while i < |o.sections|
      invariant 0 <= i <= |o.sections| && payloadAt == ObjectFile.PayloadAt(o, i) && relocsAt == ObjectFile.SectionRelocsAt(o, i)
      invariant table == Records.Flat(ObjectFile.SectionPieces(o)[..i])
    {
      var s := o.sections[i];
      var record := LayOutSection(o, offsets, i, payloadAt, relocsAt);
      table := table + record;
      OneMorePiece(ObjectFile.SectionPieces(o), i);
      ObjectRoundTrip.TableSize(ObjectFile.RelocTable(s.relocations), ObjectFile.RELOC_SIZE);
      payloadAt, relocsAt := payloadAt + |s.data|, relocsAt + |s.relocations| * ObjectFile.RELOC_SIZE;
      i := i + 1;
    }
    assert ObjectFile.SectionPieces(o)[..i] == ObjectFile.SectionPieces(o);
  }

  method LayOutSection(o: Object, offsets: seq<nat>, i: nat, payloadAt: nat, relocsAt: nat) returns (record: seq<Byte>)
    requires offsets == Strings.InternAll([], ObjectFile.AllNames(o)).1 && |offsets| == 2 + |o.sections| + |o.symbols|
    requires i < |o.sections| && payloadAt == ObjectFile.PayloadAt(o, i) && relocsAt == ObjectFile.SectionRelocsAt(o, i)
    ensures record == ObjectFile.SectionRecord(o, i)
  {
    hide Records.Encode, Crc.Crc32, ObjectFile.Power, ObjectFile.PayloadAt, ObjectFile.SectionRelocsAt, ObjectFile.AllNames;
    var s := o.sections[i];
    ObjectFile.Widths();
    record := Records.Encode(ObjectFile.SECTION,
      [offsets[2 + i], if s.kind == ObjectFile.BSS then 0 else payloadAt, s.size, if s.relocations == [] then 0 else relocsAt,
       |s.relocations|, ObjectFile.Power(s.alignment, 0), s.kind, 0, i, 0, 0,
       if s.kind == ObjectFile.BSS then 0 else Crc.Crc32(s.data)]);
  }

  lemma {:induction false} NoPieces()
    ensures forall ps: seq<seq<Byte>> :: Records.Flat(ps[..0]) == []
  {
  }

  method LayOutSymbol(o: Object, offsets: seq<nat>, i: nat) returns (record: seq<Byte>)
    requires offsets == Strings.InternAll([], ObjectFile.AllNames(o)).1 && |offsets| == 2 + |o.sections| + |o.symbols|
    requires i < |o.symbols|
    ensures record == ObjectFile.SymbolRecord(o, i)
  {
    hide Records.Encode, ObjectFile.AllNames;
    var s := o.symbols[i];
    ObjectFile.Widths();
    record := Records.Encode(ObjectFile.SYMBOL,
      [offsets[2 + |o.sections| + i], s.value, s.section, s.binding, s.kind, 0, s.size, 0, 0]);
  }

  method LayOutSymbols(o: Object, offsets: seq<nat>) returns (ok: bool, table: seq<Byte>)
    requires offsets == Strings.InternAll([], ObjectFile.AllNames(o)).1 && |offsets| == 2 + |o.sections| + |o.symbols|
    ensures ok == forall i :: 0 <= i < |o.symbols| ==> o.symbols[i].value < ObjectFile.WORD32
    ensures ok ==> table == Records.Flat(ObjectFile.SymbolPieces(o))
  {
    hide Records.Flat, ObjectFile.SymbolRecord, ObjectFile.AllNames, Strings.InternAll;
    table := [];
    NoPieces();
    var i := 0;
    while i < |o.symbols|
      invariant 0 <= i <= |o.symbols| && table == Records.Flat(ObjectFile.SymbolPieces(o)[..i])
      invariant forall k :: 0 <= k < i ==> o.symbols[k].value < ObjectFile.WORD32
    {
      var s := o.symbols[i];
      if s.value >= ObjectFile.WORD32 { return false, []; }
      var record := LayOutSymbol(o, offsets, i);
      table := table + record;
      OneMorePiece(ObjectFile.SymbolPieces(o), i);
      i := i + 1;
    }
    assert ObjectFile.SymbolPieces(o)[..i] == ObjectFile.SymbolPieces(o);
    ok := true;
  }

  // An object under construction.
  class ObjectBuilder {
    var sections: seq<Built>
    var entries: seq<Entry>

    ghost predicate Valid()
      reads this
    {
      && (forall i :: 0 <= i < |sections| ==> BuiltFits(sections[i], entries))
      && (forall i :: 0 <= i < |entries| ==> EntryFits(entries[i]))
    }

    constructor ()
      ensures Valid() && sections == [] && entries == []
    {
      sections, entries := [], [];
    }

    method AddSection(name: Text, kind: nat, alignment: nat) returns (ok: bool)
      requires Valid() && Strings.Plain(name)
      modifies this
      ensures Valid() && entries == old(entries) && ok == (kind <= 3 && ObjectRoundTrip.IsAlignment(alignment))
      ensures sections == if ok then old(sections) + [Built(name, kind, alignment, 0, [], [])] else old(sections)
    {
      var aligned := CheckAlignment(alignment);
      ok := kind <= 3 && aligned;
      if ok { sections := sections + [Built(name, kind, alignment, 0, [], [])]; }
    }

    method AppendData(i: nat, data: seq<Byte>) returns (ok: bool)
      requires Valid() && i < |sections| && sections[i].kind != ObjectFile.BSS
      modifies this
      ensures Valid() && entries == old(entries) && ok == (old(sections[i]).size + |data| <= ObjectFile.PAYLOAD_LIMIT)
      ensures sections == if ok then old(sections)[i := old(sections[i]).(data := old(sections[i]).data + data,
                                                                         size := old(sections[i]).size + |data|)]
                          else old(sections)
    {
      var s := sections[i];
      ok := s.size <= ObjectFile.PAYLOAD_LIMIT && |data| <= ObjectFile.PAYLOAD_LIMIT - s.size;
      assert BuiltFits(s, entries);
      if ok { sections := sections[i := s.(data := s.data + data, size := s.size + |data|)]; }
    }

    method AddSymbol(symbol: Symbol, defined: bool, source: int) returns (ok: bool)
      requires Valid() && Strings.Plain(symbol.name) && symbol.section < ObjectFile.WORD32 && symbol.size < Words.WORD
      modifies this
      ensures Valid() && sections == old(sections) && ok == (symbol.binding <= 1 && symbol.kind <= 4)
      ensures entries == if ok then old(entries) + [Entry(symbol, defined, source)] else old(entries)
    {
      ok := symbol.binding <= 1 && symbol.kind <= 4;
      if ok {
        StillFit(sections, entries, entries + [Entry(symbol, defined, source)]);
        entries := entries + [Entry(symbol, defined, source)];
      }
    }

    // A symbol that is not in the table yet is entered as undefined.
    method AddRelocation(i: nat, u: Use) returns (ok: bool)
      requires Valid() && i < |sections| && Strings.Plain(u.target.name) && Words.InRange(Words.LONG, u.addend)
      modifies this
      ensures Valid()
      ensures ok == (ObjectFile.WidthMatches(u.kind, u.width) && (u.width == 4 || u.width == 8)
                     && u.offset + u.width <= ObjectFile.PAYLOAD_LIMIT)
      ensures ok ==> sections == old(sections)[i := old(sections[i]).(uses := [u] + old(sections[i]).uses)]
      ensures ok && Found(old(entries), u.target) ==> entries == old(entries)
      ensures ok && !Found(old(entries), u.target) ==>
                entries == old(entries) + [Entry(ObjectFile.Symbol(u.target.name, 0, ObjectFile.NO_SECTION, if u.target.internal then 0 else 1,
                                                                   if u.target.isFunction then 2 else 1, 0), false, u.target.id)]
      ensures !ok ==> sections == old(sections) && entries == old(entries)
    {
      if !ObjectFile.WidthMatches(u.kind, u.width) || (u.width != 4 && u.width != 8)
         || u.offset > ObjectFile.PAYLOAD_LIMIT || u.width > ObjectFile.PAYLOAD_LIMIT - u.offset {
        return false;
      }
      var at := FindSymbol(entries, u.target, 0);
      if at == |entries| {
        var symbol := ObjectFile.Symbol(u.target.name, 0, ObjectFile.NO_SECTION, if u.target.internal then 0 else 1,
                                        if u.target.isFunction then 2 else 1, 0);
        var added := AddSymbol(symbol, false, u.target.id);
        assert Matches(entries[at], u.target);
      }
      var s := sections[i];
      assert BuiltFits(s, entries);
      OneMoreUse(s, u, entries);
      sections := sections[i := s.(uses := [u] + s.uses)];
      ok := true;
    }

    // The library's sort supplies the symbols in order; everything else is laid
    // out from them.
    method Write(sorted: seq<Entry>) returns (ok: bool, file: seq<Byte>, ghost o: Object)
      requires Valid() && InOrder(sorted) && multiset(sorted) == multiset(entries)
      modifies this
      ensures Valid() && sections == old(sections) && entries == sorted
      ensures Describes(o, sections, entries) && ok == InLimits(o)
      ensures ok ==> ObjectRoundTrip.Writable(o) && file == ObjectFile.FileBytes(o)
    {
      hide BuiltFits, EntryFits, DescribesSection, InOrder, InLimits, ObjectRoundTrip.Writable, ObjectFile.FileBytes;
      SameEntries(sections, entries, sorted);
      entries := sorted;
      var resolved, i := [], 0;
      while i < |sections|
        invariant 0 <= i <= |sections| && |resolved| == i && sections == old(sections) && entries == sorted
        invariant forall k :: 0 <= k < i ==> DescribesSection(resolved[k], sections[k], entries)
      {
        var s := ResolveSection(sections[i], entries);
        resolved := resolved + [s];
        i := i + 1;
      }
      var described := ObjectFile.Object(resolved, SymbolsOf(sorted));
      o := described;
      ok, file := LayOut(described);
      if ok { WritableObject(o, sections, entries); }
    }
  }

  method CheckAlignment(alignment: nat) returns (ok: bool)
    ensures ok == ObjectRoundTrip.IsAlignment(alignment)
  {
    hide Words.Pow2;
    ok := false;
    var p: nat := 0;
    while p <= 15
      invariant 0 <= p <= 16 && (ok ==> ObjectRoundTrip.IsAlignment(alignment))
      invariant !ok ==> forall q: nat :: q < p ==> alignment != Words.Pow2(q)
    {
      if alignment == Words.Pow2(p) { ok := true; }
      p := p + 1;
    }
  }

  lemma {:induction false} OneMoreUse(s: Built, u: Use, entries: seq<Entry>)
    requires BuiltFits(s, entries) && UseFits(u, entries)
    ensures BuiltFits(s.(uses := [u] + s.uses), entries)
  {
    hide UseFits;
  }

  lemma {:induction false} StillFit(sections: seq<Built>, entries: seq<Entry>, more: seq<Entry>)
    requires (forall i :: 0 <= i < |sections| ==> BuiltFits(sections[i], entries)) && entries <= more
    ensures forall i :: 0 <= i < |sections| ==> BuiltFits(sections[i], more)
  {
    hide Matches;
    forall i, j | 0 <= i < |sections| && 0 <= j < |sections[i].uses| ensures UseFits(sections[i].uses[j], more) {
      assert BuiltFits(sections[i], entries);
      var target := sections[i].uses[j].target;
      var k :| 0 <= k < |entries| && Matches(entries[k], target);
      assert more[k] == entries[k];
    }
  }

  lemma {:induction false} SameEntries(sections: seq<Built>, entries: seq<Entry>, sorted: seq<Entry>)
    requires multiset(sorted) == multiset(entries)
    requires forall i :: 0 <= i < |sections| ==> BuiltFits(sections[i], entries)
    requires forall i :: 0 <= i < |entries| ==> EntryFits(entries[i])
    ensures forall i :: 0 <= i < |sections| ==> BuiltFits(sections[i], sorted)
    ensures forall i :: 0 <= i < |sorted| ==> EntryFits(sorted[i])
  {
    hide Matches, EntryFits;
    forall i | 0 <= i < |sorted| ensures EntryFits(sorted[i]) {
      assert sorted[i] in multiset(entries);
    }
    forall i, j | 0 <= i < |sections| && 0 <= j < |sections[i].uses| ensures UseFits(sections[i].uses[j], sorted) {
      assert BuiltFits(sections[i], entries);
      var target := sections[i].uses[j].target;
      var k :| 0 <= k < |entries| && Matches(entries[k], target);
      assert entries[k] in multiset(sorted);
    }
  }

  lemma {:induction false} WritableObject(o: Object, sections: seq<Built>, entries: seq<Entry>)
    requires Describes(o, sections, entries) && InLimits(o)
    requires forall i :: 0 <= i < |sections| ==> BuiltFits(sections[i], entries)
    requires forall i :: 0 <= i < |entries| ==> EntryFits(entries[i])
    ensures ObjectRoundTrip.Writable(o)
  {
    hide BuiltFits, DescribesSection, ObjectRoundTrip.SectionFits;
    forall i | 0 <= i < |o.sections| ensures ObjectRoundTrip.SectionFits(o.sections[i], |o.symbols|) {
      SectionDescribed(o.sections[i], sections[i], entries);
    }
    forall i | 0 <= i < |o.symbols| ensures ObjectRoundTrip.SymbolFits(o.symbols[i]) {
      assert EntryFits(entries[i]);
    }
  }

}
