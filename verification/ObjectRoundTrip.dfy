// Reading undoes writing.
module ObjectRoundTrip {
  import Words
  import Crc
  import Records
  import Strings
  import ObjectFile
  import ObjectReader

  type Byte = Records.Byte
  type Object = ObjectFile.Object
  type Section = ObjectFile.Section
  type Symbol = ObjectFile.Symbol
  type Relocation = ObjectFile.Relocation
  type Range = ObjectReader.Range

  ghost predicate IsAlignment(a: nat) { exists p: nat :: p <= 15 && a == Words.Pow2(p) }

  predicate RelocationFits(r: Relocation, symbols: nat) {
    && r.offset < Words.WORD && r.symbol < symbols && ObjectFile.WidthMatches(r.kind, r.width)
    && Words.InRange(Words.LONG, r.addend) && r.width < ObjectFile.WORD32
  }

  ghost predicate SectionFits(s: Section, symbols: nat) {
    && Strings.Plain(s.name) && s.kind <= 3 && IsAlignment(s.alignment)
    && (if s.kind == ObjectFile.BSS then s.data == [] && s.size < ObjectFile.WORD32 else s.size == |s.data| <= ObjectFile.PAYLOAD_LIMIT)
    && forall j :: 0 <= j < |s.relocations| ==> RelocationFits(s.relocations[j], symbols)
  }

  ghost predicate SymbolFits(s: Symbol) {
    && Strings.Plain(s.name) && s.value < ObjectFile.WORD32 && s.section < ObjectFile.WORD32
    && s.binding <= 1 && s.kind <= 4 && s.size < Words.WORD
  }

  // What the builder's own checks and the format's limits leave.
  ghost predicate Writable(o: Object) {
    && |o.sections| <= ObjectFile.MAX_SECTIONS && |o.symbols| <= ObjectFile.MAX_SYMBOLS
    && ObjectFile.FileSize(o) <= ObjectFile.FILE_LIMIT
    && (forall i :: 0 <= i < |o.sections| ==> SectionFits(o.sections[i], |o.symbols|))
    && (forall i :: 0 <= i < |o.symbols| ==> SymbolFits(o.symbols[i]))
  }

  predicate RelocationsInside(s: Section) {
    forall j :: 0 <= j < |s.relocations| ==> s.relocations[j].offset + s.relocations[j].width <= s.size
  }

  // What the linker asks of a section besides.
  predicate SectionLinks(o: Object, i: nat)
    requires i < |o.sections|
  {
    && (o.sections[i].kind <= 1 ==> o.sections[i].alignment >= 16)
    && RelocationsInside(o.sections[i])
    && forall j :: 0 <= j < i ==> o.sections[j].name != o.sections[i].name
  }

  predicate Linkable(o: Object) {
    && (forall i :: 0 <= i < |o.sections| ==> SectionLinks(o, i))
    && (forall i :: 0 <= i < |o.symbols| ==> ObjectReader.SymbolOk(o.symbols[i], o.sections))
  }

  lemma {:induction false} PowerFound(p: nat, k: nat)
    requires k <= p <= 15
    ensures ObjectFile.Power(Words.Pow2(p), k) == p
    decreases p - k
  {
    if k < p {
      Words.PowersGrow(k, p);
      PowerFound(p, k + 1);
    }
  }

  lemma {:induction false} AlignmentRead(a: nat)
    requires IsAlignment(a)
    ensures ObjectFile.Power(a, 0) <= 15 && Words.Pow2(ObjectFile.Power(a, 0)) == a
  {
    var p :| p <= 15 && a == Words.Pow2(p);
    PowerFound(p, 0);
  }

  // The names.

  lemma {:induction false} NameRead(o: Object, k: nat)
    requires Writable(o) && k < 2 + |o.sections| + |o.symbols|
    ensures var strings, name, at := Strings.Bytes(ObjectFile.Names(o)), ObjectFile.AllNames(o)[k], ObjectFile.NameOffset(o, k);
            && at < |strings| && Strings.End(strings, at) == at + |name| < |strings| && strings[at..at + |name|] == name
            && strings[at..at + |name| + 1] == name + [0] && strings[|strings| - 1] == 0
  {
    hide Strings.Names, Strings.Bytes, Writable, Strings.InternAll, ObjectFile.AllNames;
    var names := ObjectFile.AllNames(o);
    NamesPlain(o);
    Strings.InternAllNames([], names);
    Strings.NameReadBack(ObjectFile.Names(o), ObjectFile.NameOffset(o, k), names[k]);
    SomeName(ObjectFile.Names(o), ObjectFile.NameOffset(o, k), names[k]);
    Strings.LastByte(ObjectFile.Names(o));
  }

  lemma {:induction false} SomeName(names: seq<Strings.Text>, offset: nat, text: Strings.Text)
    requires Strings.Names(names, offset, text)
    ensures names != []
  {
  }

  lemma {:induction false} NamesPlain(o: Object)
    requires Writable(o)
    ensures Strings.AllPlain(ObjectFile.AllNames(o))
  {
    var n := |o.sections|;
    forall k | 0 <= k < |ObjectFile.AllNames(o)| ensures Strings.Plain(ObjectFile.AllNames(o)[k]) {
      if 2 <= k < 2 + n { assert SectionFits(o.sections[k - 2], |o.symbols|); }
      if k >= 2 + n { assert SymbolFits(o.symbols[k - 2 - n]); }
    }
  }

  // Where the parts lie.

  lemma {:induction false} PartAt(o: Object, k: nat)
    requires k < 5
    ensures var at := ObjectFile.HEADER_SIZE + Records.Start(ObjectFile.Pieces(o), k);
            var piece := ObjectFile.Pieces(o)[k];
            && at + |piece| <= |ObjectFile.FileBytes(o)|
            && ObjectFile.FileBytes(o)[at..at + |piece|] == piece
  {
    hide ObjectFile.Header, ObjectFile.HeaderBytes, ObjectFile.Pieces;
    var ps := ObjectFile.Pieces(o);
    Records.PieceAt(ps, 5, k);
    assert ps[..5] == ps;
    var rest := Records.Flat(ps);
    var header := ObjectFile.Header(ObjectFile.HeaderBytes(o), Crc.FileCrc32(ObjectFile.Header(ObjectFile.HeaderBytes(o), 0) + rest));
    Shifted(header, rest, Records.Start(ps, k), Records.Start(ps, k) + |ps[k]|);
  }

  lemma {:induction false} Shifted(a: seq<Byte>, b: seq<Byte>, i: nat, j: nat)
    requires i <= j <= |b|
    ensures (a + b)[|a| + i..|a| + j] == b[i..j]
  {
  }

  lemma {:induction false} PartStarts(o: Object)
    ensures var ps := ObjectFile.Pieces(o);
            && ObjectFile.HEADER_SIZE + Records.Start(ps, 0) == ObjectFile.HEADER_SIZE
            && ObjectFile.HEADER_SIZE + Records.Start(ps, 1) == ObjectFile.SymbolsAt(o)
            && ObjectFile.HEADER_SIZE + Records.Start(ps, 2) == ObjectFile.RelocsAt(o)
            && ObjectFile.HEADER_SIZE + Records.Start(ps, 3) == ObjectFile.StringsAt(o)
            && ObjectFile.HEADER_SIZE + Records.Start(ps, 4) == ObjectFile.DataAt(o)
            && |ObjectFile.FileBytes(o)| == ObjectFile.FileSize(o)
  {
    hide Records.Flat, ObjectFile.RelocPieces, ObjectFile.DataPieces, ObjectFile.Names, ObjectFile.HeaderBytes, ObjectFile.Header;
    var ps := ObjectFile.Pieces(o);
    TableSize(ObjectFile.SectionPieces(o), ObjectFile.SECTION_SIZE);
    TableSize(ObjectFile.SymbolPieces(o), ObjectFile.SYMBOL_SIZE);
    assert Records.Start(ps, 1) == |ps[0]|;
    assert Records.Start(ps, 2) == |ps[0]| + |ps[1]|;
    assert Records.Start(ps, 4) == Records.Start(ps, 2) + |ps[2]| + |ps[3]|;
    Records.FlatStart(ps, 5);
    assert ps[..5] == ps;
  }

  lemma {:induction false} TableSize(pieces: seq<seq<Byte>>, width: nat)
    requires forall k :: 0 <= k < |pieces| ==> |pieces[k]| == width
    ensures |Records.Flat(pieces)| == |pieces| * width
  {
    Records.EqualPieces(pieces, |pieces|, width);
    Records.FlatStart(pieces, |pieces|);
    assert pieces[..|pieces|] == pieces;
  }

  // The i-th record of a table that stands in a file.
  lemma {:induction false} RecordInFile(bytes: seq<Byte>, at: nat, pieces: seq<seq<Byte>>, i: nat, width: nat)
    requires forall k :: 0 <= k < |pieces| ==> |pieces[k]| == width
    requires at + |Records.Flat(pieces)| <= |bytes| && bytes[at..at + |Records.Flat(pieces)|] == Records.Flat(pieces)
    requires i < |pieces|
    ensures |Records.Flat(pieces)| == |pieces| * width && i * width + width <= |pieces| * width
    ensures bytes[at + i * width..at + i * width + width] == pieces[i]
  {
    Records.RecordAt(pieces, i, width);
    Records.SliceOfSlice(bytes, at, at + |Records.Flat(pieces)|, i * width, i * width + width);
  }

  lemma {:induction false} SectionRecordRead(o: Object, i: nat)
    requires i < |o.sections|
    ensures var bytes, at := ObjectFile.FileBytes(o), ObjectFile.HEADER_SIZE + i * ObjectFile.SECTION_SIZE;
            at + ObjectFile.SECTION_SIZE <= ObjectFile.SymbolsAt(o) <= |bytes|
            && bytes[at..at + ObjectFile.SECTION_SIZE] == ObjectFile.SectionRecord(o, i)
  {
    hide Records.Flat, ObjectFile.FileBytes, ObjectFile.SectionRecord;
    PartAt(o, 0);
    PartStarts(o);
    RecordInFile(ObjectFile.FileBytes(o), ObjectFile.HEADER_SIZE, ObjectFile.SectionPieces(o), i, ObjectFile.SECTION_SIZE);
  }

  lemma {:induction false} SymbolRecordRead(o: Object, i: nat)
    requires i < |o.symbols|
    ensures var bytes, at := ObjectFile.FileBytes(o), ObjectFile.SymbolsAt(o) + i * ObjectFile.SYMBOL_SIZE;
            at + ObjectFile.SYMBOL_SIZE <= ObjectFile.RelocsAt(o) <= |bytes|
            && bytes[at..at + ObjectFile.SYMBOL_SIZE] == ObjectFile.SymbolRecord(o, i)
  {
    hide Records.Flat, ObjectFile.FileBytes, ObjectFile.SymbolRecord;
    PartAt(o, 1);
    PartStarts(o);
    RecordInFile(ObjectFile.FileBytes(o), ObjectFile.SymbolsAt(o), ObjectFile.SymbolPieces(o), i, ObjectFile.SYMBOL_SIZE);
  }

  lemma {:induction false} PieceInFile(bytes: seq<Byte>, at: nat, pieces: seq<seq<Byte>>, i: nat)
    requires at + |Records.Flat(pieces)| <= |bytes| && bytes[at..at + |Records.Flat(pieces)|] == Records.Flat(pieces)
    requires i < |pieces|
    ensures Records.Start(pieces, i) + |pieces[i]| <= |Records.Flat(pieces)|
    ensures var start := at + Records.Start(pieces, i); bytes[start..start + |pieces[i]|] == pieces[i]
  {
    Records.PieceAt(pieces, |pieces|, i);
    assert pieces[..|pieces|] == pieces;
    Records.SliceOfSlice(bytes, at, at + |Records.Flat(pieces)|, Records.Start(pieces, i), Records.Start(pieces, i) + |pieces[i]|);
  }

  lemma {:induction false} PayloadRead(o: Object, i: nat)
    requires i < |o.sections|
    ensures var bytes, at, data := ObjectFile.FileBytes(o), ObjectFile.PayloadAt(o, i), o.sections[i].data;
            && at + |data| == ObjectFile.PayloadAt(o, i + 1) <= ObjectFile.FileSize(o) == |bytes|
            && bytes[at..at + |data|] == data
  {
    hide Records.Flat, ObjectFile.FileBytes;
    PartAt(o, 4);
    PartStarts(o);
    PieceInFile(ObjectFile.FileBytes(o), ObjectFile.DataAt(o), ObjectFile.DataPieces(o), i);
  }

  lemma {:induction false} RelocsRead(o: Object, i: nat)
    requires i < |o.sections|
    ensures var bytes, at, rs := ObjectFile.FileBytes(o), ObjectFile.SectionRelocsAt(o, i), o.sections[i].relocations;
            && at + |rs| * ObjectFile.RELOC_SIZE == ObjectFile.SectionRelocsAt(o, i + 1) <= ObjectFile.StringsAt(o) <= |bytes|
            && |Records.Flat(ObjectFile.RelocTable(rs))| == |rs| * ObjectFile.RELOC_SIZE
            && bytes[at..at + |rs| * ObjectFile.RELOC_SIZE] == Records.Flat(ObjectFile.RelocTable(rs))
  {
    hide Records.Flat, ObjectFile.FileBytes, ObjectFile.RelocRecord;
    PartAt(o, 2);
    PartStarts(o);
    PieceInFile(ObjectFile.FileBytes(o), ObjectFile.RelocsAt(o), ObjectFile.RelocPieces(o), i);
    TableSize(ObjectFile.RelocTable(o.sections[i].relocations), ObjectFile.RELOC_SIZE);
  }

  lemma {:induction false} StringsRead(o: Object)
    ensures var bytes, at, strings := ObjectFile.FileBytes(o), ObjectFile.StringsAt(o), Strings.Bytes(ObjectFile.Names(o));
            at + |strings| == ObjectFile.DataAt(o) <= |bytes| && bytes[at..at + |strings|] == strings
  {
    hide Records.Flat, ObjectFile.FileBytes;
    PartAt(o, 3);
    PartStarts(o);
  }
}
