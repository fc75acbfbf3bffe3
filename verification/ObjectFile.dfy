// The CC64O object format: what a file holds and how it is written down.
module ObjectFile {
  import Words
  import Crc
  import Records
  import Strings

  type Byte = Records.Byte
  type Text = Strings.Text

  const HEADER_SIZE: nat := 96
  const SECTION_SIZE: nat := 40
  const SYMBOL_SIZE: nat := 32
  const RELOC_SIZE: nat := 32
  const FILE_LIMIT: nat := 0x2000_0000
  const PAYLOAD_LIMIT: nat := 0x1000_0000
  const MAX_SECTIONS: nat := 65535
  const MAX_SYMBOLS: nat := 1000000
  const NO_SECTION: nat := 0xffff_ffff
  const WORD32: nat := 0x1_0000_0000

  // "CC64OBJ" and its terminator.
  const MAGIC: nat := 0x004a_424f_3436_4343

  // "x86_64-pc-dos64"
  const TARGET: Text := [0x78, 0x38, 0x36, 0x5f, 0x36, 0x34, 0x2d, 0x70, 0x63, 0x2d, 0x64, 0x6f, 0x73, 0x36, 0x34]

  const ABS32: nat := 1
  const ABS64: nat := 2
  const PC32: nat := 3
  const SECTION32: nat := 4
  const DATA64: nat := 5

  const BSS: nat := 3

  datatype Relocation = Relocation(offset: nat, symbol: nat, kind: nat, addend: int, width: nat)

  // A section of kind BSS has a size but no data.
  datatype Section = Section(name: Text, kind: nat, alignment: nat, size: nat, data: seq<Byte>, relocations: seq<Relocation>)

  datatype Symbol = Symbol(name: Text, value: nat, section: nat, binding: nat, kind: nat, size: nat)

  datatype Object = Object(sections: seq<Section>, symbols: seq<Symbol>)

  const HEADER: seq<nat> := [8, 2, 2, 2, 2, 4, 4, 4, 4, 4, 4, 4, 4, 4, 4, 4, 4]
  const SECTION: seq<nat> := [4, 4, 4, 4, 4, 4, 1, 1, 2, 4, 4, 4]
  const SYMBOL: seq<nat> := [4, 4, 4, 1, 1, 2, 8, 4, 4]
  const RELOC: seq<nat> := [8, 4, 4, 8, 4, 4]

  lemma Widths()
    ensures Records.Total(HEADER, 0) == 64 && Records.Total(SECTION, 0) == SECTION_SIZE
    ensures Records.Total(SYMBOL, 0) == SYMBOL_SIZE && Records.Total(RELOC, 0) == RELOC_SIZE
  {
    HeaderWidth();
    SectionWidth();
    assert Records.Total(SYMBOL, 6) == 16 && Records.Total(SYMBOL, 3) == 20;
    assert Records.Total(RELOC, 3) == 16;
  }

  lemma SectionWidth()
    ensures Records.Total(SECTION, 0) == SECTION_SIZE
  {
    assert Records.Total(SECTION, 9) == 12;
    assert Records.Total(SECTION, 6) == 16;
    assert Records.Total(SECTION, 3) == 28;
  }

  lemma HeaderWidth()
    ensures Records.Total(HEADER, 0) == 64
  {
    assert Records.Total(HEADER, 14) == 12;
    assert Records.Total(HEADER, 11) == 24;
    assert Records.Total(HEADER, 8) == 36;
    assert Records.Total(HEADER, 5) == 48;
    assert Records.Total(HEADER, 2) == 54;
  }

  predicate WidthMatches(kind: nat, width: nat) {
    && 1 <= kind <= 5
    && (kind == ABS32 ==> width == 4) && (kind == ABS64 ==> width == 8) && (kind == PC32 ==> width == 4)
    && (kind == SECTION32 ==> width == 4) && (kind == DATA64 ==> width == 8)
  }

  // The power of two that an alignment is written as.
  function Power(alignment: nat, p: nat): nat
    decreases 15 - p
  {
    if p < 15 && Words.Pow2(p) < alignment then Power(alignment, p + 1) else p
  }

  function RelocRecord(r: Relocation): (s: seq<Byte>)
    ensures |s| == RELOC_SIZE
  {
    Widths();
    Records.Encode(RELOC, [r.offset, r.symbol, r.kind, Words.U64(r.addend), r.width, 0])
  }

  function RelocTable(rs: seq<Relocation>): seq<seq<Byte>> { seq(|rs|, i requires 0 <= i < |rs| => RelocRecord(rs[i])) }

  function RelocPieces(o: Object): seq<seq<Byte>> {
    seq(|o.sections|, i requires 0 <= i < |o.sections| => Records.Flat(RelocTable(o.sections[i].relocations)))
  }

  function DataPieces(o: Object): seq<seq<Byte>> {
    seq(|o.sections|, i requires 0 <= i < |o.sections| => o.sections[i].data)
  }

  function AllNames(o: Object): (names: seq<Text>)
    ensures |names| == 2 + |o.sections| + |o.symbols|
  {
    [[], TARGET] + seq(|o.sections|, i requires 0 <= i < |o.sections| => o.sections[i].name)
    + seq(|o.symbols|, i requires 0 <= i < |o.symbols| => o.symbols[i].name)
  }

  function Names(o: Object): seq<Text> { Strings.InternAll([], AllNames(o)).0 }

  function NameOffset(o: Object, k: nat): nat
    requires k < 2 + |o.sections| + |o.symbols|
  {
    Strings.InternAllNames([], AllNames(o));
    Strings.InternAll([], AllNames(o)).1[k]
  }

  // The tables follow one another from the header to the payloads.
  function SymbolsAt(o: Object): nat { HEADER_SIZE + |o.sections| * SECTION_SIZE }
  function RelocsAt(o: Object): nat { SymbolsAt(o) + |o.symbols| * SYMBOL_SIZE }
  function StringsAt(o: Object): nat { RelocsAt(o) + |Records.Flat(RelocPieces(o))| }
  function DataAt(o: Object): nat { StringsAt(o) + |Strings.Bytes(Names(o))| }
  function FileSize(o: Object): nat { DataAt(o) + |Records.Flat(DataPieces(o))| }

  function PayloadAt(o: Object, i: nat): nat
    requires i <= |o.sections|
  {
    DataAt(o) + Records.Start(DataPieces(o), i)
  }

  function SectionRelocsAt(o: Object, i: nat): nat
    requires i <= |o.sections|
  {
    RelocsAt(o) + Records.Start(RelocPieces(o), i)
  }

  function SectionFields(o: Object, i: nat): (vs: seq<nat>)
    requires i < |o.sections|
    ensures |vs| == |SECTION|
  {
    var s := o.sections[i];
    [NameOffset(o, 2 + i), if s.kind == BSS then 0 else PayloadAt(o, i), s.size,
     if s.relocations == [] then 0 else SectionRelocsAt(o, i), |s.relocations|, Power(s.alignment, 0), s.kind, 0, i, 0, 0,
     if s.kind == BSS then 0 else Crc.Crc32(s.data)]
  }

  function SectionRecord(o: Object, i: nat): (s: seq<Byte>)
    requires i < |o.sections|
    ensures |s| == SECTION_SIZE
  {
    Widths();
    Records.Encode(SECTION, SectionFields(o, i))
  }

  function SymbolFields(o: Object, i: nat): (vs: seq<nat>)
    requires i < |o.symbols|
    ensures |vs| == |SYMBOL|
  {
    var s := o.symbols[i];
    [NameOffset(o, 2 + |o.sections| + i), s.value, s.section, s.binding, s.kind, 0, s.size, 0, 0]
  }

  function SymbolRecord(o: Object, i: nat): (s: seq<Byte>)
    requires i < |o.symbols|
    ensures |s| == SYMBOL_SIZE
  {
    Widths();
    Records.Encode(SYMBOL, SymbolFields(o, i))
  }

  function SectionPieces(o: Object): seq<seq<Byte>> { seq(|o.sections|, i requires 0 <= i < |o.sections| => SectionRecord(o, i)) }

  function SymbolPieces(o: Object): seq<seq<Byte>> { seq(|o.symbols|, i requires 0 <= i < |o.symbols| => SymbolRecord(o, i)) }

  function TargetAt(o: Object): nat { StringsAt(o) + NameOffset(o, 1) }

  function StringsSize(o: Object): nat { |Strings.Bytes(Names(o))| }

  function HeaderFields(o: Object): (vs: seq<nat>)
    ensures |vs| == |HEADER|
  {
    [MAGIC, 1, 0x3433, 1, 62, HEADER_SIZE, TargetAt(o), |TARGET| + 1, HEADER_SIZE, |o.sections|,
     SymbolsAt(o), |o.symbols|, StringsAt(o), StringsSize(o), 0, 0, 0]
  }

  const RESERVED: seq<Byte> := [0, 0, 0, 0, 0, 0, 0, 0, 0, 0, 0, 0, 0, 0, 0, 0, 0, 0, 0, 0, 0, 0, 0, 0]

  // The two checksums stand between the fields and the reserved bytes.
  function Header(fields: seq<Byte>, fileCrc: nat): (s: seq<Byte>)
    requires |fields| == 64
    ensures |s| == HEADER_SIZE
  {
    fields + Records.Little(Crc.Crc32(fields), 4) + Records.Little(fileCrc, 4) + RESERVED
  }

  function HeaderBytes(o: Object): (s: seq<Byte>)
    ensures |s| == 64
  {
    Widths();
    Records.Encode(HEADER, HeaderFields(o))
  }

  function Pieces(o: Object): (ps: seq<seq<Byte>>)
    ensures |ps| == 5
  {
    [Records.Flat(SectionPieces(o)), Records.Flat(SymbolPieces(o)), Records.Flat(RelocPieces(o)), Strings.Bytes(Names(o)),
     Records.Flat(DataPieces(o))]
  }

  // The file's own checksum is taken with its field clear.
  function FileBytes(o: Object): seq<Byte> {
    var rest := Records.Flat(Pieces(o));
    Header(HeaderBytes(o), Crc.FileCrc32(Header(HeaderBytes(o), 0) + rest)) + rest
  }
}
