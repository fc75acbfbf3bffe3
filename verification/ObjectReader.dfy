// Reading an object file, with every check the linker makes of it.  An error is
// named by its diagnostic number.
module ObjectReader {
  import opened Results
  import Words
  import Crc
  import Records
  import Strings
  import ObjectFile

  type Byte = Records.Byte
  type Text = Strings.Text
  type Section = ObjectFile.Section
  type Symbol = ObjectFile.Symbol
  type Relocation = ObjectFile.Relocation

  datatype Range = Range(offset: nat, length: nat)

  predicate RangeOk(offset: nat, length: nat, total: nat) { offset <= total && length <= total - offset }

  predicate Overlaps(ranges: seq<Range>, offset: nat, length: nat) {
    exists i :: 0 <= i < |ranges| && offset < ranges[i].offset + ranges[i].length && ranges[i].offset < offset + length
  }

  // Every described part of a file is claimed once.
  function Claim(ranges: Result<seq<Range>>, offset: nat, length: nat, total: nat): Result<seq<Range>> {
    if ranges.Error? || length == 0 then ranges
    else if !RangeOk(offset, length, total) || Overlaps(ranges.value, offset, length) then Error(5008)
    else Ok(ranges.value + [Range(offset, length)])
  }

  predicate Covered(ranges: seq<Range>, at: nat) {
    exists i :: 0 <= i < |ranges| && ranges[i].offset <= at < ranges[i].offset + ranges[i].length
  }

  datatype Header = Header(targetAt: nat, targetSize: nat, sectionsAt: nat, sections: nat, symbolsAt: nat, symbols: nat,
                           stringsAt: nat, stringsSize: nat, mapAt: nat, mapSize: nat)

  function Fields(bytes: seq<Byte>): (vs: seq<nat>)
    requires |bytes| >= ObjectFile.HEADER_SIZE
    ensures |vs| == |ObjectFile.HEADER|
  {
    ObjectFile.Widths();
    Records.Decode(ObjectFile.HEADER, bytes[..64])
  }

  function HeaderOf(bytes: seq<Byte>): Header
    requires |bytes| >= ObjectFile.HEADER_SIZE
  {
    var f := Fields(bytes);
    Header(f[6], f[7], f[8], f[9], f[10], f[11], f[12], f[13], f[14], f[15])
  }

  // The checks that need the header alone.
  function CheckContract(bytes: seq<Byte>): Result<Header> {
    if |bytes| < ObjectFile.HEADER_SIZE || |bytes| > ObjectFile.FILE_LIMIT || Fields(bytes)[0] != ObjectFile.MAGIC
    then Error(5004)
    else
      var f, h := Fields(bytes), HeaderOf(bytes);
      if f[1] != 1 || f[2] != 0x3433 || f[3] != 1 || f[4] != 62 || f[5] != ObjectFile.HEADER_SIZE || f[16] != 0 then Error(5005)
      else if bytes[72..ObjectFile.HEADER_SIZE] != ObjectFile.RESERVED then Error(5008)
      else if (h.mapAt == 0) != (h.mapSize == 0) || (h.mapSize != 0 && !RangeOk(h.mapAt, h.mapSize, |bytes|)) then Error(5008)
      else if !RangeOk(h.targetAt, h.targetSize, |bytes|) || h.targetSize != |ObjectFile.TARGET| + 1
              || bytes[h.targetAt..h.targetAt + h.targetSize] != ObjectFile.TARGET + [0] then Error(5006)
      else if Crc.Crc32(bytes[..64]) != Records.Number(bytes[64..68]) || Crc.FileCrc32(bytes) != Records.Number(bytes[68..72])
      then Error(5007)
      else Ok(h)
  }

  function CheckTables(bytes: seq<Byte>, h: Header): Result<seq<Range>> {
    if h.sections > ObjectFile.MAX_SECTIONS || h.symbols > ObjectFile.MAX_SYMBOLS || h.stringsSize == 0
       || h.stringsSize > |bytes| || h.sectionsAt < ObjectFile.HEADER_SIZE || h.symbolsAt < ObjectFile.HEADER_SIZE
       || h.stringsAt < ObjectFile.HEADER_SIZE
       || !RangeOk(h.sectionsAt, h.sections * ObjectFile.SECTION_SIZE, |bytes|)
       || !RangeOk(h.symbolsAt, h.symbols * ObjectFile.SYMBOL_SIZE, |bytes|)
       || !RangeOk(h.stringsAt, h.stringsSize, |bytes|)
    then Error(5008)
    else
      var r1 := Claim(Ok([]), 0, ObjectFile.HEADER_SIZE, |bytes|);
      var r2 := Claim(r1, h.sectionsAt, h.sections * ObjectFile.SECTION_SIZE, |bytes|);
      var r3 := Claim(r2, h.symbolsAt, h.symbols * ObjectFile.SYMBOL_SIZE, |bytes|);
      var r4 := Claim(r3, h.stringsAt, h.stringsSize, |bytes|);
      var r5 := Claim(r4, h.mapAt, h.mapSize, |bytes|);
      var inside := h.targetAt >= h.stringsAt && h.targetAt + h.targetSize <= h.stringsAt + h.stringsSize;
      var r6 := if inside then r5 else Claim(r5, h.targetAt, h.targetSize, |bytes|);
      if r6.Ok? && bytes[h.stringsAt + h.stringsSize - 1] != 0 then Error(5008) else r6
  }

  function RelocFields(record: seq<Byte>): (vs: seq<nat>)
    requires |record| == ObjectFile.RELOC_SIZE
    ensures |vs| == |ObjectFile.RELOC|
  {
    ObjectFile.Widths();
    Records.Decode(ObjectFile.RELOC, record)
  }

  predicate RelocationOk(r: Relocation, symbols: nat, size: nat) {
    r.symbol < symbols && ObjectFile.WidthMatches(r.kind, r.width) && r.offset <= size && r.width <= size - r.offset
  }

  function ReadReloc(record: seq<Byte>, symbols: nat, size: nat): Result<Relocation>
    requires |record| == ObjectFile.RELOC_SIZE
  {
    var f := RelocFields(record);
    var r := ObjectFile.Relocation(f[0], f[1], f[2], Words.S64(f[3]), f[4]);
    if f[5] != 0 || !RelocationOk(r, symbols, size) then Error(5011) else Ok(r)
  }

  // The relocations from the j-th on, after those read.
  function ReadRelocs(bytes: seq<Byte>, at: nat, count: nat, symbols: nat, size: nat, read: seq<Relocation>): Result<seq<Relocation>>
    requires RangeOk(at, count * ObjectFile.RELOC_SIZE, |bytes|)
    decreases count - |read|
  {
    if |read| >= count then Ok(read)
    else
      var start := at + |read| * ObjectFile.RELOC_SIZE;
      var r := ReadReloc(bytes[start..start + ObjectFile.RELOC_SIZE], symbols, size);
      if r.Error? then Error(r.code) else ReadRelocs(bytes, at, count, symbols, size, read + [r.value])
  }

  datatype Reading = Reading(ranges: seq<Range>, sections: seq<Section>)

  function SectionFields(record: seq<Byte>): (vs: seq<nat>)
    requires |record| == ObjectFile.SECTION_SIZE
    ensures |vs| == |ObjectFile.SECTION|
  {
    ObjectFile.Widths();
    Records.Decode(ObjectFile.SECTION, record)
  }

  predicate FieldsOk(bytes: seq<Byte>, f: seq<nat>, stringsSize: nat, i: nat)
    requires |f| == |ObjectFile.SECTION|
  {
    var bss := f[6] == ObjectFile.BSS;
    && f[0] < stringsSize && f[6] <= 3 && f[5] <= 15 && f[8] == i % 0x1_0000 && f[7] == 0 && f[9] == 0 && f[10] == 0
    && (!bss ==> RangeOk(f[1], f[2], |bytes|) && f[2] <= ObjectFile.PAYLOAD_LIMIT)
    && (bss ==> f[1] == 0 && f[11] == 0)
    && (!bss ==> f[11] == Crc.Crc32(bytes[f[1]..f[1] + f[2]]))
    && (f[4] != 0 ==> RangeOk(f[3], f[4] * ObjectFile.RELOC_SIZE, |bytes|) && f[3] >= ObjectFile.HEADER_SIZE)
  }

  predicate Duplicate(sections: seq<Section>, name: Text) { exists i :: 0 <= i < |sections| && sections[i].name == name }

  function SectionRanges(st: Reading, f: seq<nat>, total: nat): Result<seq<Range>>
    requires |f| == |ObjectFile.SECTION|
  {
    var payload := if f[6] == ObjectFile.BSS then Ok(st.ranges) else Claim(Ok(st.ranges), f[1], f[2], total);
    if f[4] == 0 then payload else Claim(payload, f[3], f[4] * ObjectFile.RELOC_SIZE, total)
  }

  function ReadSection(bytes: seq<Byte>, h: Header, st: Reading): Result<Reading>
    requires RangeOk(h.sectionsAt, h.sections * ObjectFile.SECTION_SIZE, |bytes|) && |st.sections| < h.sections
    requires RangeOk(h.stringsAt, h.stringsSize, |bytes|)
  {
    var i, strings := |st.sections|, bytes[h.stringsAt..h.stringsAt + h.stringsSize];
    var start := h.sectionsAt + i * ObjectFile.SECTION_SIZE;
    var f := SectionFields(bytes[start..start + ObjectFile.SECTION_SIZE]);
    if !FieldsOk(bytes, f, h.stringsSize, i) then Error(5009)
    else
      var ranges := SectionRanges(st, f, |bytes|);
      var end := Strings.End(strings, f[0]);
      var name, alignment := strings[f[0]..end], Words.Pow2(f[5]);
      if ranges.Error? then Error(5009)
      else if end == |strings| then Error(5010)
      else if f[6] <= 1 && alignment < 16 then Error(5009)
      else if Duplicate(st.sections, name) then Error(5009)
      else
        var relocs := if f[4] == 0 then Ok([]) else ReadRelocs(bytes, f[3], f[4], h.symbols, f[2], []);
        if relocs.Error? then Error(relocs.code)
        else
          var data := if f[6] == ObjectFile.BSS then [] else bytes[f[1]..f[1] + f[2]];
          Ok(Reading(ranges.value, st.sections + [ObjectFile.Section(name, f[6], alignment, f[2], data, relocs.value)]))
  }

  function ReadSections(bytes: seq<Byte>, h: Header, st: Reading): Result<Reading>
    requires RangeOk(h.sectionsAt, h.sections * ObjectFile.SECTION_SIZE, |bytes|)
    requires RangeOk(h.stringsAt, h.stringsSize, |bytes|)
    decreases h.sections - |st.sections|
  {
    if |st.sections| >= h.sections then Ok(st)
    else
      var next := ReadSection(bytes, h, st);
      if next.Error? then next else ReadSections(bytes, h, next.value)
  }

  function SymbolFields(record: seq<Byte>): (vs: seq<nat>)
    requires |record| == ObjectFile.SYMBOL_SIZE
    ensures |vs| == |ObjectFile.SYMBOL|
  {
    ObjectFile.Widths();
    Records.Decode(ObjectFile.SYMBOL, record)
  }

  // A defined symbol lies in its section; an object, a function or a table lies
  // there whole.
  predicate SymbolOk(s: Symbol, sections: seq<Section>) {
    && s.binding <= 1 && s.kind <= 4
    && (s.section == ObjectFile.NO_SECTION
        || (&& s.section < |sections| && s.value <= sections[s.section].size
            && (1 <= s.kind <= 3 ==> s.size <= sections[s.section].size - s.value)))
  }

  function ReadSymbol(record: seq<Byte>, strings: seq<Byte>, sections: seq<Section>): Result<Symbol>
    requires |record| == ObjectFile.SYMBOL_SIZE
  {
    var f := SymbolFields(record);
    if f[0] >= |strings| then Error(5012)
    else
      var end := Strings.End(strings, f[0]);
      if end == |strings| then Error(5013)
      else
        var s := ObjectFile.Symbol(strings[f[0]..end], f[1], f[2], f[3], f[4], f[6]);
        if f[5] != 0 || f[7] != 0 || f[8] != 0 || !SymbolOk(s, sections) then Error(5014) else Ok(s)
  }

  function ReadSymbols(bytes: seq<Byte>, h: Header, sections: seq<Section>, read: seq<Symbol>): Result<seq<Symbol>>
    requires RangeOk(h.symbolsAt, h.symbols * ObjectFile.SYMBOL_SIZE, |bytes|)
    requires RangeOk(h.stringsAt, h.stringsSize, |bytes|)
    decreases h.symbols - |read|
  {
    if |read| >= h.symbols then Ok(read)
    else
      var start := h.symbolsAt + |read| * ObjectFile.SYMBOL_SIZE;
      var s := ReadSymbol(bytes[start..start + ObjectFile.SYMBOL_SIZE], bytes[h.stringsAt..h.stringsAt + h.stringsSize], sections);
      if s.Error? then Error(s.code) else ReadSymbols(bytes, h, sections, read + [s.value])
  }

  predicate RestIsZero(bytes: seq<Byte>, ranges: seq<Range>) {
    forall at :: 0 <= at < |bytes| ==> Covered(ranges, at) || bytes[at] == 0
  }

  function Read(bytes: seq<Byte>): Result<ObjectFile.Object> {
    var contract := CheckContract(bytes);
    if contract.Error? then Error(contract.code)
    else
      var h := contract.value;
      var tables := CheckTables(bytes, h);
      if tables.Error? then Error(tables.code)
      else
        var read := ReadSections(bytes, h, Reading(tables.value, []));
        if read.Error? then Error(read.code)
        else
          var symbols := ReadSymbols(bytes, h, read.value.sections, []);
          if symbols.Error? then Error(symbols.code)
          else if !RestIsZero(bytes, read.value.ranges) then Error(5008)
          else Ok(ObjectFile.Object(read.value.sections, symbols.value))
  }

  // Bytes that read as one number are the same bytes.
  lemma {:induction false} SameNumber(s: seq<Byte>, t: seq<Byte>)
    requires |s| == |t| && Records.Number(s) == Records.Number(t)
    ensures s == t
  {
    Records.LittleOfNumber(s);
    Records.LittleOfNumber(t);
  }

  lemma {:induction false} SameSlice(s: seq<Byte>, t: seq<Byte>, lo: nat, hi: nat, at: nat)
    requires |s| == |t| && lo <= hi <= |s| && (hi <= at || at + 4 <= lo)
    requires forall k :: 0 <= k < |s| && !(at <= k < at + 4) ==> s[k] == t[k]
    ensures s[lo..hi] == t[lo..hi]
  {
  }

  // The checks on the checksums and on the bytes kept zero.
  lemma {:induction false} Accepted(s: seq<Byte>)
    requires CheckContract(s).Ok?
    ensures |s| >= ObjectFile.HEADER_SIZE && s[72..ObjectFile.HEADER_SIZE] == ObjectFile.RESERVED
    ensures Crc.Crc32(s[..64]) == Records.Number(s[64..68]) && Crc.FileCrc32(s) == Records.Number(s[68..72])
  {
    hide Crc.Crc32, Crc.FileCrc32;
  }

  // No burst goes unnoticed: a file that differs from an accepted one within four
  // consecutive bytes, wherever they are, is refused.
  lemma {:induction false} BurstRefused(s: seq<Byte>, t: seq<Byte>, at: nat)
    requires Read(s).Ok? && |s| == |t| && s != t
    requires forall k :: 0 <= k < |s| && !(at <= k < at + 4) ==> s[k] == t[k]
    ensures Read(t).Error?
  {
    hide Crc.Crc32, Crc.FileCrc32, CheckTables, ReadSections, ReadSymbols, RestIsZero, CheckContract;
    Accepted(s);
    if CheckContract(t).Ok? {
      Accepted(t);
      assert Crc.FileCrc32(s) == Crc.FileCrc32(t) ==> s[68..72] == t[68..72] by {
        if Crc.FileCrc32(s) == Crc.FileCrc32(t) { SameNumber(s[68..72], t[68..72]); }
      }
      if 68 <= at < 72 || 64 < at < 68 {
        NearField(s, t, at);
      } else {
        SameSlice(s, t, 68, 72, at);
        var k :| 0 <= k < |s| && s[k] != t[k];
        SameField(s, t);
        Crc.FileBurstDetected(s, t, at);
      }
    }
  }

  lemma {:induction false} SameField(s: seq<Byte>, t: seq<Byte>)
    requires |s| == |t| >= 72 && s[68..72] == t[68..72]
    ensures forall k :: 68 <= k < 72 ==> s[k] == t[k]
  {
    forall k | 68 <= k < 72 ensures s[k] == t[k] { assert s[k] == s[68..72][k - 68] && t[k] == t[68..72][k - 68]; }
  }

  // A burst at the checksum field shows in what stands beside it, or in the field.
  lemma {:induction false} NearField(s: seq<Byte>, t: seq<Byte>, at: nat)
    requires |s| == |t| && CheckContract(s).Ok? && CheckContract(t).Ok? && 64 < at < 72
    requires forall k :: 0 <= k < |s| && !(at <= k < at + 4) ==> s[k] == t[k]
    ensures s == t
  {
    hide Crc.Crc32, Crc.FileCrc32, CheckContract;
    Accepted(s);
    Accepted(t);
    SameSlice(s, t, 0, 64, at);
    SameNumber(s[64..68], t[64..68]);
    forall k | 0 <= k < |s| && !(Crc.CRC_FIELD <= k < Crc.CRC_FIELD + 4) ensures s[k] == t[k] {
      if 64 <= k < 68 { assert s[k] == s[64..68][k - 64] && t[k] == t[64..68][k - 64]; }
      if 72 <= k < 75 { assert s[k] == s[72..ObjectFile.HEADER_SIZE][k - 72] && t[k] == t[72..ObjectFile.HEADER_SIZE][k - 72]; }
    }
    Crc.FieldLeftOut(s, t);
    SameNumber(s[68..72], t[68..72]);
    SameField(s, t);
  }

  // The reader's loops.
  method ReadObject(bytes: seq<Byte>) returns (r: Result<ObjectFile.Object>)
    ensures r == Read(bytes)
  {
    hide ReadSection, ReadSymbol, CheckContract, CheckTables, RestIsZero, Covered;
    var contract := CheckContract(bytes);
    if contract.Error? { return Error(contract.code); }
    var h := contract.value;
    var tables := CheckTables(bytes, h);
    if tables.Error? { return Error(tables.code); }
    TablesInFile(bytes, h);
    var st := Reading(tables.value, []);
    while |st.sections| < h.sections
      invariant ReadSections(bytes, h, st) == ReadSections(bytes, h, Reading(tables.value, []))
      decreases h.sections - |st.sections|
    {
      var next := ReadSection(bytes, h, st);
      OneMoreSection(bytes, h, st);
      if next.Error? { return Error(next.code); }
      st := next.value;
    }
    var strings, symbols := bytes[h.stringsAt..h.stringsAt + h.stringsSize], [];
    while |symbols| < h.symbols
      invariant ReadSymbols(bytes, h, st.sections, symbols) == ReadSymbols(bytes, h, st.sections, [])
      decreases h.symbols - |symbols|
    {
      var start := h.symbolsAt + |symbols| * ObjectFile.SYMBOL_SIZE;
      var s := ReadSymbol(bytes[start..start + ObjectFile.SYMBOL_SIZE], strings, st.sections);
      if s.Error? { return Error(s.code); }
      symbols := symbols + [s.value];
    }
    var clear := RestIsClear(bytes, st.ranges);
    r := if clear then Ok(ObjectFile.Object(st.sections, symbols)) else Error(5008);
  }

  lemma {:induction false} TablesInFile(bytes: seq<Byte>, h: Header)
    requires CheckTables(bytes, h).Ok?
    ensures RangeOk(h.sectionsAt, h.sections * ObjectFile.SECTION_SIZE, |bytes|)
    ensures RangeOk(h.symbolsAt, h.symbols * ObjectFile.SYMBOL_SIZE, |bytes|)
    ensures RangeOk(h.stringsAt, h.stringsSize, |bytes|)
  {
    hide Claim;
  }

  lemma {:induction false} OneMoreSection(bytes: seq<Byte>, h: Header, st: Reading)
    requires RangeOk(h.sectionsAt, h.sections * ObjectFile.SECTION_SIZE, |bytes|) && |st.sections| < h.sections
    requires RangeOk(h.stringsAt, h.stringsSize, |bytes|)
    ensures ReadSection(bytes, h, st).Ok? ==> |ReadSection(bytes, h, st).value.sections| == |st.sections| + 1
  {
    hide FieldsOk, SectionRanges, Strings.End, Duplicate, ReadRelocs, SectionFields, Words.Pow2;
  }

  // A map of the bytes that some range describes.
  method RestIsClear(bytes: seq<Byte>, ranges: seq<Range>) returns (clear: bool)
    ensures clear == RestIsZero(bytes, ranges)
  {
    clear := true;
    var at := 0;
    while at < |bytes|
      invariant 0 <= at <= |bytes| && clear
      invariant forall k :: 0 <= k < at ==> Covered(ranges, k) || bytes[k] == 0
    {
      var covered, i := false, 0;
      while i < |ranges|
        invariant 0 <= i <= |ranges|
        invariant covered == exists k :: 0 <= k < i && ranges[k].offset <= at < ranges[k].offset + ranges[k].length
      {
        if ranges[i].offset <= at < ranges[i].offset + ranges[i].length { covered := true; }
        i := i + 1;
      }
      if !covered && bytes[at] != 0 { return false; }
      at := at + 1;
    }
  }
}
