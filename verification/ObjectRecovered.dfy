// The round trip of object files.
module ObjectRecovered {
  import opened Results
  import Words
  import Records
  import Strings
  import ObjectFile
  import ObjectReader
  import ObjectRoundTrip
  import ObjectAccepted

  type Byte = Records.Byte
  type Object = ObjectFile.Object
  type Section = ObjectFile.Section
  type Symbol = ObjectFile.Symbol
  type Relocation = ObjectFile.Relocation

  lemma {:induction false} RelocFieldsRead(r: Relocation, symbols: nat)
    requires ObjectRoundTrip.RelocationFits(r, symbols) && symbols <= ObjectFile.MAX_SYMBOLS
    ensures ObjectReader.RelocFields(ObjectFile.RelocRecord(r)) == [r.offset, r.symbol, r.kind, Words.U64(r.addend), r.width, 0]
  {
    Records.Powers();
    Records.DecodeEncoded(ObjectFile.RELOC, [r.offset, r.symbol, r.kind, Words.U64(r.addend), r.width, 0]);
  }

  lemma {:induction false} RelocRead(r: Relocation, symbols: nat, size: nat)
    requires ObjectRoundTrip.RelocationFits(r, symbols) && symbols <= ObjectFile.MAX_SYMBOLS
    ensures ObjectReader.ReadReloc(ObjectFile.RelocRecord(r), symbols, size)
         == if r.offset + r.width <= size then Ok(r) else Error(5011)
  {
    hide ObjectFile.RelocRecord, ObjectReader.RelocFields;
    RelocFieldsRead(r, symbols);
    Words.SignedOfRegister(r.addend);
    Words.WrapInRange(Words.LONG, r.addend);
  }

  // The relocations from the j-th on.
  lemma {:induction false} RelocsRead(bytes: seq<Byte>, at: nat, rs: seq<Relocation>, symbols: nat, size: nat, j: nat)
    requires j <= |rs| && symbols <= ObjectFile.MAX_SYMBOLS
    requires forall k :: 0 <= k < |rs| ==> ObjectRoundTrip.RelocationFits(rs[k], symbols)
    requires at + |rs| * ObjectFile.RELOC_SIZE <= |bytes|
    requires |Records.Flat(ObjectFile.RelocTable(rs))| == |rs| * ObjectFile.RELOC_SIZE
    requires bytes[at..at + |rs| * ObjectFile.RELOC_SIZE] == Records.Flat(ObjectFile.RelocTable(rs))
    ensures var r := ObjectReader.ReadRelocs(bytes, at, |rs|, symbols, size, rs[..j]);
            if forall k :: j <= k < |rs| ==> rs[k].offset + rs[k].width <= size then r == Ok(rs)
            else r == Error(5011)
    decreases |rs| - j
  {
    hide ObjectReader.ReadReloc, ObjectFile.RelocRecord, Records.Flat, ObjectRoundTrip.RelocationFits;
    if j == |rs| {
      assert rs[..j] == rs;
    } else {
      ObjectRoundTrip.RecordInFile(bytes, at, ObjectFile.RelocTable(rs), j, ObjectFile.RELOC_SIZE);
      RelocRead(rs[j], symbols, size);
      assert rs[..j] + [rs[j]] == rs[..j + 1];
      RelocsRead(bytes, at, rs, symbols, size, j + 1);
    }
  }

  lemma {:induction false} SectionRelocsRead(o: Object, i: nat)
    requires ObjectRoundTrip.Writable(o) && i < |o.sections|
    ensures var s, at := o.sections[i], ObjectFile.SectionRelocsAt(o, i);
            && at + |s.relocations| * ObjectFile.RELOC_SIZE <= |ObjectFile.FileBytes(o)|
            && ObjectReader.ReadRelocs(ObjectFile.FileBytes(o), at, |s.relocations|, |o.symbols|, s.size, [])
               == if ObjectRoundTrip.RelocationsInside(s) then Ok(s.relocations) else Error(5011)
  {
    hide ObjectReader.ReadRelocs, Records.Flat, ObjectFile.FileBytes, ObjectFile.SectionRelocsAt, ObjectFile.RelocTable;
    var s := o.sections[i];
    assert ObjectRoundTrip.SectionFits(s, |o.symbols|);
    ObjectRoundTrip.RelocsRead(o, i);
    assert s.relocations[..0] == [];
    RelocsRead(ObjectFile.FileBytes(o), ObjectFile.SectionRelocsAt(o, i), s.relocations, |o.symbols|, s.size, 0);
  }

  predicate NameStands(bytes: seq<Byte>, stringsAt: nat, stringsSize: nat, at: nat, name: Strings.Text) {
    && stringsAt + stringsSize <= |bytes| && at < stringsSize
    && var strings := bytes[stringsAt..stringsAt + stringsSize];
       at <= Strings.End(strings, at) < |strings| && strings[at..Strings.End(strings, at)] == name
  }

  // The name a section or symbol record names.
  lemma {:induction false} NameFound(o: Object, k: nat)
    requires ObjectRoundTrip.Writable(o) && k < 2 + |o.sections| + |o.symbols|
    ensures NameStands(ObjectFile.FileBytes(o), ObjectFile.StringsAt(o), ObjectFile.StringsSize(o), ObjectFile.NameOffset(o, k),
                       ObjectFile.AllNames(o)[k])
  {
    hide Strings.End, ObjectFile.FileBytes, ObjectFile.NameOffset, Strings.Bytes, ObjectFile.AllNames;
    ObjectRoundTrip.StringsRead(o);
    ObjectRoundTrip.NameRead(o, k);
  }

  ghost predicate ReadUpTo(o: Object, st: ObjectReader.Reading, i: nat)
    requires i <= |o.sections|
  {
    st.sections == o.sections[..i] && ObjectAccepted.Tiled(o, st.ranges, i)
  }

  lemma {:induction false} PayloadOf(o: Object, i: nat)
    requires ObjectRoundTrip.Writable(o) && i < |o.sections|
    ensures var s, at := o.sections[i], ObjectFile.PayloadAt(o, i);
            if s.kind == ObjectFile.BSS then s.data == []
            else at + s.size <= |ObjectFile.FileBytes(o)| && ObjectFile.FileBytes(o)[at..at + s.size] == s.data
  {
    hide ObjectFile.FileBytes, ObjectFile.PayloadAt;
    assert ObjectRoundTrip.SectionFits(o.sections[i], |o.symbols|);
    ObjectRoundTrip.PayloadRead(o, i);
  }

  lemma {:induction false} Duplicates(o: Object, i: nat)
    requires i < |o.sections|
    ensures ObjectReader.Duplicate(o.sections[..i], o.sections[i].name)
       <==> exists j :: 0 <= j < i && o.sections[j].name == o.sections[i].name
  {
  }

  lemma {:induction false} SectionName(o: Object, i: nat)
    requires i < |o.sections|
    ensures ObjectFile.AllNames(o)[2 + i] == o.sections[i].name
  {
  }

  lemma {:induction false} FieldsOf(o: Object, i: nat)
    requires i < |o.sections|
    ensures var s, f := o.sections[i], ObjectFile.SectionFields(o, i);
            && f[0] == ObjectFile.NameOffset(o, 2 + i) && f[1] == (if s.kind == ObjectFile.BSS then 0 else ObjectFile.PayloadAt(o, i))
            && f[2] == s.size && f[3] == (if s.relocations == [] then 0 else ObjectFile.SectionRelocsAt(o, i))
            && f[4] == |s.relocations| && f[5] == ObjectFile.Power(s.alignment, 0) && f[6] == s.kind
  {
  }

  lemma {:induction false} SectionRead(o: Object, i: nat, st: ObjectReader.Reading)
    requires ObjectRoundTrip.Writable(o) && i < |o.sections| && ReadUpTo(o, st, i)
    ensures |ObjectFile.FileBytes(o)| >= ObjectFile.DataAt(o) >= ObjectFile.SymbolsAt(o)
    ensures var r := ObjectReader.ReadSection(ObjectFile.FileBytes(o), ObjectAccepted.HeaderOf(o), st);
            if ObjectRoundTrip.SectionLinks(o, i) then r.Ok? && ReadUpTo(o, r.value, i + 1) else r.Error?
  {
    hide ObjectFile.FileBytes, ObjectReader.FieldsOk, ObjectReader.SectionFields, ObjectReader.SectionRanges, ObjectReader.ReadRelocs,
      ObjectAccepted.Tiled, Strings.End, Strings.Bytes, Records.Flat, ObjectFile.PayloadAt, ObjectFile.SectionRelocsAt, ObjectFile.NameOffset,
      Words.Pow2, ObjectFile.Power, ObjectReader.Duplicate, ObjectRoundTrip.RelocationsInside, ObjectRoundTrip.RelocationFits,
      ObjectFile.SectionFields, ObjectFile.AllNames;
    var s := o.sections[i];
    FieldsOf(o, i);
    assert ObjectRoundTrip.SectionFits(s, |o.symbols|);
    ObjectRoundTrip.StringsRead(o);
    ObjectAccepted.SectionFieldsRead(o, i);
    ObjectAccepted.FieldsHold(o, i);
    ObjectAccepted.RangesRead(o, st.sections, st.ranges, i);
    NameFound(o, 2 + i);
    SectionName(o, i);
    ObjectRoundTrip.AlignmentRead(s.alignment);
    Duplicates(o, i);
    SectionRelocsRead(o, i);
    PayloadOf(o, i);
    NoRelocs(s);
    assert o.sections[..i] + [s] == o.sections[..i + 1];
  }

  lemma {:induction false} NoRelocs(s: Section)
    ensures s.relocations == [] ==> ObjectRoundTrip.RelocationsInside(s)
  {
  }

  lemma {:induction false} SectionsRead(o: Object, i: nat, st: ObjectReader.Reading)
    requires ObjectRoundTrip.Writable(o) && i <= |o.sections| && ReadUpTo(o, st, i)
    ensures |ObjectFile.FileBytes(o)| >= ObjectFile.DataAt(o) >= ObjectFile.SymbolsAt(o)
    ensures var r := ObjectReader.ReadSections(ObjectFile.FileBytes(o), ObjectAccepted.HeaderOf(o), st);
            if forall k :: i <= k < |o.sections| ==> ObjectRoundTrip.SectionLinks(o, k)
            then r.Ok? && ReadUpTo(o, r.value, |o.sections|) else r.Error?
    decreases |o.sections| - i
  {
    hide ObjectFile.FileBytes, ObjectReader.ReadSection, ObjectAccepted.Tiled, ObjectRoundTrip.SectionLinks, Strings.Bytes, ObjectFile.NameOffset;
    ObjectRoundTrip.StringsRead(o);
    if i < |o.sections| {
      SectionRead(o, i, st);
      var r := ObjectReader.ReadSection(ObjectFile.FileBytes(o), ObjectAccepted.HeaderOf(o), st);
      if ObjectRoundTrip.SectionLinks(o, i) { SectionsRead(o, i + 1, r.value); }
    }
  }

  // Symbols.

  lemma {:induction false} SymbolFieldsRead(o: Object, i: nat)
    requires ObjectRoundTrip.Writable(o) && i < |o.symbols|
    ensures var bytes, at := ObjectFile.FileBytes(o), ObjectFile.SymbolsAt(o) + i * ObjectFile.SYMBOL_SIZE;
            && at + ObjectFile.SYMBOL_SIZE <= |bytes|
            && ObjectReader.SymbolFields(bytes[at..at + ObjectFile.SYMBOL_SIZE]) == ObjectFile.SymbolFields(o, i)
  {
    hide Records.Encode, Records.Decode, ObjectFile.FileBytes, ObjectFile.SymbolsAt, Strings.Bytes, Strings.End, ObjectFile.NameOffset, Records.Flat;
    ObjectRoundTrip.SymbolRecordRead(o, i);
    assert ObjectRoundTrip.SymbolFits(o.symbols[i]);
    ObjectRoundTrip.NameRead(o, 2 + |o.sections| + i);
    ObjectRoundTrip.StringsRead(o);
    ObjectAccepted.Size(o);
    Records.Powers();
    Records.DecodeEncoded(ObjectFile.SYMBOL, ObjectFile.SymbolFields(o, i));
  }

  ghost predicate SymbolStands(bytes: seq<Byte>, at: nat, stringsAt: nat, stringsSize: nat, sections: seq<Section>, s: Symbol) {
    && at + ObjectFile.SYMBOL_SIZE <= |bytes| && stringsAt + stringsSize <= |bytes|
    && ObjectReader.ReadSymbol(bytes[at..at + ObjectFile.SYMBOL_SIZE], bytes[stringsAt..stringsAt + stringsSize], sections)
       == if ObjectReader.SymbolOk(s, sections) then Ok(s) else Error(5014)
  }

  lemma {:induction false} SymbolRead(o: Object, i: nat)
    requires ObjectRoundTrip.Writable(o) && i < |o.symbols|
    ensures SymbolStands(ObjectFile.FileBytes(o), ObjectFile.SymbolsAt(o) + i * ObjectFile.SYMBOL_SIZE, ObjectFile.StringsAt(o),
                         ObjectFile.StringsSize(o), o.sections, o.symbols[i])
  {
    hide ObjectFile.FileBytes, ObjectReader.SymbolFields, ObjectReader.SymbolOk, Strings.End, Strings.Bytes, ObjectFile.NameOffset, ObjectFile.SymbolsAt,
      ObjectFile.AllNames;
    SymbolFieldsRead(o, i);
    NameFound(o, 2 + |o.sections| + i);
    SymbolName(o, i);
  }

  lemma {:induction false} SymbolName(o: Object, i: nat)
    requires i < |o.symbols|
    ensures ObjectFile.AllNames(o)[2 + |o.sections| + i] == o.symbols[i].name
  {
  }

  lemma {:induction false} SymbolsRead(o: Object, i: nat)
    requires ObjectRoundTrip.Writable(o) && i <= |o.symbols|
    ensures |ObjectFile.FileBytes(o)| >= ObjectFile.DataAt(o) >= ObjectFile.RelocsAt(o)
    ensures var r := ObjectReader.ReadSymbols(ObjectFile.FileBytes(o), ObjectAccepted.HeaderOf(o), o.sections, o.symbols[..i]);
            if forall k :: i <= k < |o.symbols| ==> ObjectReader.SymbolOk(o.symbols[k], o.sections)
            then r == Ok(o.symbols) else r.Error?
    decreases |o.symbols| - i
  {
    hide ObjectFile.FileBytes, ObjectReader.ReadSymbol, ObjectReader.SymbolOk, Strings.Bytes, ObjectFile.NameOffset, Records.Flat,
      ObjectFile.AllNames, Strings.InternAll;
    ObjectRoundTrip.StringsRead(o);
    if i == |o.symbols| {
      assert o.symbols[..i] == o.symbols;
    } else {
      SymbolRead(o, i);
      assert o.symbols[..i] + [o.symbols[i]] == o.symbols[..i + 1];
      SymbolsRead(o, i + 1);
    }
  }

  // Every byte of a written file is described.
  lemma {:induction false} AllDescribed(o: Object, ranges: seq<ObjectReader.Range>)
    requires ObjectAccepted.Tiled(o, ranges, |o.sections|)
    ensures ObjectReader.RestIsZero(ObjectFile.FileBytes(o), ranges)
  {
    hide ObjectReader.Covered, ObjectFile.FileBytes, Records.Flat;
    ObjectRoundTrip.PartStarts(o);
    Records.FlatStart(ObjectFile.RelocPieces(o), |o.sections|);
    Records.FlatStart(ObjectFile.DataPieces(o), |o.sections|);
    assert ObjectFile.RelocPieces(o)[..|o.sections|] == ObjectFile.RelocPieces(o);
    assert ObjectFile.DataPieces(o)[..|o.sections|] == ObjectFile.DataPieces(o);
    forall at: nat | at < |ObjectFile.FileBytes(o)| ensures ObjectReader.Covered(ranges, at) {
      assert Reached(o, at);
    }
  }

  predicate Reached(o: Object, at: nat) { ObjectAccepted.Reached(o, at, |o.sections|) }

  // A written file is accepted exactly when the linker's own demands are met, and
  // then gives back the sections, payloads, relocations and symbols written.
  lemma {:induction false} ReadWritten(o: Object)
    requires ObjectRoundTrip.Writable(o)
    ensures ObjectReader.Read(ObjectFile.FileBytes(o)).Ok? <==> ObjectRoundTrip.Linkable(o)
    ensures ObjectRoundTrip.Linkable(o) ==> ObjectReader.Read(ObjectFile.FileBytes(o)) == Ok(o)
  {
    hide ObjectFile.FileBytes, ObjectReader.CheckContract, ObjectReader.CheckTables, ObjectReader.ReadSections, ObjectReader.ReadSymbols,
      ObjectReader.RestIsZero, ObjectAccepted.HeaderOf, ObjectAccepted.Tiled, ObjectRoundTrip.SectionLinks, ObjectReader.SymbolOk;
    var bytes, h := ObjectFile.FileBytes(o), ObjectAccepted.HeaderOf(o);
    ObjectAccepted.ContractHolds(o);
    ObjectAccepted.TablesHold(o);
    ObjectReader.TablesInFile(bytes, h);
    var st := ObjectReader.Reading(ObjectReader.CheckTables(bytes, h).value, []);
    SectionsRead(o, 0, st);
    var read := ObjectReader.ReadSections(bytes, h, st);
    if read.Ok? {
      assert o.sections[..|o.sections|] == o.sections;
      assert o.symbols[..0] == [];
      SymbolsRead(o, 0);
      AllDescribed(o, read.value.ranges);
    }
  }
}
