// The linker at work: objects read, merged, placed, resolved and relocated.
module Linking {
  import Words
  import Crc
  import Records
  import Strings
  import ObjectFile
  import ObjectReader
  import Layout
  import Symbols
  import Linker

  type Byte = Records.Byte
  type Object = ObjectFile.Object
  type Unit = Linker.Unit
  type ImageRelocation = Linker.ImageRelocation

  // What the reader has checked of an object it accepts.
  predicate Checked(o: Object) {
    && Layout.SectionsOk(o.sections)
    && (forall i :: 0 <= i < |o.sections| ==> SectionChecked(o.sections[i], |o.symbols|))
    && (forall i :: 0 <= i < |o.symbols| ==> o.symbols[i].value < ObjectFile.WORD32 && ObjectReader.SymbolOk(o.symbols[i], o.sections))
  }

  predicate SectionChecked(s: ObjectFile.Section, symbols: nat) {
    forall j :: 0 <= j < |s.relocations| ==>
      ObjectReader.RelocationOk(s.relocations[j], symbols, s.size) && Words.InRange(Words.LONG, s.relocations[j].addend)
  }

  lemma {:induction false} RelocsChecked(bytes: seq<Byte>, at: nat, count: nat, symbols: nat, size: nat, read: seq<ObjectFile.Relocation>)
    requires ObjectReader.RangeOk(at, count * ObjectFile.RELOC_SIZE, |bytes|)
    requires forall j :: 0 <= j < |read| ==> ObjectReader.RelocationOk(read[j], symbols, size) && Words.InRange(Words.LONG, read[j].addend)
    ensures var r := ObjectReader.ReadRelocs(bytes, at, count, symbols, size, read);
            r.Ok? ==> forall j :: 0 <= j < |r.value| ==>
                        ObjectReader.RelocationOk(r.value[j], symbols, size) && Words.InRange(Words.LONG, r.value[j].addend)
    decreases count - |read|
  {
    hide ObjectReader.RelocationOk, ObjectReader.RelocFields, Words.InRange;
    if |read| < count {
      var start := at + |read| * ObjectFile.RELOC_SIZE;
      var r := ObjectReader.ReadReloc(bytes[start..start + ObjectFile.RELOC_SIZE], symbols, size);
      if r.Ok? { RelocsChecked(bytes, at, count, symbols, size, read + [r.value]); }
    }
  }

  lemma {:induction false} SectionRead(bytes: seq<Byte>, h: ObjectReader.Header, st: ObjectReader.Reading)
    requires ObjectReader.RangeOk(h.sectionsAt, h.sections * ObjectFile.SECTION_SIZE, |bytes|) && |st.sections| < h.sections
    requires ObjectReader.RangeOk(h.stringsAt, h.stringsSize, |bytes|)
    ensures var r := ObjectReader.ReadSection(bytes, h, st);
            r.Ok? ==> |r.value.sections| == |st.sections| + 1 && st.sections <= r.value.sections
                      && Layout.SectionOk(r.value.sections[|st.sections|]) && SectionChecked(r.value.sections[|st.sections|], h.symbols)
  {
    hide ObjectReader.SectionRanges, ObjectReader.Duplicate, ObjectReader.SectionFields, ObjectReader.ReadRelocs, Words.Pow2,
      ObjectReader.RelocationOk, ObjectFile.WidthMatches, Words.InRange, Strings.End, Crc.Crc32;
    var start := h.sectionsAt + |st.sections| * ObjectFile.SECTION_SIZE;
    var f := ObjectReader.SectionFields(bytes[start..start + ObjectFile.SECTION_SIZE]);
    if ObjectReader.FieldsOk(bytes, f, h.stringsSize, |st.sections|) && f[4] != 0 { RelocsChecked(bytes, f[3], f[4], h.symbols, f[2], []); }
  }

  lemma {:induction false} SectionsRead(bytes: seq<Byte>, h: ObjectReader.Header, st: ObjectReader.Reading)
    requires ObjectReader.RangeOk(h.sectionsAt, h.sections * ObjectFile.SECTION_SIZE, |bytes|)
    requires ObjectReader.RangeOk(h.stringsAt, h.stringsSize, |bytes|)
    requires Layout.SectionsOk(st.sections) && forall i :: 0 <= i < |st.sections| ==> SectionChecked(st.sections[i], h.symbols)
    ensures var r := ObjectReader.ReadSections(bytes, h, st);
            r.Ok? ==> Layout.SectionsOk(r.value.sections)
                      && forall i :: 0 <= i < |r.value.sections| ==> SectionChecked(r.value.sections[i], h.symbols)
    decreases h.sections - |st.sections|
  {
    hide ObjectReader.ReadSection, SectionChecked, Layout.SectionOk;
    if |st.sections| < h.sections {
      SectionRead(bytes, h, st);
      var r := ObjectReader.ReadSection(bytes, h, st);
      if r.Ok? {
        assert forall i :: 0 <= i < |st.sections| ==> r.value.sections[i] == st.sections[i];
        SectionsRead(bytes, h, r.value);
      }
    }
  }

  lemma {:induction false} SymbolsRead(bytes: seq<Byte>, h: ObjectReader.Header, sections: seq<ObjectFile.Section>, read: seq<ObjectFile.Symbol>)
    requires ObjectReader.RangeOk(h.symbolsAt, h.symbols * ObjectFile.SYMBOL_SIZE, |bytes|) && |read| <= h.symbols
    requires ObjectReader.RangeOk(h.stringsAt, h.stringsSize, |bytes|)
    requires forall i :: 0 <= i < |read| ==> read[i].value < ObjectFile.WORD32 && ObjectReader.SymbolOk(read[i], sections)
    ensures var r := ObjectReader.ReadSymbols(bytes, h, sections, read);
            r.Ok? ==> |r.value| == h.symbols
                      && forall i :: 0 <= i < |r.value| ==> r.value[i].value < ObjectFile.WORD32 && ObjectReader.SymbolOk(r.value[i], sections)
    decreases h.symbols - |read|
  {
    hide ObjectReader.SymbolOk, ObjectReader.ReadSymbol;
    if |read| < h.symbols {
      var start := h.symbolsAt + |read| * ObjectFile.SYMBOL_SIZE;
      var record, strings := bytes[start..start + ObjectFile.SYMBOL_SIZE], bytes[h.stringsAt..h.stringsAt + h.stringsSize];
      SymbolRead(record, strings, sections);
      var s := ObjectReader.ReadSymbol(record, strings, sections);
      if s.Ok? { SymbolsRead(bytes, h, sections, read + [s.value]); }
    }
  }

  lemma {:induction false} SymbolRead(record: seq<Byte>, strings: seq<Byte>, sections: seq<ObjectFile.Section>)
    requires |record| == ObjectFile.SYMBOL_SIZE
    ensures var s := ObjectReader.ReadSymbol(record, strings, sections);
            s.Ok? ==> s.value.value < ObjectFile.WORD32 && ObjectReader.SymbolOk(s.value, sections)
  {
    hide ObjectReader.SymbolOk, Records.DecodeFrom;
    ObjectFile.Widths();
    Records.Powers();
    Records.DecodedFit(ObjectFile.SYMBOL, record, 0, 1);
  }

  // Whatever bytes the reader accepts, the object is fit to link.
  lemma {:induction false} ReadChecked(bytes: seq<Byte>)
    ensures ObjectReader.Read(bytes).Ok? ==> Checked(ObjectReader.Read(bytes).value)
  {
    hide ObjectReader.CheckContract, ObjectReader.CheckTables, ObjectReader.ReadSections, ObjectReader.ReadSymbols, ObjectReader.RestIsZero,
      SectionChecked, ObjectReader.SymbolOk, Layout.SectionOk;
    if ObjectReader.Read(bytes).Ok? {
      var h := ObjectReader.CheckContract(bytes).value;
      var st := ObjectReader.Reading(ObjectReader.CheckTables(bytes, h).value, []);
      ObjectReader.TablesInFile(bytes, h);
      SectionsRead(bytes, h, st);
      SymbolsRead(bytes, h, ObjectReader.ReadSections(bytes, h, st).value.sections, []);
    }
  }

  function Moved(s: ObjectFile.Section, shift: nat): ObjectFile.Section {
    s.(relocations := seq(|s.relocations|, j requires 0 <= j < |s.relocations| => s.relocations[j].(symbol := s.relocations[j].symbol + shift)))
  }

  function Homed(s: ObjectFile.Symbol, shift: nat): Symbols.Symbol {
    Symbols.Symbol(s.name, s.value, if s.section == ObjectFile.NO_SECTION then Symbols.Nowhere else Symbols.In(s.section + shift), s.binding,
                   s.kind, s.size)
  }

  // The objects end to end, each keeping its own symbols.
  function Merge(objects: seq<Object>): Unit {
    if objects == [] then Symbols.Unit([], [])
    else
      var m, o := Merge(objects[..|objects| - 1]), objects[|objects| - 1];
      Symbols.Unit(m.sections + seq(|o.sections|, i requires 0 <= i < |o.sections| => Moved(o.sections[i], |m.symbols|)),
                   m.symbols + seq(|o.symbols|, i requires 0 <= i < |o.symbols| => Homed(o.symbols[i], |m.sections|)))
  }

  ghost predicate AllChecked(objects: seq<Object>) { forall i :: 0 <= i < |objects| ==> Checked(objects[i]) }

  lemma {:induction false} MergedSection(s: ObjectFile.Section, before: nat, symbols: nat, u: Unit)
    requires Layout.SectionOk(s) && SectionChecked(s, symbols) && |u.symbols| >= before + symbols
    ensures Layout.SectionOk(Moved(s, before)) && Linker.RelocationsOk(u, Moved(s, before)) && Moved(s, before).size == s.size
  {
    hide ObjectFile.WidthMatches, Words.InRange;
  }

  lemma {:induction false} RelocationsStay(s: ObjectFile.Section, u: Unit, v: Unit)
    requires Linker.RelocationsOk(u, s) && |u.symbols| <= |v.symbols|
    ensures Linker.RelocationsOk(v, s)
  {
    hide ObjectFile.WidthMatches, Words.InRange;
  }

  lemma {:induction false} MergeLinkable(objects: seq<Object>)
    requires AllChecked(objects)
    ensures Linker.Linkable(Merge(objects))
    decreases |objects|
  {
    hide Linker.RelocationsOk, SectionChecked, Layout.SectionOk, ObjectReader.SymbolOk, Moved;
    if objects != [] {
      var m, o, u := Merge(objects[..|objects| - 1]), objects[|objects| - 1], Merge(objects);
      MergeLinkable(objects[..|objects| - 1]);
      assert Checked(o);
      forall i | 0 <= i < |u.sections| ensures Layout.SectionOk(u.sections[i]) && Linker.RelocationsOk(u, u.sections[i])
        ensures i >= |m.sections| ==> u.sections[i].size == o.sections[i - |m.sections|].size
      {
        if i < |m.sections| {
          assert u.sections[i] == m.sections[i];
          RelocationsStay(m.sections[i], m, u);
        } else {
          MergedSection(o.sections[i - |m.sections|], |m.symbols|, |o.symbols|, u);
        }
      }
      MergedSymbols(m, o, u);
      FromParts(u);
    }
  }

  lemma {:induction false} FromParts(u: Unit)
    requires forall i :: 0 <= i < |u.sections| ==> Layout.SectionOk(u.sections[i]) && Linker.RelocationsOk(u, u.sections[i])
    requires forall i :: 0 <= i < |u.symbols| ==> SymbolStands(u, i)
    ensures Linker.Linkable(u)
  {
    hide Linker.RelocationsOk, Layout.SectionOk;
    forall i | 0 <= i < |u.symbols|
      ensures u.symbols[i].value < Linker.WORD32
      ensures u.symbols[i].home.In? ==> u.symbols[i].home.section < |u.sections|
                                        && u.symbols[i].value <= u.sections[u.symbols[i].home.section].size
    {
      assert SymbolStands(u, i);
    }
  }

  lemma {:induction false} MergedSymbols(m: Unit, o: Object, u: Unit)
    requires Checked(o) && (forall i :: 0 <= i < |m.symbols| ==> SymbolStands(m, i)) && |u.symbols| == |m.symbols| + |o.symbols|
    requires |u.sections| == |m.sections| + |o.sections|
    requires forall i :: 0 <= i < |m.sections| ==> u.sections[i] == m.sections[i]
    requires forall i :: 0 <= i < |o.sections| ==> u.sections[|m.sections| + i].size == o.sections[i].size
    requires forall i :: 0 <= i < |m.symbols| ==> u.symbols[i] == m.symbols[i]
    requires forall i :: 0 <= i < |o.symbols| ==> u.symbols[|m.symbols| + i] == Homed(o.symbols[i], |m.sections|)
    ensures forall i :: 0 <= i < |u.symbols| ==> SymbolStands(u, i)
  {
    hide SectionChecked, Layout.SectionOk;
    forall i | 0 <= i < |u.symbols| ensures SymbolStands(u, i) {
      if i < |m.symbols| {
        assert SymbolStands(m, i);
      } else {
        assert ObjectReader.SymbolOk(o.symbols[i - |m.symbols|], o.sections);
      }
    }
  }

  predicate SymbolStands(u: Unit, i: nat)
    requires i < |u.symbols|
  {
    && u.symbols[i].value < Linker.WORD32
    && (u.symbols[i].home.In? ==> u.symbols[i].home.section < |u.sections|
                                  && u.symbols[i].value <= u.sections[u.symbols[i].home.section].size)
  }
}
