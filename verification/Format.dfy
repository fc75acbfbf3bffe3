// Where every field of an object file's records lies, byte by byte.
module Format {
  import Words
  import Crc
  import Records
  import ObjectFile

  type Byte = Records.Byte

  // Numbers are written lowest byte first.
  lemma {:induction false} LowestFirst(v: nat, n: nat, j: nat)
    requires j < n
    ensures Records.Little(v, n)[j] == v / Records.Pow256(j) % 256
  {
    if j > 0 {
      LowestFirst(v / 256, n - 1, j - 1);
      Twice(v, Records.Pow256(j - 1));
    }
  }

  lemma {:induction false} Twice(v: nat, p: nat)
    requires p > 0
    ensures v / 256 / p == v / (256 * p)
  {
    var q, r := v / 256 / p, v / 256 % p;
    assert v / 256 == p * q + r;
    assert 256 * (p * q) == (256 * p) * q;
    Words.ModUnique(v, q, 256 * r + v % 256, 256 * p);
  }

  // The k-th field of a record starts where the widths before it end.
  lemma {:induction false} FieldAt(layout: seq<nat>, vs: seq<nat>, i: nat, k: nat)
    requires |layout| == |vs| && i <= k < |layout|
    ensures var at := Records.Total(layout, i) - Records.Total(layout, k);
            && Records.Total(layout, k) >= layout[k] && at >= 0
            && Records.EncodeFrom(layout, vs, i)[at..at + layout[k]] == Records.Little(vs[k], layout[k])
    decreases k - i
  {
    hide Records.Little;
    if i < k {
      FieldAt(layout, vs, i + 1, k);
      var first, rest := Records.Little(vs[i], layout[i]), Records.EncodeFrom(layout, vs, i + 1);
      var at := Records.Total(layout, i + 1) - Records.Total(layout, k);
      assert (first + rest)[layout[i] + at..layout[i] + at + layout[k]] == rest[at..at + layout[k]];
    }
  }

  // A field of a record: these bytes hold this number.
  ghost predicate Has(record: seq<Byte>, at: nat, width: nat, v: nat) {
    at + width <= |record| && record[at..at + width] == Records.Little(v, width)
  }

  lemma {:induction false} HasField(layout: seq<nat>, vs: seq<nat>, k: nat, at: nat)
    requires |layout| == |vs| && k < |layout| && Records.Total(layout, k) == Records.Total(layout, 0) - at
    ensures Has(Records.Encode(layout, vs), at, layout[k], vs[k])
  {
    FieldAt(layout, vs, 0, k);
  }

  lemma SymbolWidths()
    ensures var t := k => Records.Total(ObjectFile.SYMBOL, k);
            t(0) == 32 && t(1) == 28 && t(2) == 24 && t(3) == 20 && t(4) == 19 && t(5) == 18 && t(6) == 16 && t(7) == 8 && t(8) == 4
  {
    assert Records.Total(ObjectFile.SYMBOL, 6) == 16;
    assert Records.Total(ObjectFile.SYMBOL, 3) == 20;
  }

  lemma {:induction false} SymbolBytes(o: ObjectFile.Object, i: nat)
    requires i < |o.symbols|
    ensures var record, s := ObjectFile.SymbolRecord(o, i), o.symbols[i];
            && Has(record, 0, 4, ObjectFile.NameOffset(o, 2 + |o.sections| + i)) && Has(record, 4, 4, s.value)
            && Has(record, 8, 4, s.section) && Has(record, 12, 1, s.binding) && Has(record, 13, 1, s.kind) && Has(record, 14, 2, 0)
            && Has(record, 16, 8, s.size) && Has(record, 24, 4, 0) && Has(record, 28, 4, 0)
  {
    hide Records.Total, Records.Encode, Has, ObjectFile.NameOffset;
    SymbolWidths();
    var vs := ObjectFile.SymbolFields(o, i);
    HasField(ObjectFile.SYMBOL, vs, 0, 0);
    HasField(ObjectFile.SYMBOL, vs, 1, 4);
    HasField(ObjectFile.SYMBOL, vs, 2, 8);
    HasField(ObjectFile.SYMBOL, vs, 3, 12);
    HasField(ObjectFile.SYMBOL, vs, 4, 13);
    HasField(ObjectFile.SYMBOL, vs, 5, 14);
    HasField(ObjectFile.SYMBOL, vs, 6, 16);
    HasField(ObjectFile.SYMBOL, vs, 7, 24);
    HasField(ObjectFile.SYMBOL, vs, 8, 28);
  }

  lemma RelocWidths()
    ensures var t := k => Records.Total(ObjectFile.RELOC, k);
            t(0) == 32 && t(1) == 24 && t(2) == 20 && t(3) == 16 && t(4) == 8 && t(5) == 4
  {
    assert Records.Total(ObjectFile.RELOC, 3) == 16;
  }

  lemma {:induction false} RelocationBytes(r: ObjectFile.Relocation)
    ensures var record := ObjectFile.RelocRecord(r);
            && Has(record, 0, 8, r.offset) && Has(record, 8, 4, r.symbol) && Has(record, 12, 4, r.kind)
            && Has(record, 16, 8, Words.U64(r.addend)) && Has(record, 24, 4, r.width) && Has(record, 28, 4, 0)
  {
    hide Records.Total, Records.Encode, Has;
    RelocWidths();
    var vs := [r.offset, r.symbol, r.kind, Words.U64(r.addend), r.width, 0];
    HasField(ObjectFile.RELOC, vs, 0, 0);
    HasField(ObjectFile.RELOC, vs, 1, 8);
    HasField(ObjectFile.RELOC, vs, 2, 12);
    HasField(ObjectFile.RELOC, vs, 3, 16);
    HasField(ObjectFile.RELOC, vs, 4, 24);
    HasField(ObjectFile.RELOC, vs, 5, 28);
  }

  lemma SectionWidths()
    ensures var t := k => Records.Total(ObjectFile.SECTION, k);
            t(0) == 40 && t(1) == 36 && t(2) == 32 && t(3) == 28 && t(4) == 24 && t(5) == 20 && t(6) == 16 && t(7) == 15 && t(8) == 14
            && t(9) == 12 && t(10) == 8 && t(11) == 4
  {
    assert Records.Total(ObjectFile.SECTION, 9) == 12;
    assert Records.Total(ObjectFile.SECTION, 6) == 16;
    assert Records.Total(ObjectFile.SECTION, 3) == 28;
  }

  lemma {:induction false} SectionBytes(o: ObjectFile.Object, i: nat)
    requires i < |o.sections|
    ensures var record, s := ObjectFile.SectionRecord(o, i), o.sections[i];
            && Has(record, 0, 4, ObjectFile.NameOffset(o, 2 + i))
            && Has(record, 4, 4, if s.kind == 3 then 0 else ObjectFile.PayloadAt(o, i)) && Has(record, 8, 4, s.size)
            && Has(record, 12, 4, if s.relocations == [] then 0 else ObjectFile.SectionRelocsAt(o, i)) && Has(record, 16, 4, |s.relocations|)
            && Has(record, 20, 4, ObjectFile.Power(s.alignment, 0)) && Has(record, 24, 1, s.kind) && Has(record, 25, 1, 0)
            && Has(record, 26, 2, i) && Has(record, 28, 4, 0) && Has(record, 32, 4, 0)
            && Has(record, 36, 4, if s.kind == 3 then 0 else Crc.Crc32(s.data))
  {
    hide Records.Total, Records.Encode, Has, ObjectFile.NameOffset, ObjectFile.PayloadAt, ObjectFile.SectionRelocsAt, ObjectFile.Power, Crc.Crc32;
    SectionWidths();
    var vs := ObjectFile.SectionFields(o, i);
    HasField(ObjectFile.SECTION, vs, 0, 0);
    HasField(ObjectFile.SECTION, vs, 1, 4);
    HasField(ObjectFile.SECTION, vs, 2, 8);
    HasField(ObjectFile.SECTION, vs, 3, 12);
    HasField(ObjectFile.SECTION, vs, 4, 16);
    HasField(ObjectFile.SECTION, vs, 5, 20);
    HasField(ObjectFile.SECTION, vs, 6, 24);
    HasField(ObjectFile.SECTION, vs, 7, 25);
    HasField(ObjectFile.SECTION, vs, 8, 26);
    HasField(ObjectFile.SECTION, vs, 9, 28);
    HasField(ObjectFile.SECTION, vs, 10, 32);
    HasField(ObjectFile.SECTION, vs, 11, 36);
  }

  lemma HeaderWidths()
    ensures var t := k => Records.Total(ObjectFile.HEADER, k);
            t(0) == 64 && t(1) == 56 && t(2) == 54 && t(3) == 52 && t(4) == 50 && t(5) == 48 && t(6) == 44 && t(7) == 40 && t(8) == 36
            && t(9) == 32 && t(10) == 28 && t(11) == 24 && t(12) == 20 && t(13) == 16 && t(14) == 12 && t(15) == 8 && t(16) == 4
  {
    assert Records.Total(ObjectFile.HEADER, 14) == 12;
    assert Records.Total(ObjectFile.HEADER, 11) == 24;
    assert Records.Total(ObjectFile.HEADER, 8) == 36;
    assert Records.Total(ObjectFile.HEADER, 5) == 48;
    assert Records.Total(ObjectFile.HEADER, 2) == 54;
  }

  lemma MagicBytes()
    ensures Records.Little(ObjectFile.MAGIC, 8) == [0x43, 0x43, 0x36, 0x34, 0x4f, 0x42, 0x4a, 0]
  {
    hide Records.Little;
    Next(0, 0);
    Next(0x4a, 1);
    Next(0x4a_42, 2);
    Next(0x4a_424f, 3);
    Next(0x4a_424f_34, 4);
    Next(0x4a_424f_3436, 5);
    Next(0x4a_424f_3436_43, 6);
    Next(0x4a_424f_3436_4343, 7);
    NoBytes();
  }

  lemma Next(v: nat, n: nat)
    ensures Records.Little(v, n + 1) == [v % 256] + Records.Little(v / 256, n)
  {
  }

  lemma NoBytes()
    ensures Records.Little(0, 0) == []
  {
  }

  // The magic, the versions and the machine, the target's name, and where each table
  // is and how long.
  lemma {:induction false} HeaderBytes(o: ObjectFile.Object)
    ensures var header := ObjectFile.HeaderBytes(o);
            && Has(header, 0, 8, ObjectFile.MAGIC) && Has(header, 8, 2, 1) && Has(header, 10, 2, 0x3433) && Has(header, 12, 2, 1)
            && Has(header, 14, 2, 62) && Has(header, 16, 4, 96) && Has(header, 20, 4, ObjectFile.TargetAt(o)) && Has(header, 24, 4, 16)
            && Has(header, 28, 4, 96) && Has(header, 32, 4, |o.sections|) && Has(header, 36, 4, ObjectFile.SymbolsAt(o))
            && Has(header, 40, 4, |o.symbols|) && Has(header, 44, 4, ObjectFile.StringsAt(o)) && Has(header, 48, 4, ObjectFile.StringsSize(o))
            && Has(header, 52, 4, 0) && Has(header, 56, 4, 0) && Has(header, 60, 4, 0)
  {
    hide Records.Total, Records.Encode, Has, ObjectFile.TargetAt, ObjectFile.SymbolsAt, ObjectFile.StringsAt, ObjectFile.StringsSize;
    HeaderWidths();
    var vs := ObjectFile.HeaderFields(o);
    HasField(ObjectFile.HEADER, vs, 0, 0);
    HasField(ObjectFile.HEADER, vs, 1, 8);
    HasField(ObjectFile.HEADER, vs, 2, 10);
    HasField(ObjectFile.HEADER, vs, 3, 12);
    HasField(ObjectFile.HEADER, vs, 4, 14);
    HasField(ObjectFile.HEADER, vs, 5, 16);
    HasField(ObjectFile.HEADER, vs, 6, 20);
    HasField(ObjectFile.HEADER, vs, 7, 24);
    HasField(ObjectFile.HEADER, vs, 8, 28);
    HasField(ObjectFile.HEADER, vs, 9, 32);
    HasField(ObjectFile.HEADER, vs, 10, 36);
    HasField(ObjectFile.HEADER, vs, 11, 40);
    HasField(ObjectFile.HEADER, vs, 12, 44);
    HasField(ObjectFile.HEADER, vs, 13, 48);
    HasField(ObjectFile.HEADER, vs, 14, 52);
    HasField(ObjectFile.HEADER, vs, 15, 56);
    HasField(ObjectFile.HEADER, vs, 16, 60);
  }
}
