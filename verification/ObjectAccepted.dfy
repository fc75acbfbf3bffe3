// The linker's reader against the writer's files: what it accepts, and what it
// then recovers.
module ObjectAccepted {
  import opened Results
  import Words
  import Crc
  import Records
  import Strings
  import ObjectFile
  import ObjectReader
  import ObjectRoundTrip

  type Byte = Records.Byte
  type Object = ObjectFile.Object
  type Section = ObjectFile.Section
  type Range = ObjectReader.Range

  lemma {:induction false} HeaderSlices(fields: seq<Byte>, crc: nat, rest: seq<Byte>)
    requires |fields| == 64
    ensures var b := ObjectFile.Header(fields, crc) + rest;
            && b[..64] == fields && b[64..68] == Records.Little(Crc.Crc32(fields), 4) && b[68..72] == Records.Little(crc, 4)
            && b[72..ObjectFile.HEADER_SIZE] == ObjectFile.RESERVED
  {
    hide Records.Little;
  }

  // The file checksum does not see its own field.
  lemma {:induction false} ChecksumStands(fields: seq<Byte>, crc: nat, rest: seq<Byte>)
    requires |fields| == 64
    ensures Crc.FileCrc32(ObjectFile.Header(fields, crc) + rest) == Crc.FileCrc32(ObjectFile.Header(fields, 0) + rest)
  {
    hide Crc.FileCrc32, Crc.Crc32, Records.Little;
    var s, t := ObjectFile.Header(fields, crc) + rest, ObjectFile.Header(fields, 0) + rest;
    assert s[..68] == t[..68] && s[72..] == t[72..];
    forall k | 0 <= k < |s| && !(Crc.CRC_FIELD <= k < Crc.CRC_FIELD + 4) ensures s[k] == t[k] {
      if k < 68 { assert s[k] == s[..68][k]; } else { assert s[k] == s[72..][k - 72]; }
    }
    Crc.FieldLeftOut(s, t);
  }

  lemma {:induction false} HeaderFit(o: Object)
    requires ObjectRoundTrip.Writable(o)
    ensures Records.Fit(ObjectFile.HEADER, ObjectFile.HeaderFields(o))
  {
    hide Records.Flat, Strings.Bytes, Records.Pow256;
    ObjectRoundTrip.NameRead(o, 1);
    Records.Powers();
  }

  // The header read back.
  lemma {:induction false} HeaderRead(o: Object)
    requires ObjectRoundTrip.Writable(o)
    ensures |ObjectFile.FileBytes(o)| >= ObjectFile.HEADER_SIZE
    ensures ObjectReader.Fields(ObjectFile.FileBytes(o)) == ObjectFile.HeaderFields(o)
  {
    hide Records.Flat, Records.Encode, Records.Decode, Records.Fit, ObjectFile.HeaderFields, ObjectFile.Header;
    var rest := Records.Flat(ObjectFile.Pieces(o));
    var fields := ObjectFile.HeaderBytes(o);
    HeaderSlices(fields, Crc.FileCrc32(ObjectFile.Header(fields, 0) + rest), rest);
    HeaderFit(o);
    Records.DecodeEncoded(ObjectFile.HEADER, ObjectFile.HeaderFields(o));
  }

  lemma {:induction false} ChecksumsRead(o: Object)
    ensures var b := ObjectFile.FileBytes(o);
            && |b| >= ObjectFile.HEADER_SIZE
            && Crc.Crc32(b[..64]) == Records.Number(b[64..68]) && Crc.FileCrc32(b) == Records.Number(b[68..72])
            && b[72..ObjectFile.HEADER_SIZE] == ObjectFile.RESERVED
  {
    hide Records.Flat, Crc.Crc32, Crc.FileCrc32, Records.Little, Records.Number, ObjectFile.HeaderBytes, ObjectFile.Pieces;
    var rest := Records.Flat(ObjectFile.Pieces(o));
    var fields := ObjectFile.HeaderBytes(o);
    var crc := Crc.FileCrc32(ObjectFile.Header(fields, 0) + rest);
    HeaderSlices(fields, crc, rest);
    ChecksumStands(fields, crc, rest);
    Records.Powers();
    Records.NumberOfLittle(Crc.Crc32(fields), 4);
    Records.NumberOfLittle(crc, 4);
  }

  function HeaderOf(o: Object): ObjectReader.Header {
    ObjectReader.Header(ObjectFile.StringsAt(o) + ObjectFile.NameOffset(o, 1), |ObjectFile.TARGET| + 1, ObjectFile.HEADER_SIZE,
                        |o.sections|, ObjectFile.SymbolsAt(o), |o.symbols|, ObjectFile.StringsAt(o),
                        |Strings.Bytes(ObjectFile.Names(o))|, 0, 0)
  }

  lemma {:induction false} TargetRead(o: Object)
    requires ObjectRoundTrip.Writable(o)
    ensures var b, at := ObjectFile.FileBytes(o), ObjectFile.StringsAt(o) + ObjectFile.NameOffset(o, 1);
            && at + |ObjectFile.TARGET| + 1 <= ObjectFile.DataAt(o) <= |b|
            && b[at..at + |ObjectFile.TARGET| + 1] == ObjectFile.TARGET + [0]
  {
    hide Records.Flat, ObjectFile.FileBytes, Strings.Bytes, Strings.End;
    ObjectRoundTrip.NameRead(o, 1);
    assert ObjectFile.AllNames(o)[1] == ObjectFile.TARGET;
    ObjectRoundTrip.StringsRead(o);
    var i := ObjectFile.NameOffset(o, 1);
    Records.SliceOfSlice(ObjectFile.FileBytes(o), ObjectFile.StringsAt(o), ObjectFile.DataAt(o), i, i + |ObjectFile.TARGET| + 1);
  }

  lemma {:induction false} ContractHolds(o: Object)
    requires ObjectRoundTrip.Writable(o)
    ensures ObjectReader.CheckContract(ObjectFile.FileBytes(o)) == Ok(HeaderOf(o))
  {
    hide Records.Flat, ObjectFile.FileBytes, Strings.Bytes, Crc.Crc32, Crc.FileCrc32, Records.Number, ObjectReader.Fields,
      ObjectFile.StringsAt, ObjectFile.DataAt, ObjectFile.SymbolsAt, ObjectFile.RelocsAt, ObjectFile.NameOffset;
    HeaderRead(o);
    ChecksumsRead(o);
    TargetRead(o);
    Size(o);
  }

  lemma {:induction false} Size(o: Object)
    requires ObjectRoundTrip.Writable(o)
    ensures |ObjectFile.FileBytes(o)| == ObjectFile.FileSize(o) <= ObjectFile.FILE_LIMIT
  {
    ObjectRoundTrip.PartStarts(o);
  }

  // Claims.

  // Everything claimed so far, when i sections have been read: the header and the
  // two tables, relocations and payloads up to the cursors, and the strings.
  ghost predicate Within(o: Object, r: Range, i: nat)
    requires i <= |o.sections|
  {
    || r.offset + r.length <= ObjectFile.RelocsAt(o)
    || (ObjectFile.RelocsAt(o) <= r.offset && r.offset + r.length <= ObjectFile.SectionRelocsAt(o, i))
    || (ObjectFile.StringsAt(o) <= r.offset && r.offset + r.length <= ObjectFile.PayloadAt(o, i))
  }

  predicate Reached(o: Object, at: nat, i: nat)
    requires i <= |o.sections|
  {
    || at < ObjectFile.RelocsAt(o)
    || (ObjectFile.RelocsAt(o) <= at < ObjectFile.SectionRelocsAt(o, i))
    || (ObjectFile.StringsAt(o) <= at < ObjectFile.PayloadAt(o, i))
  }

  ghost predicate Tiled(o: Object, ranges: seq<Range>, i: nat)
    requires i <= |o.sections|
  {
    && (forall k :: 0 <= k < |ranges| ==> Within(o, ranges[k], i))
    && (forall at: nat :: Reached(o, at, i) ==> ObjectReader.Covered(ranges, at))
  }

  lemma {:induction false} Claimed(ranges: seq<Range>, offset: nat, length: nat, total: nat)
    requires offset + length <= total
    requires length > 0 ==> !ObjectReader.Overlaps(ranges, offset, length)
    ensures ObjectReader.Claim(Ok(ranges), offset, length, total)
         == Ok(if length == 0 then ranges else ranges + [ObjectReader.Range(offset, length)])
  {
  }

  lemma {:induction false} StillCovered(ranges: seq<Range>, r: Range, at: nat)
    ensures ObjectReader.Covered(ranges, at) ==> ObjectReader.Covered(ranges + [r], at)
    ensures r.offset <= at < r.offset + r.length ==> ObjectReader.Covered(ranges + [r], at)
  {
    var more := ranges + [r];
    if ObjectReader.Covered(ranges, at) {
      var i :| 0 <= i < |ranges| && ranges[i].offset <= at < ranges[i].offset + ranges[i].length;
      assert more[i] == ranges[i];
    }
    assert more[|ranges|] == r;
  }

  // The ranges reach up to the bound and no further.
  ghost predicate Filled(ranges: seq<Range>, bound: nat) {
    && (forall k :: 0 <= k < |ranges| ==> ranges[k].offset + ranges[k].length <= bound)
    && (forall at: nat :: at < bound ==> ObjectReader.Covered(ranges, at))
  }

  function Added(ranges: seq<Range>, offset: nat, length: nat): seq<Range> {
    if length == 0 then ranges else ranges + [ObjectReader.Range(offset, length)]
  }

  lemma {:induction false} NextFilled(ranges: seq<Range>, bound: nat, length: nat, total: nat)
    requires Filled(ranges, bound) && bound + length <= total
    ensures ObjectReader.Claim(Ok(ranges), bound, length, total) == Ok(Added(ranges, bound, length))
    ensures Filled(Added(ranges, bound, length), bound + length)
  {
    hide ObjectReader.Covered;
    Claimed(ranges, bound, length, total);
    forall at: nat | at < bound + length ensures ObjectReader.Covered(Added(ranges, bound, length), at) {
      StillCovered(ranges, ObjectReader.Range(bound, length), at);
    }
  }

  lemma {:induction false} StringsClaimed(o: Object, ranges: seq<Range>, total: nat)
    requires Filled(ranges, ObjectFile.RelocsAt(o)) && ObjectFile.DataAt(o) <= total
    ensures var size := |Strings.Bytes(ObjectFile.Names(o))|;
            && ObjectReader.Claim(Ok(ranges), ObjectFile.StringsAt(o), size, total)
               == Ok(Added(ranges, ObjectFile.StringsAt(o), size))
            && Tiled(o, Added(ranges, ObjectFile.StringsAt(o), size), 0)
  {
    hide ObjectReader.Covered, Records.Flat, Strings.Bytes;
    var size := |Strings.Bytes(ObjectFile.Names(o))|;
    Claimed(ranges, ObjectFile.StringsAt(o), size, total);
    forall at: nat | Reached(o, at, 0) ensures ObjectReader.Covered(Added(ranges, ObjectFile.StringsAt(o), size), at) {
      StillCovered(ranges, ObjectReader.Range(ObjectFile.StringsAt(o), size), at);
    }
  }

  lemma {:induction false} TablesHold(o: Object)
    requires ObjectRoundTrip.Writable(o)
    ensures ObjectReader.CheckTables(ObjectFile.FileBytes(o), HeaderOf(o)).Ok?
    ensures Tiled(o, ObjectReader.CheckTables(ObjectFile.FileBytes(o), HeaderOf(o)).value, 0)
  {
    hide ObjectReader.Claim, ObjectFile.FileBytes, Records.Flat, Strings.Bytes, Tiled, ObjectFile.NameOffset, Filled, Strings.End;
    var bytes := ObjectFile.FileBytes(o);
    var size := |Strings.Bytes(ObjectFile.Names(o))|;
    Size(o);
    NothingYet();
    NextFilled([], 0, ObjectFile.HEADER_SIZE, |bytes|);
    var r1 := Added([], 0, ObjectFile.HEADER_SIZE);
    NextFilled(r1, ObjectFile.HEADER_SIZE, |o.sections| * ObjectFile.SECTION_SIZE, |bytes|);
    var r2 := Added(r1, ObjectFile.HEADER_SIZE, |o.sections| * ObjectFile.SECTION_SIZE);
    NextFilled(r2, ObjectFile.SymbolsAt(o), |o.symbols| * ObjectFile.SYMBOL_SIZE, |bytes|);
    var r3 := Added(r2, ObjectFile.SymbolsAt(o), |o.symbols| * ObjectFile.SYMBOL_SIZE);
    StringsClaimed(o, r3, |bytes|);
    var r4 := Added(r3, ObjectFile.StringsAt(o), size);
    NoMap(r4, |bytes|);
    TargetRead(o);
    ObjectRoundTrip.NameRead(o, 1);
    ObjectRoundTrip.StringsRead(o);
    assert bytes[ObjectFile.StringsAt(o) + size - 1] == bytes[ObjectFile.StringsAt(o)..ObjectFile.DataAt(o)][size - 1];
  }

  lemma {:induction false} NothingYet()
    ensures Filled([], 0)
  {
  }

  lemma {:induction false} NoMap(ranges: seq<Range>, total: nat)
    ensures ObjectReader.Claim(Ok(ranges), 0, 0, total) == Ok(ranges)
  {
  }

  // Sections.

  lemma {:induction false} SectionFit(o: Object, i: nat)
    requires ObjectRoundTrip.Writable(o) && i < |o.sections|
    ensures Records.Fit(ObjectFile.SECTION, ObjectFile.SectionFields(o, i))
  {
    hide Records.Flat, Strings.Bytes, Records.Pow256, Records.Start, ObjectFile.NameOffset, Words.Pow2, ObjectFile.Power, Strings.End,
      ObjectFile.FileBytes, Crc.Crc32;
    var s := o.sections[i];
    assert ObjectRoundTrip.SectionFits(s, |o.symbols|);
    ObjectRoundTrip.NameRead(o, 2 + i);
    ObjectRoundTrip.PayloadRead(o, i);
    ObjectRoundTrip.RelocsRead(o, i);
    ObjectRoundTrip.AlignmentRead(s.alignment);
    Records.Powers();
  }

  lemma {:induction false} SectionFieldsRead(o: Object, i: nat)
    requires ObjectRoundTrip.Writable(o) && i < |o.sections|
    ensures var bytes, at := ObjectFile.FileBytes(o), ObjectFile.HEADER_SIZE + i * ObjectFile.SECTION_SIZE;
            && at + ObjectFile.SECTION_SIZE <= |bytes|
            && ObjectReader.SectionFields(bytes[at..at + ObjectFile.SECTION_SIZE]) == ObjectFile.SectionFields(o, i)
  {
    hide Records.Fit, Records.Encode, Records.Decode, ObjectFile.SectionFields, ObjectFile.FileBytes;
    ObjectRoundTrip.SectionRecordRead(o, i);
    SectionFit(o, i);
    Records.DecodeEncoded(ObjectFile.SECTION, ObjectFile.SectionFields(o, i));
  }

  lemma {:induction false} FieldsHold(o: Object, i: nat)
    requires ObjectRoundTrip.Writable(o) && i < |o.sections|
    ensures ObjectReader.FieldsOk(ObjectFile.FileBytes(o), ObjectFile.SectionFields(o, i), |Strings.Bytes(ObjectFile.Names(o))|, i)
  {
    hide Records.Flat, Strings.Bytes, Records.Start, ObjectFile.NameOffset, Words.Pow2, ObjectFile.Power, Strings.End,
      ObjectFile.FileBytes, Crc.Crc32;
    var s := o.sections[i];
    assert ObjectRoundTrip.SectionFits(s, |o.symbols|);
    ObjectRoundTrip.NameRead(o, 2 + i);
    ObjectRoundTrip.PayloadRead(o, i);
    ObjectRoundTrip.RelocsRead(o, i);
    ObjectRoundTrip.AlignmentRead(s.alignment);
  }

  // One more range that starts at a cursor.
  lemma {:induction false} PayloadClaimed(o: Object, ranges: seq<Range>, i: nat)
    requires ObjectRoundTrip.Writable(o) && i < |o.sections| && Tiled(o, ranges, i)
    ensures var size, total := |o.sections[i].data|, |ObjectFile.FileBytes(o)|;
            ObjectReader.Claim(Ok(ranges), ObjectFile.PayloadAt(o, i), size, total)
            == Ok(Added(ranges, ObjectFile.PayloadAt(o, i), size))
  {
    hide ObjectReader.Covered, Records.Flat, Strings.Bytes, ObjectFile.FileBytes, Records.Start;
    ObjectRoundTrip.PayloadRead(o, i);
    ObjectRoundTrip.RelocsRead(o, i);
    StartsUp(ObjectFile.DataPieces(o), 0, i);
    Claimed(ranges, ObjectFile.PayloadAt(o, i), |o.sections[i].data|, |ObjectFile.FileBytes(o)|);
  }

  lemma {:induction false} StartsUp(pieces: seq<seq<Byte>>, i: nat, j: nat)
    requires i <= j <= |pieces|
    ensures Records.Start(pieces, i) <= Records.Start(pieces, j)
  {
    if i < j { StartsUp(pieces, i, j - 1); }
  }

  lemma {:induction false} RelocsClaimed(o: Object, ranges: seq<Range>, i: nat)
    requires ObjectRoundTrip.Writable(o) && i < |o.sections| && Tiled(o, ranges, i)
    ensures var size, total := |o.sections[i].relocations| * ObjectFile.RELOC_SIZE, |ObjectFile.FileBytes(o)|;
            var paid := Added(ranges, ObjectFile.PayloadAt(o, i), |o.sections[i].data|);
            ObjectReader.Claim(Ok(paid), ObjectFile.SectionRelocsAt(o, i), size, total)
            == Ok(Added(paid, ObjectFile.SectionRelocsAt(o, i), size))
  {
    hide ObjectReader.Covered, Records.Flat, Strings.Bytes, ObjectFile.FileBytes, Records.Start;
    ObjectRoundTrip.PayloadRead(o, i);
    ObjectRoundTrip.RelocsRead(o, i);
    StartsUp(ObjectFile.RelocPieces(o), 0, i);
    StartsUp(ObjectFile.DataPieces(o), 0, i);
    Claimed(Added(ranges, ObjectFile.PayloadAt(o, i), |o.sections[i].data|), ObjectFile.SectionRelocsAt(o, i),
            |o.sections[i].relocations| * ObjectFile.RELOC_SIZE, |ObjectFile.FileBytes(o)|);
  }

  lemma {:induction false} TiledOn(o: Object, ranges: seq<Range>, i: nat)
    requires ObjectRoundTrip.Writable(o) && i < |o.sections| && Tiled(o, ranges, i)
    ensures var paid := Added(ranges, ObjectFile.PayloadAt(o, i), |o.sections[i].data|);
            Tiled(o, Added(paid, ObjectFile.SectionRelocsAt(o, i), |o.sections[i].relocations| * ObjectFile.RELOC_SIZE), i + 1)
  {
    hide ObjectReader.Covered, Records.Flat, Strings.Bytes, ObjectFile.FileBytes, Records.Start;
    ObjectRoundTrip.PayloadRead(o, i);
    ObjectRoundTrip.RelocsRead(o, i);
    StartsUp(ObjectFile.RelocPieces(o), 0, i);
    StartsUp(ObjectFile.DataPieces(o), 0, i);
    var size := |o.sections[i].relocations| * ObjectFile.RELOC_SIZE;
    var paid := Added(ranges, ObjectFile.PayloadAt(o, i), |o.sections[i].data|);
    var all := Added(paid, ObjectFile.SectionRelocsAt(o, i), size);
    forall at: nat | Reached(o, at, i + 1) ensures ObjectReader.Covered(all, at) {
      StillCovered(ranges, ObjectReader.Range(ObjectFile.PayloadAt(o, i), |o.sections[i].data|), at);
      StillCovered(paid, ObjectReader.Range(ObjectFile.SectionRelocsAt(o, i), size), at);
    }
  }

  // The ranges of a section that is read: a section of kind BSS has no payload and
  // one without relocations no table.
  lemma {:induction false} RangesRead(o: Object, sections: seq<Section>, ranges: seq<Range>, i: nat)
    requires ObjectRoundTrip.Writable(o) && i < |o.sections| && Tiled(o, ranges, i)
    ensures var r := ObjectReader.SectionRanges(ObjectReader.Reading(ranges, sections), ObjectFile.SectionFields(o, i),
                                                |ObjectFile.FileBytes(o)|);
            r.Ok? && Tiled(o, r.value, i + 1)
  {
    hide ObjectReader.Claim, Records.Flat, Strings.Bytes, ObjectFile.FileBytes, Tiled, ObjectFile.NameOffset, ObjectFile.Power,
      ObjectFile.PayloadAt, ObjectFile.SectionRelocsAt;
    assert ObjectRoundTrip.SectionFits(o.sections[i], |o.symbols|);
    PayloadClaimed(o, ranges, i);
    RelocsClaimed(o, ranges, i);
    TiledOn(o, ranges, i);
  }
}
