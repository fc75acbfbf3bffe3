// What a link promises of the loaded image.
module LinkedImage {
  import opened Results
  import Words
  import Patching
  import Records
  import ObjectFile
  import Layout
  import Symbols
  import Linker
  import Loading

  type Byte = Records.Byte
  type Unit = Linker.Unit
  type Globals = map<Linker.Text, Symbols.Global>

  lemma {:induction false} AddressBound(u: Unit, i: nat)
    requires Linker.Linkable(u) && i < |u.symbols|
    ensures Symbols.AddressOf(u, i) <= Linker.MemorySize(u) || Symbols.AddressOf(u, i) < Linker.WORD32
  {
    hide Layout.SizeOf, Layout.Base, Linker.RelocationsOk;
    Symbols.BssGrows(u, i + 1, |u.symbols|);
    Symbols.BssGrows(u, 0, |u.symbols|);
    var s := u.symbols[i];
    if s.home.In? {
      Layout.SectionInOutput(u.sections, s.home.section);
      var kind := u.sections[s.home.section].kind;
      if kind < 3 { Layout.BasesGrow(u.sections, kind, 3); }
    }
  }

  lemma {:induction false} GlobalPlaced(u: Unit, n: nat, name: Linker.Text) returns (i: nat)
    requires Linker.Linkable(u) && n <= |u.symbols| && Symbols.Resolve(u, n).Ok? && name in Symbols.Resolve(u, n).value
    ensures i < n && Symbols.Resolve(u, n).value[name].address == Symbols.AddressOf(u, i)
  {
    hide Symbols.AddressOf, Symbols.RuntimeName, Symbols.BothTentative, Linker.RelocationsOk;
    var before := Symbols.Resolve(u, n - 1).value;
    if name in before && Symbols.Resolve(u, n).value[name] == before[name] {
      i := GlobalPlaced(u, n - 1, name);
    } else {
      i := n - 1;
    }
  }

  lemma {:induction false} TargetBound(u: Unit, g: Globals, k: nat)
    requires Linker.Linkable(u) && k < |u.symbols| && Symbols.Resolve(u, |u.symbols|) == Ok(g)
    requires Linker.TargetOf(u, g, k).Some? && Linker.MemorySize(u) <= Linker.IMAGE_LIMIT
    ensures Linker.TargetOf(u, g, k).value < Linker.WORD32
  {
    hide Symbols.AddressOf, Symbols.Resolve, Linker.MemorySize, Linker.RelocationsOk;
    if u.symbols[k].binding == 1 {
      var i := GlobalPlaced(u, |u.symbols|, u.symbols[k].name);
      AddressBound(u, i);
    } else {
      AddressBound(u, k);
    }
  }

  // A relocation's symbol and addend, as they stand in the loaded image.
  predicate Right(s: Linker.Site, at: nat, target: int, original: nat, bias: nat, memory: seq<Byte>) {
    && at + s.reloc.width <= |memory|
    && (s.reloc.kind == ObjectFile.PC32 ==>
          s.reloc.width == 4 && bias + at + 4 + Patching.Signed32(memory[at..at + 4]) == bias + target + s.reloc.addend)
    && (s.reloc.kind == ObjectFile.DATA64 ==>
          s.reloc.width == 8 && Records.Number(memory[at..at + 8]) == Words.U64(bias + target + s.reloc.addend))
    && (s.reloc.kind == ObjectFile.SECTION32 ==>
          s.reloc.width == 4 && Records.Number(memory[at..at + 4]) == original + s.reloc.addend)
    && s.reloc.kind != ObjectFile.ABS32 && s.reloc.kind != ObjectFile.ABS64
  }

  lemma {:induction false} NumberOf32(x: nat)
    requires x < Linker.WORD32
    ensures Records.Number(Patching.Bytes32(x)) == x
  {
    hide Records.Number;
    var q, r := x / 0x1_0000, x % 0x1_0000;
    assert x / 0x100_0000 == q / 0x100 && x / 0x100 % 0x100 == r / 0x100;
    NumberOfFour(r % 0x100, r / 0x100, q % 0x100, q / 0x100);
  }

  lemma {:induction false} NumberOfFour(a: Byte, b: Byte, c: Byte, d: Byte)
    ensures Records.Number([a, b, c, d]) == a as int + 0x100 * (b as int + 0x100 * (c as int + 0x100 * (d as int)))
  {
    assert [a, b, c, d][1..] == [b, c, d] && [b, c, d][1..] == [c, d] && [c, d][1..] == [d] && [d][1..] == [];
    assert Records.Number([d]) == d;
    assert Records.Number([c, d]) == c as int + 0x100 * (d as int);
    assert Records.Number([b, c, d]) == b as int + 0x100 * (c as int + 0x100 * (d as int));
  }

  // The bytes of one field in memory: those written by the linker, or for a data
  // slot those the loader put there.
  lemma {:induction false} EffectRight(u: Unit, g: Globals, s: Linker.Site, size: nat, raw: bool, bias: nat, memory: seq<Byte>)
    requires Linker.Linkable(u) && Linker.SiteOk(u, s) && Symbols.Resolve(u, |u.symbols|) == Ok(g)
    requires Linker.MemorySize(u) <= Linker.IMAGE_LIMIT && Linker.EffectOf(u, g, s, size, raw).Ok? && size <= |memory|
    requires var e, at := Linker.EffectOf(u, g, s, size, raw).value, Linker.Position(u, s);
             memory[at..at + s.reloc.width]
             == if e.entry.None? then e.bytes else Records.Little(Words.U64(bias + e.entry.value.addend), 8)
    ensures Linker.TargetOf(u, g, s.reloc.symbol).Some?
    ensures Right(s, Linker.Position(u, s), Linker.TargetOf(u, g, s.reloc.symbol).value, u.symbols[s.reloc.symbol].value, bias, memory)
  {
    hide Symbols.Resolve, Linker.MemorySize, Linker.RelocationsOk, Linker.CheckedAdd, Records.Number, Records.Little, Patching.Signed32,
      Patching.Bytes32, Linker.Position;
    var r, at := s.reloc, Linker.Position(u, s);
    TargetBound(u, g, r.symbol);
    var target := Linker.TargetOf(u, g, r.symbol).value;
    Linker.CheckedAddExact(target, r.addend);
    Linker.CheckedAddExact(u.symbols[r.symbol].value, r.addend);
    if r.kind == ObjectFile.PC32 {
      Patching.FieldRoundTrip(target + r.addend - (at + 4));
    } else if r.kind == ObjectFile.DATA64 {
      Records.Powers();
      Records.NumberOfLittle(Words.U64(bias + target + r.addend), 8);
    } else if r.kind == ObjectFile.SECTION32 {
      NumberOf32(u.symbols[r.symbol].value + r.addend);
    }
  }

  // The link's parts, when it succeeds.
  lemma {:induction false} Linked(u: Unit, raw: bool) returns (g: Globals, sites: seq<Linker.Site>, applied: Linker.Linking)
    requires Linker.Linkable(u) && Linker.Link(u, raw).Ok?
    ensures Symbols.Resolve(u, |u.symbols|) == Ok(g) && sites == Linker.Sites(u, |u.sections|) && Linker.SitesOk(u, sites)
    ensures Linker.Apply(u, g, sites, |sites|, raw, Linker.Payload(u)) == Ok(applied)
    ensures Linker.MemorySize(u) <= Linker.IMAGE_LIMIT
    ensures Linker.Ascii("cc64_start") in g
    ensures var image := Linker.Link(u, raw).value;
            && image.table == applied.table && image.memorySize == Linker.MemorySize(u)
            && Ok(image.payload) == Linker.PatchEntry(applied.payload, g[Linker.Ascii("cc64_start")].address)
  {
    hide Symbols.Resolve, Linker.Apply, Linker.Sites, Linker.RelocationsOk;
    g := Symbols.Resolve(u, |u.symbols|).value;
    sites := Linker.Sites(u, |u.sections|);
    Linker.SectionSitesOk(u, |u.sections|);
    applied := Linker.Apply(u, g, sites, |sites|, raw, Linker.Payload(u)).value;
  }

  lemma {:induction false} PayloadInMemory(u: Unit)
    requires Linker.Linkable(u)
    ensures |Linker.Payload(u)| <= Linker.MemorySize(u)
  {
    hide Layout.SizeOf, Layout.Base, Linker.RelocationsOk;
    Layout.BasesGrow(u.sections, 2, 3);
  }

  lemma {:induction false} TableFits(u: Unit, g: Globals, sites: seq<Linker.Site>, raw: bool, size: nat, table: seq<Linker.ImageRelocation>)
    requires Linker.Linkable(u) && Linker.SitesOk(u, sites) && Loading.TableOf(u, g, sites, |sites|, raw, size, table)
    ensures Loading.TableInside(table, size)
  {
    hide Linker.Linkable, Linker.SiteOk, Loading.Leaves;
    forall i | 0 <= i < |table| ensures table[i].destination + 8 <= size {
      assert table[i] in table;
      var k :| 0 <= k < |sites| && Loading.Leaves(u, g, sites[k], raw, size, table[i]);
      Loading.LeavesSlot(u, g, sites[k], raw, size, table[i]);
    }
  }

  // An image can be loaded: its slots lie in its payload, and do not overlap.
  lemma {:induction false} Loadable(u: Unit, raw: bool)
    requires Linker.Linkable(u) && Linker.Link(u, raw).Ok? && Loading.DisjointFields(u)
    ensures var image := Linker.Link(u, raw).value;
            && Loading.TableInside(image.table, |image.payload|) && |image.payload| == |Linker.Payload(u)| <= image.memorySize
            && Loading.TableInside(image.table, image.memorySize) && Loading.Separated(image.table)
  {
    hide Symbols.Resolve, Linker.Apply, Linker.Sites, Linker.Linkable, Linker.SiteOk, Linker.MemorySize, Linker.Payload, Linker.Link;
    var g, sites, applied := Linked(u, raw);
    Loading.SitesAllApart(u, |u.sections|);
    Loading.TableApplied(u, g, sites, |sites|, raw, Linker.Payload(u));
    TableFits(u, g, sites, raw, |Linker.Payload(u)|, applied.table);
    PayloadInMemory(u);
  }

  // A stretch of the payload that the trampoline's field does not touch, with the
  // bytes the relocations gave it.
  lemma {:induction false} AfterEntry(payload: seq<Byte>, start: nat, lo: nat, hi: nat)
    requires Linker.PatchEntry(payload, start).Ok? && lo <= hi <= |payload|
    requires Loading.Clear(Layout.ENTRY_FIELD, 4, lo, hi)
    ensures Linker.PatchEntry(payload, start).value[lo..hi] == payload[lo..hi]
  {
    hide Linker.Patch;
    Loading.Patched(payload, Layout.ENTRY_FIELD, Patching.Bytes32(start - (Layout.ENTRY_FIELD + 4)), lo, hi);
  }

  lemma {:induction false} PayloadLoaded(image: Linker.Image, bias: nat, lo: nat, hi: nat)
    requires Loading.TableInside(image.table, image.memorySize) && |image.payload| <= image.memorySize && Loading.Separated(image.table)
    requires lo <= hi <= image.memorySize
    requires forall i :: 0 <= i < |image.table| ==> Loading.Clear(image.table[i].destination, 8, lo, hi)
    ensures hi <= |image.payload| ==> Loading.Load(image, bias)[lo..hi] == image.payload[lo..hi]
    ensures forall at :: lo <= at < hi && at >= |image.payload| ==> Loading.Load(image, bias)[at] == 0
  {
    var s := image.payload + Layout.Zeros(image.memorySize - |image.payload|);
    var m := Loading.Load(image, bias);
    Loading.FixedSlots(s, image.table, |image.table|, bias, |image.table|, lo, hi);
    assert m[lo..hi] == s[lo..hi];
    forall at | lo <= at < hi && at >= |image.payload| ensures m[at] == 0 {
      assert m[at] == m[lo..hi][at - lo] == s[lo..hi][at - lo] == s[at];
    }
  }

  // At every load bias each relocated field holds its symbol and addend: a
  // relative field leads there from the byte after it, a data slot holds the
  // address itself, a section field the offset in the section.
  lemma {:induction false} FieldLoaded(u: Unit, raw: bool, i: nat, j: nat, bias: nat)
    requires Linker.Linkable(u) && Linker.Link(u, raw).Ok? && Loading.DisjointFields(u)
    requires i < |u.sections| && j < |u.sections[i].relocations|
    ensures Loading.TableInside(Linker.Link(u, raw).value.table, Linker.Link(u, raw).value.memorySize)
    ensures |Linker.Link(u, raw).value.payload| <= Linker.Link(u, raw).value.memorySize
    ensures Linker.SiteOk(u, Linker.Site(i, u.sections[i].relocations[j])) && Symbols.Resolve(u, |u.symbols|).Ok?
    ensures var s, g := Linker.Site(i, u.sections[i].relocations[j]), Symbols.Resolve(u, |u.symbols|).value;
            && Linker.TargetOf(u, g, s.reloc.symbol).Some?
            && Right(s, Linker.Position(u, s), Linker.TargetOf(u, g, s.reloc.symbol).value, u.symbols[s.reloc.symbol].value, bias,
                     Loading.Load(Linker.Link(u, raw).value, bias))
  {
    hide Symbols.Resolve, Linker.Apply, Linker.Sites, Linker.Linkable, Linker.SiteOk, Linker.MemorySize, Linker.Payload, Linker.Link, Right,
      Loading.Load, Linker.TargetOf, Linker.Position, Linker.EffectOf, Linker.PatchEntry, Loading.SitesApart, Loading.Leaves;
    var g, sites, applied := Linked(u, raw);
    var image := Linker.Link(u, raw).value;
    Loadable(u, raw);
    Loading.SitesAllApart(u, |u.sections|);
    var k := Loading.SiteAmong(u, |u.sections|, i, j);
    SiteLoaded(u, g, sites, applied, k, raw, bias, image);
  }

  lemma {:induction false} PositionAfterStub(u: Unit, s: Linker.Site)
    requires Linker.Linkable(u) && Linker.SiteOk(u, s)
    ensures Linker.Position(u, s) >= Layout.ENTRY_FIELD + 4
  {
    hide Layout.SectionAt, Linker.RelocationsOk;
    Layout.AfterStub(u.sections, s.section);
  }

  ghost predicate LinkedAs(u: Unit, g: Globals, sites: seq<Linker.Site>, applied: Linker.Linking, raw: bool, image: Linker.Image)
    requires Linker.Linkable(u) && Linker.SitesOk(u, sites)
  {
    && Symbols.Resolve(u, |u.symbols|) == Ok(g) && Linker.MemorySize(u) <= Linker.IMAGE_LIMIT
    && Linker.Apply(u, g, sites, |sites|, raw, Linker.Payload(u)) == Ok(applied)
    && Linker.Ascii("cc64_start") in g && image.table == applied.table && image.memorySize == Linker.MemorySize(u)
    && Ok(image.payload) == Linker.PatchEntry(applied.payload, g[Linker.Ascii("cc64_start")].address)
    && Loading.TableInside(image.table, image.memorySize) && |image.payload| == |Linker.Payload(u)| <= image.memorySize
    && Loading.Separated(image.table) && Loading.AllApart(u, sites)
  }

  lemma {:induction false} SiteLoaded(u: Unit, g: Globals, sites: seq<Linker.Site>, applied: Linker.Linking, k: nat, raw: bool, bias: nat,
                                      image: Linker.Image)
    requires Linker.Linkable(u) && Linker.SitesOk(u, sites) && LinkedAs(u, g, sites, applied, raw, image) && k < |sites|
    ensures Linker.TargetOf(u, g, sites[k].reloc.symbol).Some?
    ensures Right(sites[k], Linker.Position(u, sites[k]), Linker.TargetOf(u, g, sites[k].reloc.symbol).value,
                  u.symbols[sites[k].reloc.symbol].value, bias, Loading.Load(image, bias))
  {
    hide Symbols.Resolve, Linker.Apply, Linker.Linkable, Linker.SiteOk, Linker.MemorySize, Linker.Payload, Right, Loading.Load,
      Linker.TargetOf, Linker.Position, Linker.EffectOf, Linker.PatchEntry, Loading.SitesApart;
    var s, start, m := sites[k], Linker.Payload(u), Loading.Load(image, bias);
    var at, width := Linker.Position(u, s), s.reloc.width;
    Loading.Applied(u, g, sites, |sites|, raw, start, k, 0, 0);
    Loading.TableApplied(u, g, sites, |sites|, raw, start);
    var e := Linker.EffectOf(u, g, s, |start|, raw).value;
    if e.entry.Some? {
      SlotLoaded(u, g, sites, k, raw, |start|, e.entry.value, image, bias);
    } else {
      FieldKept(u, g, sites, k, raw, |start|, image.table);
      PositionAfterStub(u, s);
      AfterEntry(applied.payload, g[Linker.Ascii("cc64_start")].address, at, at + width);
      PayloadLoaded(image, bias, at, at + width);
    }
    EffectRight(u, g, s, |start|, raw, bias, m);
  }

  // A slot of the table is filled by the loader.
  lemma {:induction false} SlotLoaded(u: Unit, g: Globals, sites: seq<Linker.Site>, k: nat, raw: bool, size: nat, x: Linker.ImageRelocation,
                                      image: Linker.Image, bias: nat)
    requires Linker.Linkable(u) && Linker.SitesOk(u, sites) && k < |sites| && Loading.Leaves(u, g, sites[k], raw, size, x)
    requires Loading.TableOf(u, g, sites, |sites|, raw, size, image.table)
    requires Loading.TableInside(image.table, image.memorySize) && |image.payload| <= image.memorySize
    ensures var at := Linker.Position(u, sites[k]);
            sites[k].reloc.width == 8 && at + 8 <= image.memorySize
            && Loading.Load(image, bias)[at..at + 8] == Records.Little(Words.U64(bias + x.addend), 8)
  {
    hide Linker.Linkable, Linker.SiteOk, Linker.Position, Loading.Leaves, Records.Little;
    Loading.LeavesSlot(u, g, sites[k], raw, size, x);
    assert x in image.table;
    var i :| 0 <= i < |image.table| && image.table[i] == x;
    Loading.FixedSlots(image.payload + Layout.Zeros(image.memorySize - |image.payload|), image.table, |image.table|, bias, i, 0, 0);
  }

  // The loader touches no field the linker has finished.
  lemma {:induction false} FieldKept(u: Unit, g: Globals, sites: seq<Linker.Site>, k: nat, raw: bool, size: nat,
                                     table: seq<Linker.ImageRelocation>)
    requires Linker.Linkable(u) && Linker.SitesOk(u, sites) && k < |sites| && Loading.AllApart(u, sites)
    requires Loading.TableOf(u, g, sites, |sites|, raw, size, table)
    requires Linker.EffectOf(u, g, sites[k], size, raw).Ok? && Linker.EffectOf(u, g, sites[k], size, raw).value.entry.None?
    ensures forall i :: 0 <= i < |table| ==>
              Loading.Clear(table[i].destination, 8, Linker.Position(u, sites[k]), Linker.Position(u, sites[k]) + sites[k].reloc.width)
  {
    hide Linker.Linkable, Linker.SiteOk, Linker.Position, Linker.EffectOf;
    forall i | 0 <= i < |table|
      ensures Loading.Clear(table[i].destination, 8, Linker.Position(u, sites[k]), Linker.Position(u, sites[k]) + sites[k].reloc.width)
    {
      assert table[i] in table;
      var l :| 0 <= l < |sites| && Loading.Leaves(u, g, sites[l], raw, size, table[i]);
      Loading.LeavesSlot(u, g, sites[l], raw, size, table[i]);
      if l < k { assert Loading.SitesApart(u, sites[l], sites[k]); }
      if k < l { assert Loading.SitesApart(u, sites[k], sites[l]); }
    }
  }

  // A byte of a section that no relocation writes.
  predicate Unrelocated(u: Unit, i: nat, k: nat)
    requires i < |u.sections|
  {
    forall j :: 0 <= j < |u.sections[i].relocations| ==>
      var r := u.sections[i].relocations[j];
      Clear(r.offset, r.width, k)
  }

  predicate Clear(offset: nat, width: nat, k: nat) { k < offset || offset + width <= k }

  lemma {:induction false} SitesClear(u: Unit, n: nat, i: nat, k: nat)
    requires Linker.Linkable(u) && n <= |u.sections| && i < |u.sections| && k < u.sections[i].size && Unrelocated(u, i, k)
    ensures Linker.SitesOk(u, Linker.Sites(u, n))
    ensures var at := Layout.SectionAt(u.sections, i) + k;
            forall a :: 0 <= a < |Linker.Sites(u, n)| ==> SiteClear(u, Linker.Sites(u, n)[a], at)
  {
    hide Linker.Linkable, Linker.SiteOk, SiteClear, Unrelocated;
    PlacedSections(u);
    Linker.SectionSitesOk(u, n);
    if n > 0 {
      SitesClear(u, n - 1, i, k);
      var sites, older, at := Linker.Sites(u, n), Linker.Sites(u, n - 1), Layout.SectionAt(u.sections, i) + k;
      forall a | 0 <= a < |sites| ensures SiteClear(u, sites[a], at) {
        if a < |older| {
          assert sites[a] == older[a];
        } else {
          assert sites[a] == Linker.Site(n - 1, u.sections[n - 1].relocations[a - |older|]);
          OneSiteClear(u, n - 1, a - |older|, i, k);
        }
      }
    }
  }

  lemma {:induction false} PlacedSections(u: Unit)
    requires Linker.Linkable(u)
    ensures Layout.SectionsOk(u.sections)
  {
  }

  predicate SiteClear(u: Unit, s: Linker.Site, at: nat)
    requires Linker.Linkable(u) && Linker.SiteOk(u, s)
  {
    Loading.Clear(Linker.Position(u, s), s.reloc.width, at, at + 1)
  }

  lemma {:induction false} OneSiteClear(u: Unit, h: nat, j: nat, i: nat, k: nat)
    requires Linker.Linkable(u) && h < |u.sections| && i < |u.sections| && j < |u.sections[h].relocations|
    requires k < u.sections[i].size && Unrelocated(u, i, k)
    requires Linker.SiteOk(u, Linker.Site(h, u.sections[h].relocations[j]))
    ensures SiteClear(u, Linker.Site(h, u.sections[h].relocations[j]), Layout.SectionAt(u.sections, i) + k)
  {
    hide Layout.SectionAt, Linker.RelocationsOk, ObjectFile.WidthMatches;
    if h < i { Layout.SectionsApart(u.sections, h, i); } else if i < h { Layout.SectionsApart(u.sections, i, h); }
  }

  lemma {:induction false} ByteSlots(u: Unit, g: Globals, sites: seq<Linker.Site>, raw: bool, size: nat, table: seq<Linker.ImageRelocation>, at: nat)
    requires Linker.Linkable(u) && Linker.SitesOk(u, sites) && Loading.TableOf(u, g, sites, |sites|, raw, size, table)
    requires forall a :: 0 <= a < |sites| ==> SiteClear(u, sites[a], at)
    ensures forall i :: 0 <= i < |table| ==> Loading.Clear(table[i].destination, 8, at, at + 1)
  {
    hide Linker.Linkable, Linker.SiteOk, Linker.Position, Loading.Leaves;
    forall i | 0 <= i < |table| ensures Loading.Clear(table[i].destination, 8, at, at + 1) {
      assert table[i] in table;
      var k :| 0 <= k < |sites| && Loading.Leaves(u, g, sites[k], raw, size, table[i]);
      Loading.LeavesSlot(u, g, sites[k], raw, size, table[i]);
      assert SiteClear(u, sites[k], at);
    }
  }

  lemma {:induction false} ByteAt(u: Unit, i: nat, k: nat)
    requires Linker.Linkable(u) && i < |u.sections| && k < u.sections[i].size
    ensures var at, p := Layout.SectionAt(u.sections, i) + k, Linker.Payload(u);
            && Layout.ENTRY_FIELD + 4 <= at < Linker.MemorySize(u)
            && if u.sections[i].kind == ObjectFile.BSS then at >= |p|
               else at < |p| && k < |u.sections[i].data| && p[at] == u.sections[i].data[k]
  {
    hide Layout.SizeOf, Layout.Base, Linker.RelocationsOk, Layout.SectionAt, Layout.Payload;
    var at := Layout.SectionAt(u.sections, i);
    Layout.AfterStub(u.sections, i);
    Layout.SectionInOutput(u.sections, i);
    PayloadInMemory(u);
    if u.sections[i].kind == ObjectFile.BSS {
      Layout.BssAfterPayload(u.sections, i);
      Symbols.BssGrows(u, 0, |u.symbols|);
    } else {
      Layout.SectionInPayload(u.sections, i);
      assert Linker.Payload(u)[at + k] == Linker.Payload(u)[at..at + u.sections[i].size][k];
    }
  }

  // Every other byte of a section appears unchanged at its place, and a section
  // without contents is zero.
  lemma {:induction false} ByteLoaded(u: Unit, raw: bool, i: nat, k: nat, bias: nat)
    requires Linker.Linkable(u) && Linker.Link(u, raw).Ok? && Loading.DisjointFields(u)
    requires i < |u.sections| && k < u.sections[i].size && Unrelocated(u, i, k)
    ensures Loading.TableInside(Linker.Link(u, raw).value.table, Linker.Link(u, raw).value.memorySize)
    ensures |Linker.Link(u, raw).value.payload| <= Linker.Link(u, raw).value.memorySize
    ensures var m, at := Loading.Load(Linker.Link(u, raw).value, bias), Layout.SectionAt(u.sections, i) + k;
            && at < |m|
            && (if u.sections[i].kind == ObjectFile.BSS then m[at] == 0
                else k < |u.sections[i].data| && m[at] == u.sections[i].data[k])
  {
    hide Symbols.Resolve, Linker.Apply, Linker.Sites, Linker.Linkable, Linker.SiteOk, Linker.MemorySize, Linker.Payload, Linker.Link,
      Loading.Load, Linker.TargetOf, Linker.Position, Linker.EffectOf, Linker.PatchEntry, Loading.SitesApart, Loading.Leaves, Unrelocated,
      Layout.SectionAt;
    PlacedSections(u);
    var g, sites, applied := Linked(u, raw);
    var image, at, start := Linker.Link(u, raw).value, Layout.SectionAt(u.sections, i) + k, Linker.Payload(u);
    Loadable(u, raw);
    Loading.SitesAllApart(u, |u.sections|);
    SitesClear(u, |u.sections|, i, k);
    Loading.TableApplied(u, g, sites, |sites|, raw, start);
    ByteSlots(u, g, sites, raw, |start|, applied.table, at);
    ByteAt(u, i, k);
    PayloadLoaded(image, bias, at, at + 1);
    if u.sections[i].kind != ObjectFile.BSS {
      forall a | 0 <= a < |sites| ensures Loading.Clear(Linker.Position(u, sites[a]), sites[a].reloc.width, at, at + 1) {
        assert SiteClear(u, sites[a], at);
      }
      Loading.Applied(u, g, sites, |sites|, raw, start, |sites|, at, at + 1);
      AfterEntry(applied.payload, g[Linker.Ascii("cc64_start")].address, at, at + 1);
      Same(Loading.Load(image, bias), image.payload, at);
      Same(image.payload, applied.payload, at);
      Same(applied.payload, start, at);
    }
  }

  lemma {:induction false} Same(s: seq<Byte>, t: seq<Byte>, at: nat)
    requires at < |s| && at < |t| && s[at..at + 1] == t[at..at + 1]
    ensures s[at] == t[at]
  {
    assert s[at] == s[at..at + 1][0];
  }

  // The trampoline calls the startup routine.
  lemma {:induction false} EntryLoaded(u: Unit, raw: bool, bias: nat)
    requires Linker.Linkable(u) && Linker.Link(u, raw).Ok? && Loading.DisjointFields(u)
    ensures Loading.TableInside(Linker.Link(u, raw).value.table, Linker.Link(u, raw).value.memorySize)
    ensures |Linker.Link(u, raw).value.payload| <= Linker.Link(u, raw).value.memorySize
    ensures Symbols.Resolve(u, |u.symbols|).Ok? && Linker.Ascii("cc64_start") in Symbols.Resolve(u, |u.symbols|).value
    ensures var m, at := Loading.Load(Linker.Link(u, raw).value, bias), Layout.ENTRY_FIELD;
            && at + 4 <= |m|
            && bias + at + 4 + Patching.Signed32(m[at..at + 4])
               == bias + Symbols.Resolve(u, |u.symbols|).value[Linker.Ascii("cc64_start")].address
  {
    hide Symbols.Resolve, Linker.Apply, Linker.Sites, Linker.Linkable, Linker.SiteOk, Linker.MemorySize, Linker.Payload, Linker.Link,
      Loading.Load, Linker.TargetOf, Linker.Position, Linker.EffectOf, Loading.SitesApart, Loading.Leaves, Patching.Bytes32,
      Patching.Signed32, Linker.Patch;
    var g, sites, applied := Linked(u, raw);
    var image, at := Linker.Link(u, raw).value, Layout.ENTRY_FIELD;
    Loadable(u, raw);
    Loading.SitesAllApart(u, |u.sections|);
    Loading.TableApplied(u, g, sites, |sites|, raw, Linker.Payload(u));
    EntryUntouched(u, g, sites, raw, |Linker.Payload(u)|, applied.table);
    var displacement := g[Linker.Ascii("cc64_start")].address - (at + 4);
    Loading.Patched(applied.payload, at, Patching.Bytes32(displacement), at, at + 4);
    PayloadLoaded(image, bias, at, at + 4);
    Patching.FieldRoundTrip(displacement);
  }

  lemma {:induction false} EntryUntouched(u: Unit, g: Globals, sites: seq<Linker.Site>, raw: bool, size: nat, table: seq<Linker.ImageRelocation>)
    requires Linker.Linkable(u) && Linker.SitesOk(u, sites) && Loading.TableOf(u, g, sites, |sites|, raw, size, table)
    ensures forall i :: 0 <= i < |table| ==> Loading.Clear(table[i].destination, 8, Layout.ENTRY_FIELD, Layout.ENTRY_FIELD + 4)
  {
    hide Linker.Linkable, Linker.SiteOk, Linker.Position, Loading.Leaves;
    forall i | 0 <= i < |table| ensures Loading.Clear(table[i].destination, 8, Layout.ENTRY_FIELD, Layout.ENTRY_FIELD + 4) {
      assert table[i] in table;
      var k :| 0 <= k < |sites| && Loading.Leaves(u, g, sites[k], raw, size, table[i]);
      Loading.LeavesSlot(u, g, sites[k], raw, size, table[i]);
      PositionAfterStub(u, sites[k]);
    }
  }
}
