// Relocation and the image the linker makes.
module Linker {
  import opened Results
  import opened Options
  import Words
  import Patching
  import Records
  import ObjectFile
  import Layout
  import Symbols

  type Byte = Records.Byte
  type Text = ObjectFile.Text
  type Relocation = ObjectFile.Relocation
  type Unit = Symbols.Unit

  const IMAGE_LIMIT: nat := 16 * 1024 * 1024
  const WORD32: nat := ObjectFile.WORD32

  // What the loader is to add its bias to.
  datatype ImageRelocation = ImageRelocation(destination: nat, addend: int)

  datatype Image = Image(payload: seq<Byte>, memorySize: nat, table: seq<ImageRelocation>)

  // An unsigned 64-bit value and a signed addend, as the code adds them.
  function CheckedAdd(value: nat, addend: int): Option<int>
    requires value < Words.WORD && Words.InRange(Words.LONG, addend)
  {
    if addend >= 0 then
      if value > Words.WORD - 1 - addend || value + addend >= Words.Half(8) then None else Some(value + addend)
    else
      var amount := -addend;
      if value < amount then
        if value > Words.Half(8) then Some(value - amount) else None
      else if value - amount >= Words.Half(8) then Some(value - amount - Words.Half(8))
      else Some(value - amount)
  }

  // For values below 2^63 the sum is exact, and refused when it is not in 0..2^63-1.
  lemma {:induction false} CheckedAddExact(value: nat, addend: int)
    requires value < Words.Half(8) && Words.InRange(Words.LONG, addend)
    ensures CheckedAdd(value, addend) == if 0 <= value + addend < Words.Half(8) then Some(value + addend) else None
  {
  }

  datatype Site = Site(section: nat, reloc: Relocation)

  function SitesOf(u: Unit, i: nat): seq<Site>
    requires i < |u.sections|
  {
    var rs := u.sections[i].relocations;
    seq(|rs|, j requires 0 <= j < |rs| => Site(i, rs[j]))
  }

  function Sites(u: Unit, n: nat): seq<Site>
    requires n <= |u.sections|
  {
    if n == 0 then [] else Sites(u, n - 1) + SitesOf(u, n - 1)
  }

  // Relocations fit their sections and refer to symbols there are.
  predicate Linkable(u: Unit) {
    && Symbols.UnitOk(u)
    && (forall i :: 0 <= i < |u.symbols| ==> u.symbols[i].value < WORD32)
    && forall i :: 0 <= i < |u.sections| ==> RelocationsOk(u, u.sections[i])
  }

  predicate RelocationsOk(u: Unit, s: ObjectFile.Section) {
    forall j :: 0 <= j < |s.relocations| ==>
      var r := s.relocations[j];
      && r.symbol < |u.symbols| && r.offset + r.width <= s.size && ObjectFile.WidthMatches(r.kind, r.width)
      && Words.InRange(Words.LONG, r.addend)
  }

  predicate SiteOk(u: Unit, s: Site) {
    && s.section < |u.sections| && s.reloc.symbol < |u.symbols| && s.reloc.offset + s.reloc.width <= u.sections[s.section].size
    && ObjectFile.WidthMatches(s.reloc.kind, s.reloc.width) && Words.InRange(Words.LONG, s.reloc.addend)
  }

  function Position(u: Unit, s: Site): nat
    requires Linkable(u) && SiteOk(u, s)
  {
    Layout.SectionAt(u.sections, s.section) + s.reloc.offset
  }

  // What the symbol of a relocation is: its own place, or for a global symbol
  // whatever its name resolves to.
  function TargetOf(u: Unit, globals: map<Text, Symbols.Global>, k: nat): Option<nat>
    requires Linkable(u) && k < |u.symbols|
  {
    var s := u.symbols[k];
    if s.binding == 1 then if s.name in globals then Some(globals[s.name].address) else None
    else Some(Symbols.AddressOf(u, k))
  }

  function Patch(s: seq<Byte>, at: nat, bytes: seq<Byte>): (r: seq<Byte>)
    requires at + |bytes| <= |s|
    ensures |r| == |s|
  {
    s[..at] + bytes + s[at + |bytes|..]
  }

  function Inserted(table: seq<ImageRelocation>, e: ImageRelocation): seq<ImageRelocation>
    decreases |table|
  {
    if table == [] || table[|table| - 1].destination <= e.destination then table + [e]
    else Inserted(table[..|table| - 1], e) + [table[|table| - 1]]
  }

  datatype Linking = Linking(payload: seq<Byte>, table: seq<ImageRelocation>)

  // What a relocation writes into the payload, and what it leaves to the loader.
  datatype Effect = Effect(bytes: seq<Byte>, entry: Option<ImageRelocation>)

  function EffectOf(u: Unit, globals: map<Text, Symbols.Global>, s: Site, size: nat, raw: bool): (r: Result<Effect>)
    requires Linkable(u) && SiteOk(u, s)
    ensures r.Ok? ==> |r.value.bytes| == s.reloc.width && Position(u, s) + s.reloc.width <= size
    ensures r.Ok? && r.value.entry.Some? ==> s.reloc.kind == ObjectFile.DATA64
  {
    var r, at, target := s.reloc, Position(u, s), TargetOf(u, globals, s.reloc.symbol);
    if target.None? then Error(5021)
    else if at + r.width > size then Error(5023)
    else if r.kind == ObjectFile.SECTION32 then
      var sum := CheckedAdd(u.symbols[r.symbol].value, r.addend);
      if sum.None? || sum.value < 0 || sum.value >= WORD32 then Error(5025) else Ok(Effect(Patching.Bytes32(sum.value), None))
    else if target.value >= Words.WORD then Error(5034)
    else
      var sum := CheckedAdd(target.value, r.addend);
      if r.kind == ObjectFile.DATA64 then
        if raw then Error(5022)
        else if at % 8 != 0 then Error(5032)
        else if sum.None? then Error(5033)
        else Ok(Effect(Records.Little(0, 8), Some(ImageRelocation(at, sum.value))))
      else if r.kind == ObjectFile.PC32 then
        if sum.None? || !Patching.Fits32(sum.value - (at + r.width)) then Error(5024)
        else Ok(Effect(Patching.Bytes32(sum.value - (at + r.width)), None))
      else Error(5022)
  }

  function ApplySite(u: Unit, globals: map<Text, Symbols.Global>, s: Site, raw: bool, st: Linking): (r: Result<Linking>)
    requires Linkable(u) && SiteOk(u, s)
    ensures r.Ok? ==> |r.value.payload| == |st.payload|
  {
    var e := EffectOf(u, globals, s, |st.payload|, raw);
    if e.Error? then Error(e.code)
    else Ok(Linking(Patch(st.payload, Position(u, s), e.value.bytes),
                    if e.value.entry.None? then st.table else Inserted(st.table, e.value.entry.value)))
  }

  predicate SitesOk(u: Unit, sites: seq<Site>) { forall k :: 0 <= k < |sites| ==> SiteOk(u, sites[k]) }

  // The first n relocations applied.
  function Apply(u: Unit, globals: map<Text, Symbols.Global>, sites: seq<Site>, n: nat, raw: bool, start: seq<Byte>): (r: Result<Linking>)
    requires Linkable(u) && SitesOk(u, sites) && n <= |sites|
    ensures r.Ok? ==> |r.value.payload| == |start|
  {
    if n == 0 then Ok(Linking(start, []))
    else
      var before := Apply(u, globals, sites, n - 1, raw, start);
      if before.Error? then before else ApplySite(u, globals, sites[n - 1], raw, before.value)
  }

  lemma {:induction false} SectionSitesOk(u: Unit, n: nat)
    requires Linkable(u) && n <= |u.sections|
    ensures SitesOk(u, Sites(u, n))
  {
    hide ObjectFile.WidthMatches, Symbols.UnitOk;
    if n > 0 {
      SectionSitesOk(u, n - 1);
      assert RelocationsOk(u, u.sections[n - 1]);
    }
  }

  function Ascii(s: string): Text {
    seq(|s|, i requires 0 <= i < |s| => if (s[i] as int) < 0x100 then s[i] as int else 0)
  }

  function MemorySize(u: Unit): nat
    requires Linkable(u)
  {
    Layout.Base(u.sections, ObjectFile.BSS) + Symbols.BssAfter(u, |u.symbols|)
  }

  function Payload(u: Unit): seq<Byte>
    requires Linkable(u)
  {
    Layout.Payload(u.sections)
  }

  // The call in the trampoline leads to the startup routine.
  function PatchEntry(payload: seq<Byte>, start: nat): Result<seq<Byte>> {
    var displacement := start - (Layout.ENTRY_FIELD + 4);
    if Layout.ENTRY_FIELD + 4 > |payload| || !Patching.Fits32(displacement) then Error(5028)
    else Ok(Patch(payload, Layout.ENTRY_FIELD, Patching.Bytes32(displacement)))
  }

  function Link(u: Unit, raw: bool): Result<Image>
    requires Linkable(u)
  {
    var globals := Symbols.Resolve(u, |u.symbols|);
    if globals.Error? then Error(globals.code)
    else
      SectionSitesOk(u, |u.sections|);
      var sites := Sites(u, |u.sections|);
      var applied := Apply(u, globals.value, sites, |sites|, raw, Payload(u));
      if applied.Error? then Error(applied.code)
      else if Ascii("main") !in globals.value then Error(5027)
      else if Ascii("cc64_start") !in globals.value then Error(5042)
      else
        var patched := PatchEntry(applied.value.payload, globals.value[Ascii("cc64_start")].address);
        if patched.Error? then Error(patched.code)
        else if MemorySize(u) > IMAGE_LIMIT then Error(5034)
        else Ok(Image(patched.value, MemorySize(u), applied.value.table))
  }
}
