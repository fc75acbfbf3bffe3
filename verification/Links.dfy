// When a link succeeds.
module Links {
  import opened Results
  import opened Options
  import Words
  import Patching
  import ObjectFile
  import Layout
  import Symbols
  import Linker
  import Loading
  import LinkedImage

  type Unit = Linker.Unit
  type Globals = map<Linker.Text, Symbols.Global>

  // A relocation the linker can carry out.  Its symbol has an address and its field
  // has contents; a section offset is an unsigned 32-bit number; an address is below
  // 2^63, in an aligned slot of an image the loader relocates; a relative field
  // reaches its target in 32 bits; nothing else is possible in such an image.
  ghost predicate Possible(u: Unit, g: Globals, i: nat, j: nat, raw: bool)
    requires Linker.Linkable(u) && i < |u.sections| && j < |u.sections[i].relocations|
  {
    assert Linker.RelocationsOk(u, u.sections[i]);
    var r := u.sections[i].relocations[j];
    var symbol, at := u.symbols[r.symbol], Layout.SectionAt(u.sections, i) + r.offset;
    && (symbol.binding == 1 ==> symbol.name in g)
    && at + r.width <= |Layout.Payload(u.sections)|
    && var address := (if symbol.binding == 1 then g[symbol.name].address else Symbols.AddressOf(u, r.symbol)) + r.addend;
       if r.kind == ObjectFile.SECTION32 then 0 <= symbol.value + r.addend < 0x1_0000_0000
       else if r.kind == ObjectFile.DATA64 then !raw && at % 8 == 0 && 0 <= address < 0x8000_0000_0000_0000
       else if r.kind == ObjectFile.PC32 then
         0 <= address < 0x8000_0000_0000_0000 && -0x8000_0000 <= address - (at + r.width) < 0x8000_0000
       else false
  }

  lemma {:induction false} PossibleEffect(u: Unit, g: Globals, i: nat, j: nat, raw: bool)
    requires Linker.Linkable(u) && i < |u.sections| && j < |u.sections[i].relocations|
    requires Linker.MemorySize(u) <= Linker.IMAGE_LIMIT && Symbols.Resolve(u, |u.symbols|) == Ok(g)
    ensures Linker.SiteOk(u, Linker.Site(i, u.sections[i].relocations[j]))
    ensures Linker.EffectOf(u, g, Linker.Site(i, u.sections[i].relocations[j]), |Linker.Payload(u)|, raw).Ok? <==> Possible(u, g, i, j, raw)
  {
    hide Layout.Payload, Layout.SectionAt, Symbols.AddressOf, Symbols.Resolve, Linker.MemorySize, Linker.Linkable, Linker.CheckedAdd;
    Relocations(u, i);
    var r := u.sections[i].relocations[j];
    if Linker.TargetOf(u, g, r.symbol).Some? {
      LinkedImage.TargetBound(u, g, r.symbol);
      Linker.CheckedAddExact(Linker.TargetOf(u, g, r.symbol).value, r.addend);
    }
    SmallValue(u, r.symbol);
    Linker.CheckedAddExact(u.symbols[r.symbol].value, r.addend);
  }

  lemma {:induction false} Relocations(u: Unit, i: nat)
    requires Linker.Linkable(u) && i < |u.sections|
    ensures Linker.RelocationsOk(u, u.sections[i])
  {
  }

  lemma {:induction false} SmallValue(u: Unit, k: nat)
    requires Linker.Linkable(u) && k < |u.symbols|
    ensures u.symbols[k].value < Linker.WORD32
  {
  }

  // Nothing is left out of the list of relocations, and nothing added.
  lemma {:induction false} SiteFrom(u: Unit, n: nat, k: nat) returns (i: nat, j: nat)
    requires n <= |u.sections| && k < |Linker.Sites(u, n)|
    ensures i < n && j < |u.sections[i].relocations| && Linker.Sites(u, n)[k] == Linker.Site(i, u.sections[i].relocations[j])
  {
    var before := Linker.Sites(u, n - 1);
    if k < |before| { i, j := SiteFrom(u, n - 1, k); } else { i, j := n - 1, k - |before|; }
  }

  // The relocations are carried out exactly when each of them can be.
  lemma {:induction false} AppliesWhen(u: Unit, g: Globals, sites: seq<Linker.Site>, n: nat, raw: bool, start: seq<Linker.Byte>)
    requires Linker.Linkable(u) && Linker.SitesOk(u, sites) && n <= |sites|
    ensures Linker.Apply(u, g, sites, n, raw, start).Ok? <==>
            forall k :: 0 <= k < n ==> Linker.EffectOf(u, g, sites[k], |start|, raw).Ok?
  {
    hide Linker.EffectOf, Linker.Linkable, Linker.SiteOk;
    if n > 0 { AppliesWhen(u, g, sites, n - 1, raw, start); }
  }

  ghost predicate AllPossible(u: Unit, g: Globals, raw: bool)
    requires Linker.Linkable(u)
  {
    forall i, j :: 0 <= i < |u.sections| && 0 <= j < |u.sections[i].relocations| ==> Possible(u, g, i, j, raw)
  }

  lemma {:induction false} AllApply(u: Unit, g: Globals, raw: bool)
    requires Linker.Linkable(u) && Linker.MemorySize(u) <= Linker.IMAGE_LIMIT && Symbols.Resolve(u, |u.symbols|) == Ok(g)
    ensures var sites := Linker.Sites(u, |u.sections|);
            && Linker.SitesOk(u, sites)
            && (Linker.Apply(u, g, sites, |sites|, raw, Linker.Payload(u)).Ok? <==> AllPossible(u, g, raw))
  {
    hide Linker.EffectOf, Linker.Linkable, Linker.SiteOk, Linker.Apply, Linker.Sites, Linker.Payload, Linker.MemorySize, Symbols.Resolve, Possible;
    var sites := Linker.Sites(u, |u.sections|);
    Linker.SectionSitesOk(u, |u.sections|);
    AppliesWhen(u, g, sites, |sites|, raw, Linker.Payload(u));
    if AllPossible(u, g, raw) {
      forall k | 0 <= k < |sites| ensures Linker.EffectOf(u, g, sites[k], |Linker.Payload(u)|, raw).Ok? {
        var i, j := SiteFrom(u, |u.sections|, k);
        PossibleEffect(u, g, i, j, raw);
      }
    }
    if forall k :: 0 <= k < |sites| ==> Linker.EffectOf(u, g, sites[k], |Linker.Payload(u)|, raw).Ok? {
      forall i, j | 0 <= i < |u.sections| && 0 <= j < |u.sections[i].relocations| ensures Possible(u, g, i, j, raw) {
        var k := Loading.SiteAmong(u, |u.sections|, i, j);
        PossibleEffect(u, g, i, j, raw);
      }
    }
  }

  // A link succeeds exactly when every symbol is admissible, every relocation can be
  // carried out, the program has its entry points within reach of the trampoline,
  // and the image is no larger than 16 megabytes.
  lemma {:induction false} LinksWhen(u: Unit, raw: bool)
    requires Linker.Linkable(u)
    ensures Linker.Link(u, raw).Ok? <==>
            && (forall i :: 0 <= i < |u.symbols| ==> Symbols.Admissible(u, i))
            && Symbols.Resolve(u, |u.symbols|).Ok?
            && var g := Symbols.Resolve(u, |u.symbols|).value;
               && AllPossible(u, g, raw)
               && Linker.Ascii("main") in g && Linker.Ascii("cc64_start") in g
               && g[Linker.Ascii("cc64_start")].address - 22 < 0x8000_0000
               && Linker.MemorySize(u) <= 16 * 1024 * 1024
  {
    hide Linker.EffectOf, Linker.Linkable, Linker.SiteOk, Linker.Apply, Linker.Sites, Linker.MemorySize, Symbols.Resolve, Possible, AllPossible,
      Symbols.Admissible, Layout.SizeOf, Layout.Base, Layout.OutputOf;
    UnitIsOk(u);
    Symbols.ResolvesWhen(u, |u.symbols|);
    Linker.SectionSitesOk(u, |u.sections|);
    StubFits(u);
    if Symbols.Resolve(u, |u.symbols|).Ok? && Linker.MemorySize(u) <= Linker.IMAGE_LIMIT {
      AllApply(u, Symbols.Resolve(u, |u.symbols|).value, raw);
    }
  }

  lemma {:induction false} UnitIsOk(u: Unit)
    requires Linker.Linkable(u)
    ensures Symbols.UnitOk(u)
  {
  }

  lemma {:induction false} StubFits(u: Unit)
    requires Linker.Linkable(u)
    ensures |Linker.Payload(u)| >= |Layout.STUB|
  {
    hide Layout.SizeOf, Layout.Base, Linker.RelocationsOk;
    StubFirst(u.sections);
  }

  lemma {:induction false} StubFirst(ss: seq<Layout.Section>)
    requires Layout.SectionsOk(ss)
    ensures Layout.EndOf(ss, 2) >= |Layout.STUB|
  {
    Layout.SizesGrow(ss, 0, 0, |ss|);
    Layout.BasesGrow(ss, 0, 2);
  }

  // The memory of an image ends with its last common symbol, or with its last output
  // when it has none.
  lemma {:induction false} MemoryEnds(u: Unit, n: nat)
    requires Linker.Linkable(u) && n <= |u.symbols| && forall i :: n <= i < |u.symbols| ==> !Symbols.IsCommon(u.symbols[i])
    ensures n == 0 ==> Linker.MemorySize(u) == Layout.EndOf(u.sections, ObjectFile.BSS)
    ensures n > 0 && Symbols.IsCommon(u.symbols[n - 1]) ==> Linker.MemorySize(u) == Symbols.AddressOf(u, n - 1) + u.symbols[n - 1].size
  {
    hide Layout.SizeOf, Layout.Base, Linker.RelocationsOk;
    SameRoom(u, n, |u.symbols|);
  }

  lemma {:induction false} SameRoom(u: Unit, n: nat, m: nat)
    requires Symbols.UnitOk(u) && n <= m <= |u.symbols| && forall i :: n <= i < m ==> !Symbols.IsCommon(u.symbols[i])
    ensures Symbols.BssAfter(u, m) == Symbols.BssAfter(u, n)
    decreases m - n
  {
    hide Layout.SizeOf;
    if n < m { SameRoom(u, n, m - 1); }
  }

  // A common symbol starts at the next multiple of 8 after what precedes it.
  lemma {:induction false} CommonPlaced(u: Unit, i: nat)
    requires Symbols.UnitOk(u) && i < |u.symbols| && Symbols.IsCommon(u.symbols[i])
    ensures Symbols.AddressOf(u, i) % 8 == 0
    ensures var end := Layout.Base(u.sections, ObjectFile.BSS) + Symbols.BssAfter(u, i);
            end <= Symbols.AddressOf(u, i) < end + 8
  {
    hide Layout.SizeOf, Layout.Base;
    Layout.BaseAligned(u.sections, ObjectFile.BSS);
  }
}
