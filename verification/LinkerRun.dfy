// The linker's loops, each against what it computes.
module LinkerRun {
  import opened Results
  import Patching
  import Records
  import ObjectFile
  import ObjectReader
  import Layout
  import Symbols
  import Linker
  import Linking
  import LinkedImage
  import Loading

  type Byte = Records.Byte
  type Unit = Linker.Unit
  type ImageRelocation = Linker.ImageRelocation

  // The table of slots left to the loader, kept in order of destination.
  class RelocationTable {
    var items: array<ImageRelocation>
    var count: nat

    ghost predicate Valid()
      reads this
    {
      count <= items.Length
    }

    ghost function Contents(): seq<ImageRelocation>
      reads this, items
      requires Valid()
    {
      items[..count]
    }

    constructor ()
      ensures Valid() && fresh(items) && Contents() == []
    {
      items, count := new ImageRelocation[0], 0;
    }

    method Append(e: ImageRelocation)
      requires Valid()
      modifies this, items
      ensures Valid() && (items == old(items) || fresh(items))
      ensures Contents() == Linker.Inserted(old(Contents()), e)
    {
      if count == items.Length { Grow(); }
      InsertSorted(items, count, e);
      count := count + 1;
    }

    method Grow()
      requires Valid() && count == items.Length
      modifies this
      ensures Valid() && fresh(items) && count == old(count) < items.Length && Contents() == old(Contents())
    {
      var next := if items.Length == 0 then 8 else 2 * items.Length;
      var grown := new ImageRelocation[next](i => Linker.ImageRelocation(0, 0));
      var i := 0;
      while i < count
        modifies grown
        invariant 0 <= i <= count && grown[..i] == items[..i]
      {
        grown[i] := items[i];
        i := i + 1;
      }
      items := grown;
    }
  }

  // Larger entries move up by one until the new one fits.
  method InsertSorted(store: array<ImageRelocation>, count: nat, e: ImageRelocation)
    requires count < store.Length
    modifies store
    ensures store[..count + 1] == Linker.Inserted(old(store[..count]), e)
  {
    hide Linker.Inserted;
    ghost var was := store[..count];
    var position := count;
    while position > 0 && store[position - 1].destination > e.destination
      invariant 0 <= position <= count
      invariant forall k :: 0 <= k < position ==> store[k] == was[k]
      invariant forall k :: position <= k < count ==> store[k + 1] == was[k] && was[k].destination > e.destination
    {
      store[position] := store[position - 1];
      position := position - 1;
    }
    store[position] := e;
    InsertedAt(was, position, e);
    assert store[..count + 1] == was[..position] + [e] + was[position..];
  }

  lemma {:induction false} InsertedAt(table: seq<ImageRelocation>, p: nat, e: ImageRelocation)
    requires p <= |table| && (p == 0 || table[p - 1].destination <= e.destination)
    requires forall k :: p <= k < |table| ==> table[k].destination > e.destination
    ensures Linker.Inserted(table, e) == table[..p] + [e] + table[p..]
    decreases |table|
  {
    var n := |table|;
    if p < n {
      InsertedAt(table[..n - 1], p, e);
      assert table[..n - 1][..p] == table[..p];
      assert table[..n - 1][p..] + [table[n - 1]] == table[p..];
    }
  }

  method WriteField(payload: array<Byte>, at: nat, bytes: seq<Byte>)
    requires at + |bytes| <= payload.Length
    modifies payload
    ensures payload[..] == Linker.Patch(old(payload[..]), at, bytes)
  {
    var i := 0;
    while i < |bytes|
      invariant 0 <= i <= |bytes| && payload[at..at + i] == bytes[..i]
      invariant payload[..at] == old(payload[..at]) && payload[at + i..] == old(payload[at + i..])
    {
      payload[at + i] := bytes[i];
      i := i + 1;
    }
    assert payload[..] == payload[..at] + payload[at..at + i] + payload[at + i..];
  }

  // Every relocation of every section, patched in place.
  method ApplyRelocations(u: Unit, globals: map<Linker.Text, Symbols.Global>, raw: bool, payload: array<Byte>, table: RelocationTable)
    returns (code: nat)
    requires Linker.Linkable(u) && table.Valid() && table.Contents() == []
    modifies payload, table, table.items
    ensures table.Valid() && Linker.SitesOk(u, Linker.Sites(u, |u.sections|))
    ensures var r := Linker.Apply(u, globals, Linker.Sites(u, |u.sections|), |Linker.Sites(u, |u.sections|)|, raw, old(payload[..]));
            if code == 0 then r == Ok(Linker.Linking(payload[..], table.Contents())) else r == Error(code)
  {
    hide Linker.Linkable, Linker.SiteOk, Linker.EffectOf, Linker.Patch, Linker.Inserted, Linker.Position, Linker.Sites, Linker.Apply;
    ghost var start, sites := payload[..], Linker.Sites(u, |u.sections|);
    Linker.SectionSitesOk(u, |u.sections|);
    ghost var n := 0;
    StartsEmpty(u, globals, sites, raw, start);
    var i := 0;
    while i < |u.sections|
      invariant 0 <= i <= |u.sections| && table.Valid() && (table.items == old(table.items) || fresh(table.items))
      invariant n == |Linker.Sites(u, i)| <= |sites|
      invariant Linker.Apply(u, globals, sites, n, raw, start) == Ok(Linker.Linking(payload[..], table.Contents()))
    {
      SectionSites(u, i);
      var j := 0;
      while j < |u.sections[i].relocations|
        invariant 0 <= j <= |u.sections[i].relocations| && table.Valid() && (table.items == old(table.items) || fresh(table.items))
        invariant n == |Linker.Sites(u, i)| + j <= |sites|
        invariant Linker.Apply(u, globals, sites, n, raw, start) == Ok(Linker.Linking(payload[..], table.Contents()))
      {
        var s := Linker.Site(i, u.sections[i].relocations[j]);
        assert sites[n] == s;
        NextSite(u, globals, sites, n, raw, start);
        var e := Linker.EffectOf(u, globals, s, payload.Length, raw);
        if e.Error? {
          ErrorCode(u, globals, s, payload.Length, raw);
          return e.code;
        }
        WriteField(payload, Linker.Position(u, s), e.value.bytes);
        if e.value.entry.Some? { table.Append(e.value.entry.value); }
        n := n + 1;
        j := j + 1;
      }
      i := i + 1;
    }
    code := 0;
  }

  lemma {:induction false} StartsEmpty(u: Unit, g: map<Linker.Text, Symbols.Global>, sites: seq<Linker.Site>, raw: bool, start: seq<Byte>)
    requires Linker.Linkable(u) && Linker.SitesOk(u, sites)
    ensures Linker.Apply(u, g, sites, 0, raw, start) == Ok(Linker.Linking(start, [])) && Linker.Sites(u, 0) == []
  {
  }

  // The i-th section's relocations follow those of the sections before it.
  lemma {:induction false} SectionSites(u: Unit, i: nat)
    requires i < |u.sections|
    ensures var rs, k := u.sections[i].relocations, |Linker.Sites(u, i)|;
            && |Linker.Sites(u, i + 1)| == k + |rs| <= |Linker.Sites(u, |u.sections|)|
            && forall j :: 0 <= j < |rs| ==> Linker.Sites(u, |u.sections|)[k + j] == Linker.Site(i, rs[j])
  {
    SitesKept(u, i + 1, |u.sections|);
    var now, all := Linker.Sites(u, i + 1), Linker.Sites(u, |u.sections|);
    forall j | 0 <= j < |u.sections[i].relocations|
      ensures all[|Linker.Sites(u, i)| + j] == Linker.Site(i, u.sections[i].relocations[j])
    {
      assert all[|Linker.Sites(u, i)| + j] == now[|Linker.Sites(u, i)| + j];
    }
  }

  lemma {:induction false} SitesKept(u: Unit, i: nat, j: nat)
    requires i <= j <= |u.sections|
    ensures Linker.Sites(u, i) <= Linker.Sites(u, j)
  {
    if i < j { SitesKept(u, i, j - 1); }
  }

  lemma {:induction false} NextSite(u: Unit, g: map<Linker.Text, Symbols.Global>, sites: seq<Linker.Site>, n: nat, raw: bool, start: seq<Byte>)
    requires Linker.Linkable(u) && Linker.SitesOk(u, sites) && n < |sites| && Linker.Apply(u, g, sites, n, raw, start).Ok?
    ensures Linker.Apply(u, g, sites, n + 1, raw, start)
         == Linker.ApplySite(u, g, sites[n], raw, Linker.Apply(u, g, sites, n, raw, start).value)
    ensures Linker.EffectOf(u, g, sites[n], |start|, raw).Error? ==>
              Linker.Apply(u, g, sites, |sites|, raw, start) == Error(Linker.EffectOf(u, g, sites[n], |start|, raw).code)
  {
    hide Linker.Linkable, Linker.SiteOk, Linker.EffectOf, Linker.Patch, Linker.Inserted, Linker.Position;
    if Linker.EffectOf(u, g, sites[n], |start|, raw).Error? { Stopped(u, g, sites, n + 1, |sites|, raw, start); }
  }

  lemma {:induction false} Stopped(u: Unit, g: map<Linker.Text, Symbols.Global>, sites: seq<Linker.Site>, n: nat, m: nat, raw: bool, start: seq<Byte>)
    requires Linker.Linkable(u) && Linker.SitesOk(u, sites) && n <= m <= |sites| && Linker.Apply(u, g, sites, n, raw, start).Error?
    ensures Linker.Apply(u, g, sites, m, raw, start) == Linker.Apply(u, g, sites, n, raw, start)
  {
    hide Linker.Linkable, Linker.SiteOk, Linker.ApplySite;
    if n < m { Stopped(u, g, sites, n, m - 1, raw, start); }
  }

  lemma {:induction false} ErrorCode(u: Unit, g: map<Linker.Text, Symbols.Global>, s: Linker.Site, size: nat, raw: bool)
    requires Linker.Linkable(u) && Linker.SiteOk(u, s) && Linker.EffectOf(u, g, s, size, raw).Error?
    ensures Linker.EffectOf(u, g, s, size, raw).code != 0
  {
  }

  // Sections appended to the output of their kind, each aligned.
  method PlaceSections(ss: seq<ObjectFile.Section>) returns (outputs: seq<seq<Byte>>, offsets: seq<nat>)
    requires Layout.SectionsOk(ss)
    ensures |outputs| == 4 && forall k :: 0 <= k < 4 ==> outputs[k] == Layout.OutputOf(ss, k, |ss|)
    ensures |offsets| == |ss| && forall i :: 0 <= i < |ss| ==> offsets[i] == Layout.OffsetOf(ss, i)
  {
    hide Layout.AlignTo;
    outputs, offsets := [Layout.STUB, [], [], []], [];
    var i := 0;
    while i < |ss|
      invariant 0 <= i <= |ss| && |outputs| == 4 && |offsets| == i
      invariant forall k :: 0 <= k < 4 ==> outputs[k] == Layout.OutputOf(ss, k, i)
      invariant forall k :: 0 <= k < i ==> offsets[k] == Layout.OffsetOf(ss, k)
    {
      var s, out := ss[i], outputs[ss[i].kind];
      var at := Layout.AlignTo(|out|, s.alignment);
      assert at == Layout.OffsetOf(ss, i);
      out := out + Layout.Zeros(at - |out|) + if s.kind == ObjectFile.BSS then Layout.Zeros(s.size) else s.data;
      assert out == Layout.OutputOf(ss, s.kind, i + 1);
      outputs, offsets := outputs[s.kind := out], offsets + [at];
      i := i + 1;
    }
  }

  method AssignBases(ss: seq<ObjectFile.Section>, outputs: seq<seq<Byte>>) returns (bases: seq<nat>)
    requires Layout.SectionsOk(ss) && |outputs| == 4 && forall k :: 0 <= k < 4 ==> outputs[k] == Layout.OutputOf(ss, k, |ss|)
    ensures |bases| == 4 && forall k :: 0 <= k < 4 ==> bases[k] == Layout.Base(ss, k)
  {
    hide Layout.SizeOf, Layout.OutputOf, Layout.AlignTo;
    bases := [];
    var base, i := 0, 0;
    while i < 4
      invariant 0 <= i <= 4 && |bases| == i && (forall k :: 0 <= k < i ==> bases[k] == Layout.Base(ss, k))
      invariant base == if i == 0 then 0 else Layout.EndOf(ss, i - 1)
    {
      base := Layout.AlignTo(base, if i <= 1 then 16 else 8);
      NoAlignment();
      bases := bases + [base];
      base := base + |outputs[i]|;
      i := i + 1;
    }
  }

  lemma NoAlignment()
    ensures Layout.AlignTo(0, 16) == 0
  {
  }

  // The ends of the image on disk and in memory.
  method ImageExtents(ss: seq<ObjectFile.Section>, bases: seq<nat>, sizes: seq<nat>) returns (payload: nat, memory: nat)
    requires Layout.SectionsOk(ss) && |bases| == |sizes| == 4 && sizes[3] >= Layout.SizeOf(ss, 3, |ss|)
    requires forall k :: 0 <= k < 4 ==> bases[k] == Layout.Base(ss, k) && (k < 3 ==> sizes[k] == Layout.SizeOf(ss, k, |ss|))
    ensures payload == Layout.EndOf(ss, 2) && memory == bases[3] + sizes[3]
  {
    hide Layout.SizeOf, Layout.Base;
    Layout.BasesGrow(ss, 0, 2);
    Layout.BasesGrow(ss, 1, 2);
    Layout.BasesGrow(ss, 0, 3);
    Layout.BasesGrow(ss, 1, 3);
    Layout.BasesGrow(ss, 2, 3);
    payload, memory := 0, 0;
    var i := 0;
    while i < 4
      invariant 0 <= i <= 4
      invariant forall k :: 0 <= k < i ==> memory >= bases[k] + sizes[k] && (k < 3 ==> payload >= bases[k] + sizes[k])
      invariant i > 0 ==> exists k :: 0 <= k < i && memory == bases[k] + sizes[k]
      invariant i > 0 ==> exists k :: 0 <= k < 3 && k < i && payload == bases[k] + sizes[k]
    {
      var end := bases[i] + sizes[i];
      if i != 3 && (i == 0 || end > payload) { payload := end; }
      if i == 0 || end > memory { memory := end; }
      i := i + 1;
    }
  }

  // The outputs copied into one zeroed buffer.
  method FlattenOutputs(ss: seq<ObjectFile.Section>, outputs: seq<seq<Byte>>, bases: seq<nat>, size: nat) returns (image: array<Byte>)
    requires Layout.SectionsOk(ss) && |outputs| == |bases| == 4 && size == Layout.EndOf(ss, 2)
    requires forall k :: 0 <= k < 4 ==> outputs[k] == Layout.OutputOf(ss, k, |ss|) && bases[k] == Layout.Base(ss, k)
    ensures fresh(image) && image[..] == Layout.Payload(ss)
  {
    hide Layout.OutputOf, Layout.AlignTo, Linker.Patch;
    image := new Byte[size](i => 0);
    Layout.BasesGrow(ss, 0, 1);
    Layout.BasesGrow(ss, 1, 2);
    ghost var p0 := image[..];
    WriteField(image, bases[0], outputs[0]);
    ghost var p1 := image[..];
    WriteField(image, bases[1], outputs[1]);
    ghost var p2 := image[..];
    WriteField(image, bases[2], outputs[2]);
    ThreePatches(p0, outputs[0], outputs[1], outputs[2], bases[1], bases[2]);
    FlatPayload(ss);
  }

  function Concatenated(a: seq<Byte>, b: seq<Byte>, c: seq<Byte>, bAt: nat, cAt: nat): seq<Byte>
    requires |a| <= bAt && bAt + |b| <= cAt
  {
    a + Layout.Zeros(bAt - |a|) + b + Layout.Zeros(cAt - (bAt + |b|)) + c
  }

  lemma {:induction false} FlatPayload(ss: seq<ObjectFile.Section>)
    requires Layout.SectionsOk(ss)
    ensures Layout.EndOf(ss, 0) <= Layout.Base(ss, 1) && Layout.EndOf(ss, 1) <= Layout.Base(ss, 2)
    ensures Layout.Payload(ss) == Concatenated(Layout.OutputOf(ss, 0, |ss|), Layout.OutputOf(ss, 1, |ss|), Layout.OutputOf(ss, 2, |ss|),
                                               Layout.Base(ss, 1), Layout.Base(ss, 2))
  {
    hide Layout.AlignTo;
    Layout.BasesGrow(ss, 0, 1);
    Layout.BasesGrow(ss, 1, 2);
  }

  lemma {:induction false} ThreePatches(zeros: seq<Byte>, a: seq<Byte>, b: seq<Byte>, c: seq<Byte>, bAt: nat, cAt: nat)
    requires |a| <= bAt && bAt + |b| <= cAt && |zeros| == cAt + |c| && forall i :: 0 <= i < |zeros| ==> zeros[i] == 0
    ensures Linker.Patch(Linker.Patch(Linker.Patch(zeros, 0, a), bAt, b), cAt, c) == Concatenated(a, b, c, bAt, cAt)
  {
    var p1 := Linker.Patch(zeros, 0, a);
    assert p1[..bAt] == a + Layout.Zeros(bAt - |a|);
    var p2 := Linker.Patch(p1, bAt, b);
    assert p1[bAt + |b|..] == zeros[bAt + |b|..];
    assert p2[..cAt] == p1[..bAt] + b + Layout.Zeros(cAt - (bAt + |b|));
  }

  // One link, from placement to the finished image.
  method LinkUnit(u: Unit, raw: bool) returns (r: Result<Linker.Image>)
    requires Linker.Linkable(u)
    ensures r == Linker.Link(u, raw)
  {
    hide Layout.SizeOf, Layout.Base, Layout.OutputOf, Linker.RelocationsOk, Symbols.Resolve, Symbols.BssAfter, Linker.Apply, Layout.Payload,
      Linker.Patch, Symbols.AddressOf;
    var outputs, offsets := PlaceSections(u.sections);
    var bases := AssignBases(u.sections, outputs);
    var resolved := Symbols.ResolveSymbols(u);
    if resolved.Error? { return Error(Symbols.Resolve(u, |u.symbols|).code); }
    var globals := resolved.value.globals;
    Symbols.BssGrows(u, 0, |u.symbols|);
    BssStart(u);
    var size, memory := ImageExtents(u.sections, bases, [|outputs[0]|, |outputs[1]|, |outputs[2]|, resolved.value.bss]);
    var payload := FlattenOutputs(u.sections, outputs, bases, size);
    var table := new RelocationTable();
    var code := ApplyRelocations(u, globals, raw, payload, table);
    if code != 0 { return Error(code); }
    if Linker.Ascii("main") !in globals { return Error(5027); }
    if Linker.Ascii("cc64_start") !in globals { return Error(5042); }
    var displacement := globals[Linker.Ascii("cc64_start")].address - (Layout.ENTRY_FIELD + 4);
    if Layout.ENTRY_FIELD + 4 > payload.Length || !Patching.Fits32(displacement) { return Error(5028); }
    WriteField(payload, Layout.ENTRY_FIELD, Patching.Bytes32(displacement));
    if memory > Linker.IMAGE_LIMIT { return Error(5034); }
    r := Ok(Linker.Image(payload[..], memory, table.items[..table.count]));
  }

  lemma {:induction false} BssStart(u: Unit)
    requires Symbols.UnitOk(u)
    ensures Symbols.BssAfter(u, 0) == Layout.SizeOf(u.sections, ObjectFile.BSS, |u.sections|)
  {
  }

  // Objects are read one by one; the first that is refused ends the link.
  method LinkObjects(files: seq<seq<Byte>>, raw: bool) returns (r: Result<Linker.Image>, ghost objects: seq<ObjectFile.Object>)
    ensures (files == [] || exists i :: 0 <= i < |files| && ObjectReader.Read(files[i]).Error?) ==> r.Error?
    ensures files != [] && (forall i :: 0 <= i < |files| ==> ObjectReader.Read(files[i]).Ok?) ==>
              && |objects| == |files| && (forall i :: 0 <= i < |files| ==> ObjectReader.Read(files[i]) == Ok(objects[i]))
              && Linker.Linkable(Linking.Merge(objects)) && r == Linker.Link(Linking.Merge(objects), raw)
  {
    hide ObjectReader.Read, Linking.Checked, Linker.Linkable, Linker.Link;
    var read, i := [], 0;
    objects := [];
    if files == [] { return Error(5041), []; }
    while i < |files|
      invariant 0 <= i <= |files| && |read| == i && Linking.AllChecked(read)
      invariant forall k :: 0 <= k < i ==> ObjectReader.Read(files[k]) == Ok(read[k])
    {
      var o := ObjectReader.ReadObject(files[i]);
      if o.Error? { return Error(o.code), []; }
      Linking.ReadChecked(files[i]);
      read := read + [o.value];
      i := i + 1;
    }
    Linking.MergeLinkable(read);
    objects := read;
    r := LinkUnit(Linking.Merge(read), raw);
  }
}
