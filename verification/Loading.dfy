// A linked image is right wherever it is loaded.
module Loading {
  import opened Options
  import Words
  import Patching
  import Records
  import ObjectFile
  import Layout
  import Symbols
  import Linker

  type Byte = Records.Byte
  type Unit = Linker.Unit
  type Globals = map<Linker.Text, Symbols.Global>

  // The loader's rule: the payload, zeros up to the image's memory, and the bias
  // added into every slot of the table, modulo 2^64.
  function Load(image: Linker.Image, bias: nat): (memory: seq<Byte>)
    requires TableInside(image.table, image.memorySize) && |image.payload| <= image.memorySize
    ensures |memory| == image.memorySize
  {
    Fixed(image.payload + Layout.Zeros(image.memorySize - |image.payload|), image.table, |image.table|, bias)
  }

  predicate TableInside(table: seq<Linker.ImageRelocation>, size: nat) {
    forall i :: 0 <= i < |table| ==> table[i].destination + 8 <= size
  }

  function Fixed(s: seq<Byte>, table: seq<Linker.ImageRelocation>, n: nat, bias: nat): (r: seq<Byte>)
    requires TableInside(table, |s|) && n <= |table|
    ensures |r| == |s|
  {
    if n == 0 then s
    else Linker.Patch(Fixed(s, table, n - 1, bias), table[n - 1].destination, Records.Little(Words.U64(bias + table[n - 1].addend), 8))
  }

  predicate Clear(at: nat, width: nat, lo: nat, hi: nat) { at + width <= lo || hi <= at }

  lemma {:induction false} Patched(s: seq<Byte>, at: nat, bytes: seq<Byte>, lo: nat, hi: nat)
    requires at + |bytes| <= |s| && lo <= hi <= |s|
    ensures Linker.Patch(s, at, bytes)[at..at + |bytes|] == bytes
    ensures Clear(at, |bytes|, lo, hi) ==> Linker.Patch(s, at, bytes)[lo..hi] == s[lo..hi]
  {
  }

  ghost predicate Separated(table: seq<Linker.ImageRelocation>) {
    forall i, j :: 0 <= i < j < |table| ==> table[i].destination + 8 <= table[j].destination
  }

  // Every slot of the table holds the biased value, and nothing else changes.
  lemma {:induction false} FixedSlots(s: seq<Byte>, table: seq<Linker.ImageRelocation>, n: nat, bias: nat, k: nat, lo: nat, hi: nat)
    requires TableInside(table, |s|) && n <= |table| && Separated(table) && lo <= hi <= |s|
    ensures k < n ==> Fixed(s, table, n, bias)[table[k].destination..table[k].destination + 8]
                      == Records.Little(Words.U64(bias + table[k].addend), 8)
    ensures (forall i :: 0 <= i < n ==> Clear(table[i].destination, 8, lo, hi)) ==> Fixed(s, table, n, bias)[lo..hi] == s[lo..hi]
  {
    hide Records.Little, Linker.Patch;
    if n > 0 {
      var at := table[n - 1].destination;
      var before, bytes := Fixed(s, table, n - 1, bias), Records.Little(Words.U64(bias + table[n - 1].addend), 8);
      FixedSlots(s, table, n - 1, bias, k, lo, hi);
      Patched(before, at, bytes, lo, hi);
      if k < n - 1 {
        assert table[k].destination + 8 <= at;
        Patched(before, at, bytes, table[k].destination, table[k].destination + 8);
      }
    }
  }

  // No two relocations of a section write the same byte.
  predicate DisjointFields(u: Unit) {
    forall i, j, k :: 0 <= i < |u.sections| && 0 <= j < k < |u.sections[i].relocations| ==>
      FieldsApart(u.sections[i].relocations[j], u.sections[i].relocations[k])
  }

  predicate FieldsApart(a: Linker.Relocation, b: Linker.Relocation) {
    a.offset + a.width <= b.offset || b.offset + b.width <= a.offset
  }

  predicate SitesApart(u: Unit, s: Linker.Site, t: Linker.Site)
    requires Linker.Linkable(u) && Linker.SiteOk(u, s) && Linker.SiteOk(u, t)
  {
    Clear(Linker.Position(u, s), s.reloc.width, Linker.Position(u, t), Linker.Position(u, t) + t.reloc.width)
  }

  ghost predicate AllApart(u: Unit, sites: seq<Linker.Site>)
    requires Linker.Linkable(u) && Linker.SitesOk(u, sites)
  {
    forall a, b :: 0 <= a < b < |sites| ==> SitesApart(u, sites[a], sites[b])
  }

  lemma {:induction false} SitesAllApart(u: Unit, n: nat)
    requires Linker.Linkable(u) && n <= |u.sections| && DisjointFields(u)
    ensures Linker.SitesOk(u, Linker.Sites(u, n)) && AllApart(u, Linker.Sites(u, n))
    ensures forall a :: 0 <= a < |Linker.Sites(u, n)| ==> Linker.Sites(u, n)[a].section < n
  {
    hide Linker.Linkable, Linker.SiteOk, SitesApart;
    Linker.SectionSitesOk(u, n);
    if n > 0 {
      SitesAllApart(u, n - 1);
      var sites, older := Linker.Sites(u, n), Linker.Sites(u, n - 1);
      forall a, b | 0 <= a < b < |sites| ensures SitesApart(u, sites[a], sites[b]) {
        if b < |older| {
          assert sites[a] == older[a] && sites[b] == older[b];
        } else {
          TwoApart(u, sites[a], sites[b], if a < |older| then 0 else a - |older|, b - |older|);
        }
      }
    }
  }

  lemma {:induction false} TwoApart(u: Unit, s: Linker.Site, t: Linker.Site, j: nat, k: nat)
    requires Linker.Linkable(u) && DisjointFields(u) && Linker.SiteOk(u, s) && Linker.SiteOk(u, t)
    requires s.section < t.section || (s.section == t.section && j < k < |u.sections[t.section].relocations|
               && s.reloc == u.sections[t.section].relocations[j] && t.reloc == u.sections[t.section].relocations[k])
    ensures SitesApart(u, s, t)
  {
    hide Layout.SectionAt, Linker.RelocationsOk, ObjectFile.WidthMatches;
    if s.section < t.section {
      Layout.SectionsApart(u.sections, s.section, t.section);
    } else {
      assert FieldsApart(s.reloc, t.reloc);
    }
  }

  lemma {:induction false} SiteAmong(u: Unit, n: nat, i: nat, j: nat) returns (k: nat)
    requires i < n <= |u.sections| && j < |u.sections[i].relocations|
    ensures k < |Linker.Sites(u, n)| && Linker.Sites(u, n)[k] == Linker.Site(i, u.sections[i].relocations[j])
  {
    if i < n - 1 {
      k := SiteAmong(u, n - 1, i, j);
    } else {
      k := |Linker.Sites(u, n - 1)| + j;
    }
  }

  // After the first n relocations every one of them stands in its field, and
  // other bytes are as they were.
  lemma {:induction false} Applied(u: Unit, g: Globals, sites: seq<Linker.Site>, n: nat, raw: bool, start: seq<Byte>, k: nat, lo: nat, hi: nat)
    requires Linker.Linkable(u) && Linker.SitesOk(u, sites) && AllApart(u, sites) && n <= |sites| && lo <= hi <= |start|
    requires Linker.Apply(u, g, sites, n, raw, start).Ok?
    ensures k < n ==>
              var e, at := Linker.EffectOf(u, g, sites[k], |start|, raw), Linker.Position(u, sites[k]);
              e.Ok? && Linker.Apply(u, g, sites, n, raw, start).value.payload[at..at + sites[k].reloc.width] == e.value.bytes
    ensures (forall i :: 0 <= i < n ==> Clear(Linker.Position(u, sites[i]), sites[i].reloc.width, lo, hi)) ==>
              Linker.Apply(u, g, sites, n, raw, start).value.payload[lo..hi] == start[lo..hi]
  {
    hide Linker.Linkable, Linker.SiteOk, Linker.EffectOf, Linker.Position, Linker.Patch, Linker.Inserted;
    if n > 0 {
      var before, s := Linker.Apply(u, g, sites, n - 1, raw, start).value.payload, sites[n - 1];
      var at, bytes := Linker.Position(u, s), Linker.EffectOf(u, g, s, |start|, raw).value.bytes;
      Applied(u, g, sites, n - 1, raw, start, k, lo, hi);
      Patched(before, at, bytes, lo, hi);
      if k < n - 1 {
        assert SitesApart(u, sites[k], s);
        var p, w := Linker.Position(u, sites[k]), sites[k].reloc.width;
        Patched(before, at, bytes, p, p + w);
      }
    }
  }

  lemma {:induction false} InsertedHolds(table: seq<Linker.ImageRelocation>, e: Linker.ImageRelocation, x: Linker.ImageRelocation)
    ensures x in Linker.Inserted(table, e) <==> x in table || x == e
    decreases |table|
  {
    if table != [] {
      var n := |table| - 1;
      assert table == table[..n] + [table[n]];
      InsertedHolds(table[..n], e, x);
    }
  }

  lemma {:induction false} InsertedSeparated(table: seq<Linker.ImageRelocation>, e: Linker.ImageRelocation)
    requires Separated(table)
    requires forall i :: 0 <= i < |table| ==> Clear(table[i].destination, 8, e.destination, e.destination + 8)
    ensures Separated(Linker.Inserted(table, e))
    decreases |table|
  {
    if table != [] && table[|table| - 1].destination > e.destination {
      var n := |table| - 1;
      var less := Linker.Inserted(table[..n], e);
      InsertedSeparated(table[..n], e);
      forall i | 0 <= i < |less| ensures less[i].destination + 8 <= table[n].destination {
        InsertedHolds(table[..n], e, less[i]);
        if less[i] != e {
          var j :| 0 <= j < n && table[j] == less[i];
        }
      }
    } else if table != [] {
      var n := |table| - 1;
      forall i | 0 <= i < |table| ensures table[i].destination + 8 <= e.destination {
        if i < n { assert table[i].destination + 8 <= table[n].destination; }
      }
    }
  }

  // The table holds just what the data relocations left to the loader, in order
  // and without overlap.
  ghost predicate TableOf(u: Unit, g: Globals, sites: seq<Linker.Site>, n: nat, raw: bool, size: nat, table: seq<Linker.ImageRelocation>)
    requires Linker.Linkable(u) && Linker.SitesOk(u, sites) && n <= |sites|
  {
    && Separated(table)
    && (forall x :: x in table ==> exists k :: 0 <= k < n && Leaves(u, g, sites[k], raw, size, x))
    && (forall k, x :: 0 <= k < n && Leaves(u, g, sites[k], raw, size, x) ==> x in table)
  }

  predicate Leaves(u: Unit, g: Globals, s: Linker.Site, raw: bool, size: nat, x: Linker.ImageRelocation)
    requires Linker.Linkable(u) && Linker.SiteOk(u, s)
  {
    var e := Linker.EffectOf(u, g, s, size, raw);
    e.Ok? && e.value.entry == Some(x)
  }

  lemma {:induction false} LeavesSlot(u: Unit, g: Globals, s: Linker.Site, raw: bool, size: nat, x: Linker.ImageRelocation)
    requires Linker.Linkable(u) && Linker.SiteOk(u, s) && Leaves(u, g, s, raw, size, x)
    ensures x.destination == Linker.Position(u, s) && s.reloc.width == 8 && s.reloc.kind == ObjectFile.DATA64
    ensures x.destination + 8 <= size
  {
  }

  lemma {:induction false} TableApplied(u: Unit, g: Globals, sites: seq<Linker.Site>, n: nat, raw: bool, start: seq<Byte>)
    requires Linker.Linkable(u) && Linker.SitesOk(u, sites) && AllApart(u, sites) && n <= |sites|
    requires Linker.Apply(u, g, sites, n, raw, start).Ok?
    ensures TableOf(u, g, sites, n, raw, |start|, Linker.Apply(u, g, sites, n, raw, start).value.table)
  {
    hide Linker.Linkable, Linker.SiteOk, Linker.Position, Linker.Patch, Linker.Inserted, Linker.EffectOf;
    if n > 0 {
      var before, s := Linker.Apply(u, g, sites, n - 1, raw, start).value, sites[n - 1];
      var table := Linker.Apply(u, g, sites, n, raw, start).value.table;
      TableApplied(u, g, sites, n - 1, raw, start);
      var e := Linker.EffectOf(u, g, s, |start|, raw).value.entry;
      if e.Some? {
        OneMoreEntry(u, g, sites, n, raw, |start|, before.table, e.value);
      }
    }
  }

  lemma {:induction false} OneMoreEntry(u: Unit, g: Globals, sites: seq<Linker.Site>, n: nat, raw: bool, size: nat,
                                        table: seq<Linker.ImageRelocation>, x: Linker.ImageRelocation)
    requires Linker.Linkable(u) && Linker.SitesOk(u, sites) && AllApart(u, sites) && 0 < n <= |sites|
    requires TableOf(u, g, sites, n - 1, raw, size, table) && Leaves(u, g, sites[n - 1], raw, size, x)
    ensures TableOf(u, g, sites, n, raw, size, Linker.Inserted(table, x))
  {
    hide Linker.Linkable, Linker.SiteOk, Linker.Position, Linker.Inserted, Leaves;
    LeavesSlot(u, g, sites[n - 1], raw, size, x);
    forall i | 0 <= i < |table| ensures Clear(table[i].destination, 8, x.destination, x.destination + 8) {
      assert table[i] in table;
      var k :| 0 <= k < n - 1 && Leaves(u, g, sites[k], raw, size, table[i]);
      LeavesSlot(u, g, sites[k], raw, size, table[i]);
      assert SitesApart(u, sites[k], sites[n - 1]);
    }
    InsertedSeparated(table, x);
    var more := Linker.Inserted(table, x);
    forall y | y in more ensures exists k :: 0 <= k < n && Leaves(u, g, sites[k], raw, size, y) {
      InsertedHolds(table, x, y);
    }
    forall k, y | 0 <= k < n && Leaves(u, g, sites[k], raw, size, y) ensures y in more {
      InsertedHolds(table, x, y);
      OneEntry(u, g, sites[n - 1], raw, size, x, y);
    }
  }

  lemma {:induction false} OneEntry(u: Unit, g: Globals, s: Linker.Site, raw: bool, size: nat, x: Linker.ImageRelocation, y: Linker.ImageRelocation)
    requires Linker.Linkable(u) && Linker.SiteOk(u, s) && Leaves(u, g, s, raw, size, x)
    ensures Leaves(u, g, s, raw, size, y) ==> x == y
  {
  }
}
