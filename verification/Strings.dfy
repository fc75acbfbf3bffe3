// The string table of an object file: terminated names, each stored once.
module Strings {
  import Records

  type Byte = Records.Byte
  type Text = seq<Byte>

  predicate Plain(text: Text) { forall k :: 0 <= k < |text| ==> text[k] != 0 }

  ghost predicate AllPlain(names: seq<Text>) { forall i :: 0 <= i < |names| ==> Plain(names[i]) }

  function Terminated(names: seq<Text>): seq<Text> { seq(|names|, i requires 0 <= i < |names| => names[i] + [0]) }

  function Bytes(names: seq<Text>): seq<Byte> { Records.Flat(Terminated(names)) }

  // The prefix sum of lengths, terminators included.
  function OffsetOf(names: seq<Text>, i: nat): nat
    requires i <= |names|
  {
    if i == 0 then 0 else OffsetOf(names, i - 1) + |names[i - 1]| + 1
  }

  function Find(names: seq<Text>, text: Text, i: nat): (r: nat)
    requires i <= |names|
    ensures i <= r <= |names|
    ensures r < |names| ==> names[r] == text
    ensures forall k :: i <= k < r ==> names[k] != text
    decreases |names| - i
  {
    if i == |names| || names[i] == text then i else Find(names, text, i + 1)
  }

  function Intern(names: seq<Text>, text: Text): (seq<Text>, nat) {
    var i := Find(names, text, 0);
    if i < |names| then (names, OffsetOf(names, i)) else (names + [text], OffsetOf(names, |names|))
  }

  function InternAll(names: seq<Text>, texts: seq<Text>): (seq<Text>, seq<nat>)
    decreases |texts|
  {
    if texts == [] then (names, [])
    else
      var (before, offsets) := InternAll(names, texts[..|texts| - 1]);
      var (after, offset) := Intern(before, texts[|texts| - 1]);
      (after, offsets + [offset])
  }

  // Where the name that starts at i ends.
  function End(strings: seq<Byte>, i: nat): (e: nat)
    requires i <= |strings|
    ensures i <= e <= |strings|
    decreases |strings| - i
  {
    if i == |strings| || strings[i] == 0 then i else End(strings, i + 1)
  }

  // The offset names text, now and whatever is added later.
  ghost predicate Names(names: seq<Text>, offset: nat, text: Text) {
    exists i :: 0 <= i < |names| && names[i] == text && offset == OffsetOf(names, i)
  }

  lemma {:induction false} OffsetKept(names: seq<Text>, more: seq<Text>, i: nat)
    requires names <= more && i <= |names|
    ensures OffsetOf(more, i) == OffsetOf(names, i)
  {
    if i > 0 { OffsetKept(names, more, i - 1); }
  }

  lemma {:induction false} NamesKept(names: seq<Text>, more: seq<Text>, offset: nat, text: Text)
    requires names <= more && Names(names, offset, text)
    ensures Names(more, offset, text)
  {
    var i :| 0 <= i < |names| && names[i] == text && offset == OffsetOf(names, i);
    OffsetKept(names, more, i);
    assert more[i] == text;
  }

  lemma {:induction false} InternNames(names: seq<Text>, text: Text)
    ensures var (after, offset) := Intern(names, text);
            && names <= after && Names(after, offset, text)
            && after == (if text in names then names else names + [text])
            && (AllPlain(names) && Plain(text) ==> AllPlain(after))
  {
    var (after, offset) := Intern(names, text);
    var i := Find(names, text, 0);
    OffsetKept(names, after, i);
    assert after[i] == text;
  }

  lemma {:induction false} InternAllNames(names: seq<Text>, texts: seq<Text>)
    ensures var (after, offsets) := InternAll(names, texts);
            && names <= after && |offsets| == |texts|
            && (forall i :: 0 <= i < |texts| ==> Names(after, offsets[i], texts[i]))
            && (AllPlain(names) && AllPlain(texts) ==> AllPlain(after))
    decreases |texts|
  {
    hide Intern, Names;
    if texts != [] {
      var shorter := texts[..|texts| - 1];
      InternAllNames(names, shorter);
      var (before, offsets) := InternAll(names, shorter);
      InternNames(before, texts[|texts| - 1]);
      var (after, _) := Intern(before, texts[|texts| - 1]);
      forall i | 0 <= i < |shorter| ensures Names(after, offsets[i], texts[i]) {
        assert shorter[i] == texts[i];
        NamesKept(before, after, offsets[i], texts[i]);
      }
    }
  }

  lemma {:induction false} StartIsOffset(names: seq<Text>, i: nat)
    requires i <= |names|
    ensures Records.Start(Terminated(names), i) == OffsetOf(names, i)
  {
    if i > 0 { StartIsOffset(names, i - 1); }
  }

  lemma {:induction false} EndOfName(strings: seq<Byte>, at: nat, text: Text, k: nat)
    requires k <= |text| && at + |text| + 1 <= |strings| && Plain(text)
    requires strings[at..at + |text| + 1] == text + [0]
    ensures End(strings, at + k) == at + |text|
    decreases |text| - k
  {
    assert strings[at + k] == strings[at..at + |text| + 1][k];
    if k < |text| { EndOfName(strings, at, text, k + 1); }
  }

  // Reading from a name's offset to the next terminator gives the name back.
  lemma {:induction false} NameReadBack(names: seq<Text>, offset: nat, text: Text)
    requires Names(names, offset, text) && AllPlain(names)
    ensures var strings := Bytes(names);
            && offset < |strings| && End(strings, offset) == offset + |text| < |strings|
            && strings[offset..offset + |text|] == text && strings[offset..offset + |text| + 1] == text + [0]
  {
    var i :| 0 <= i < |names| && names[i] == text && offset == OffsetOf(names, i);
    var pieces, strings := Terminated(names), Bytes(names);
    StartIsOffset(names, i);
    Records.PieceAt(pieces, |pieces|, i);
    assert pieces[..|pieces|] == pieces;
    assert strings[offset..offset + |text| + 1] == text + [0];
    EndOfName(strings, offset, text, 0);
    assert strings[offset..offset + |text|] == strings[offset..offset + |text| + 1][..|text|];
  }

  lemma {:induction false} LastByte(names: seq<Text>)
    requires names != []
    ensures Bytes(names) != [] && Bytes(names)[|Bytes(names)| - 1] == 0
  {
    var pieces := Terminated(names);
    assert pieces[|pieces| - 1] == names[|names| - 1] + [0];
  }

  lemma {:induction false} BytesGrow(names: seq<Text>, text: Text)
    ensures Bytes(names + [text]) == Bytes(names) + text + [0]
    ensures |Bytes(names)| == OffsetOf(names, |names|)
  {
    var more := Terminated(names + [text]);
    assert more[..|names|] == Terminated(names);
    StartIsOffset(names, |names|);
    Records.FlatStart(Terminated(names), |names|);
    assert Terminated(names)[..|names|] == Terminated(names);
  }

  // The table as it is filled: bytes and names grow together.
  class StringTable {
    var bytes: seq<Byte>
    var names: seq<Text>

    ghost predicate Valid()
      reads this
    {
      bytes == Bytes(names)
    }

    constructor ()
      ensures Valid() && names == []
    {
      bytes, names := [], [];
    }

    method Add(text: Text) returns (offset: nat)
      requires Valid()
      modifies this
      ensures Valid() && (names, offset) == Intern(old(names), text)
      ensures names == (if text in old(names) then old(names) else old(names) + [text]) && Names(names, offset, text)
    {
      InternNames(names, text);
      var i := 0;
      while i < |names|
        invariant 0 <= i <= |names| && Find(names, text, i) == Find(names, text, 0)
      {
        if names[i] == text {
          var j := 0;
          offset := 0;
          while j < i
            invariant 0 <= j <= i && offset == OffsetOf(names, j)
          {
            offset := offset + |names[j]| + 1;
            j := j + 1;
          }
          return;
        }
        i := i + 1;
      }
      BytesGrow(names, text);
      offset := |bytes|;
      bytes := bytes + text + [0];
      names := names + [text];
    }
  }
}
