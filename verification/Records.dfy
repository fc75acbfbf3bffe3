// Little-endian records and tables of records, as object files hold them.
module Records {
  import Crc

  type Byte = Crc.Byte

  function Pow256(n: nat): (p: nat)
    ensures p > 0
  {
    if n == 0 then 1 else 0x100 * Pow256(n - 1)
  }

  function Little(v: nat, n: nat): (s: seq<Byte>)
    ensures |s| == n
  {
    if n == 0 then [] else [v % 0x100] + Little(v / 0x100, n - 1)
  }

  function Number(s: seq<Byte>): nat
    decreases |s|
  {
    if s == [] then 0 else s[0] + 0x100 * Number(s[1..])
  }

  lemma {:induction false} NumberOfLittle(v: nat, n: nat)
    requires v < Pow256(n)
    ensures Number(Little(v, n)) == v
  {
    if n > 0 { NumberOfLittle(v / 0x100, n - 1); }
  }

  lemma {:induction false} LittleOfNumber(s: seq<Byte>)
    ensures Number(s) < Pow256(|s|) && Little(Number(s), |s|) == s
    decreases |s|
  {
    if s != [] {
      var rest := Number(s[1..]);
      LittleOfNumber(s[1..]);
      assert (s[0] + 0x100 * rest) % 0x100 == s[0] && (s[0] + 0x100 * rest) / 0x100 == rest;
      assert s == [s[0]] + s[1..];
    }
  }

  lemma Powers()
    ensures Pow256(1) == 0x100 && Pow256(2) == 0x1_0000 && Pow256(4) == 0x1_0000_0000
    ensures Pow256(8) == 0x1_0000_0000_0000_0000
  {
    assert Pow256(6) == 0x1_0000_0000_0000;
  }

  // A record is a run of fields; its layout lists their widths.  From the i-th on:
  function Total(layout: seq<nat>, i: nat): nat
    decreases |layout| - i
  {
    if i >= |layout| then 0 else layout[i] + Total(layout, i + 1)
  }

  predicate Fit(layout: seq<nat>, vs: seq<nat>) {
    |layout| == |vs| && forall k :: 0 <= k < |vs| ==> vs[k] < Pow256(layout[k])
  }

  function EncodeFrom(layout: seq<nat>, vs: seq<nat>, i: nat): (s: seq<Byte>)
    requires |layout| == |vs|
    ensures |s| == Total(layout, i)
    decreases |layout| - i
  {
    if i >= |layout| then [] else Little(vs[i], layout[i]) + EncodeFrom(layout, vs, i + 1)
  }

  function DecodeFrom(layout: seq<nat>, s: seq<Byte>, i: nat): (vs: seq<nat>)
    requires |s| == Total(layout, i) && i <= |layout|
    ensures |vs| == |layout| - i
    decreases |layout| - i
  {
    if i >= |layout| then [] else [Number(s[..layout[i]])] + DecodeFrom(layout, s[layout[i]..], i + 1)
  }

  function Encode(layout: seq<nat>, vs: seq<nat>): (s: seq<Byte>)
    requires |layout| == |vs|
    ensures |s| == Total(layout, 0)
  {
    EncodeFrom(layout, vs, 0)
  }

  function Decode(layout: seq<nat>, s: seq<Byte>): (vs: seq<nat>)
    requires |s| == Total(layout, 0)
    ensures |vs| == |layout|
  {
    DecodeFrom(layout, s, 0)
  }

  lemma {:induction false} DecodeEncodedFrom(layout: seq<nat>, vs: seq<nat>, i: nat)
    requires Fit(layout, vs) && i <= |layout|
    ensures DecodeFrom(layout, EncodeFrom(layout, vs, i), i) == vs[i..]
    decreases |layout| - i
  {
    hide Little, Number;
    if i < |layout| {
      var s, first := EncodeFrom(layout, vs, i), Little(vs[i], layout[i]);
      assert s[..layout[i]] == first && s[layout[i]..] == EncodeFrom(layout, vs, i + 1);
      NumberOfLittle(vs[i], layout[i]);
      DecodeEncodedFrom(layout, vs, i + 1);
    }
  }

  // Records read back as the fields that were written.
  lemma {:induction false} DecodeEncoded(layout: seq<nat>, vs: seq<nat>)
    requires Fit(layout, vs)
    ensures Decode(layout, Encode(layout, vs)) == vs
  {
    DecodeEncodedFrom(layout, vs, 0);
    assert vs[0..] == vs;
  }

  // Whatever the bytes, a decoded field fits its width.
  lemma {:induction false} DecodedFit(layout: seq<nat>, s: seq<Byte>, i: nat, k: nat)
    requires |s| == Total(layout, i) && i <= k < |layout|
    ensures DecodeFrom(layout, s, i)[k - i] < Pow256(layout[k])
    decreases |layout| - i
  {
    hide Pow256;
    if i == k {
      LittleOfNumber(s[..layout[i]]);
    } else {
      DecodedFit(layout, s[layout[i]..], i + 1, k);
    }
  }

  // Pieces one after the other.
  function Flat(pieces: seq<seq<Byte>>): seq<Byte>
    decreases |pieces|
  {
    if pieces == [] then [] else Flat(pieces[..|pieces| - 1]) + pieces[|pieces| - 1]
  }

  // Where the i-th piece starts.
  function Start(pieces: seq<seq<Byte>>, i: nat): nat
    requires i <= |pieces|
  {
    if i == 0 then 0 else Start(pieces, i - 1) + |pieces[i - 1]|
  }

  lemma {:induction false} FlatStart(pieces: seq<seq<Byte>>, i: nat)
    requires i <= |pieces|
    ensures |Flat(pieces[..i])| == Start(pieces, i)
  {
    if i > 0 {
      assert pieces[..i][..i - 1] == pieces[..i - 1];
      FlatStart(pieces, i - 1);
    }
  }

  lemma {:induction false} PieceAt(pieces: seq<seq<Byte>>, n: nat, i: nat)
    requires i < n <= |pieces|
    ensures Start(pieces, i) + |pieces[i]| <= |Flat(pieces[..n])|
    ensures Flat(pieces[..n])[Start(pieces, i)..Start(pieces, i) + |pieces[i]|] == pieces[i]
  {
    assert pieces[..n][..n - 1] == pieces[..n - 1];
    FlatStart(pieces, n - 1);
    if i < n - 1 {
      PieceAt(pieces, n - 1, i);
      var s := Flat(pieces[..n - 1]);
      assert (s + pieces[n - 1])[Start(pieces, i)..Start(pieces, i) + |pieces[i]|] == s[Start(pieces, i)..Start(pieces, i) + |pieces[i]|];
    }
  }

  lemma {:induction false} EqualPieces(pieces: seq<seq<Byte>>, i: nat, width: nat)
    requires i <= |pieces| && forall k :: 0 <= k < |pieces| ==> |pieces[k]| == width
    ensures Start(pieces, i) == i * width
  {
    if i > 0 { EqualPieces(pieces, i - 1, width); }
  }

  // The i-th record of a table.
  lemma {:induction false} RecordAt(pieces: seq<seq<Byte>>, i: nat, width: nat)
    requires i < |pieces| && forall k :: 0 <= k < |pieces| ==> |pieces[k]| == width
    ensures |Flat(pieces)| == |pieces| * width && i * width + width <= |Flat(pieces)|
    ensures Flat(pieces)[i * width..i * width + width] == pieces[i]
  {
    assert pieces[..|pieces|] == pieces;
    EqualPieces(pieces, i, width);
    EqualPieces(pieces, |pieces|, width);
    FlatStart(pieces, |pieces|);
    PieceAt(pieces, |pieces|, i);
  }

  lemma {:induction false} SliceOfSlice(s: seq<Byte>, a: nat, b: nat, i: nat, j: nat)
    requires a <= b <= |s| && i <= j <= b - a
    ensures s[a..b][i..j] == s[a + i..a + j]
  {
    var t := s[a..b];
    assert |t[i..j]| == j - i && |s[a + i..a + j]| == j - i;
    forall k | 0 <= k < j - i ensures t[i..j][k] == s[a + i..a + j][k] {
      assert t[i..j][k] == t[i + k] == s[a + i + k];
    }
  }
}
