// CRC-32 (section 8 of RFC 1952), the checksum of object files.
module Crc {
  import Words
  import Octets

  type Byte = Octets.Byte
  type Word32 = w: int | 0 <= w < 0x1_0000_0000 witness 0

  const POLYNOMIAL: Word32 := 0xedb8_8320
  const ONES: Word32 := 0xffff_ffff

  // Exclusive or of 32-bit words.
  function Xor(a: Word32, b: Word32): Word32 {
    Pow32();
    Words.Bitwise(Words.Xor, a, b, 32)
  }

  lemma Pow32()
    ensures Words.Pow2(32) == 0x1_0000_0000
  {
    assert Words.Pow2(8) == 256;
    Words.Pow2Add(8, 8);
    Words.Pow2Add(16, 16);
  }

  function Bit(crc: Word32): Word32 { Xor(crc / 2, if crc % 2 == 1 then POLYNOMIAL else 0) }

  function Bits(crc: Word32, n: nat): Word32
    decreases n
  {
    if n == 0 then crc else Bits(Bit(crc), n - 1)
  }

  function OneByte(crc: Word32, b: Byte): Word32 { Bits(Xor(crc, b), 8) }

  function Bytes(crc: Word32, data: seq<Byte>): Word32
    decreases |data|
  {
    if data == [] then crc else Bytes(OneByte(crc, data[0]), data[1..])
  }

  function Crc32(data: seq<Byte>): Word32 { ONES - Bytes(ONES, data) }

  function Bitwise(a: nat, b: nat, n: nat): nat { Words.Bitwise(Words.Xor, a, b, n) }

  lemma {:induction false} BitwiseAssociative(a: nat, b: nat, c: nat, n: nat)
    ensures Bitwise(Bitwise(a, b, n), c, n) == Bitwise(a, Bitwise(b, c, n), n)
  {
    if n > 0 { BitwiseAssociative(a / 2, b / 2, c / 2, n - 1); }
  }

  lemma {:induction false} BitwiseCommutative(a: nat, b: nat, n: nat)
    ensures Bitwise(a, b, n) == Bitwise(b, a, n)
  {
    if n > 0 { BitwiseCommutative(a / 2, b / 2, n - 1); }
  }

  lemma {:induction false} BitwiseSame(a: nat, b: nat, n: nat)
    requires a < Words.Pow2(n) && b < Words.Pow2(n)
    ensures Bitwise(a, b, n) == 0 <==> a == b
  {
    if n > 0 { BitwiseSame(a / 2, b / 2, n - 1); }
  }

  // A bit more of two words that have none there.
  lemma {:induction false} BitwiseLonger(a: nat, b: nat, n: nat)
    requires a < Words.Pow2(n) && b < Words.Pow2(n)
    ensures Bitwise(a, b, n + 1) == Bitwise(a, b, n)
  {
    if n > 0 { BitwiseLonger(a / 2, b / 2, n - 1); }
  }

  lemma Regroup(x: Word32, y: Word32, p: Word32, q: Word32)
    ensures Xor(Xor(x, y), Xor(p, q)) == Xor(Xor(x, p), Xor(y, q))
  {
    hide Words.Bitwise;
    Pow32();
    BitwiseAssociative(x, y, Xor(p, q), 32);
    BitwiseAssociative(y, p, q, 32);
    BitwiseCommutative(y, p, 32);
    BitwiseAssociative(p, y, q, 32);
    BitwiseAssociative(x, p, Xor(y, q), 32);
  }

  lemma Associative(a: Word32, b: Word32, c: Word32)
    ensures Xor(Xor(a, b), c) == Xor(a, Xor(b, c))
  {
    Pow32();
    BitwiseAssociative(a, b, c, 32);
  }

  lemma Zero(a: Word32)
    ensures Xor(a, 0) == a && Xor(0, a) == a
  {
    Pow32();
    Words.BitwiseZero(Words.Xor, a, 32);
    BitwiseCommutative(a, 0, 32);
  }

  lemma Same(a: Word32, b: Word32)
    ensures Xor(a, b) == 0 <==> a == b
  {
    Pow32();
    BitwiseSame(a, b, 32);
  }

  lemma Halved(a: Word32, b: Word32)
    ensures Xor(a, b) / 2 == Xor(a / 2, b / 2) && Xor(a, b) % 2 == (a + b) % 2
  {
    hide Words.Bitwise, Words.Pow2;
    Pow32();
    assert Words.Pow2(31) == 0x8000_0000 by { Half32(); }
    Words.BitwiseStep(Words.Xor, a, b, 32);
    BitwiseLonger(a / 2, b / 2, 31);
  }

  lemma Half32()
    ensures Words.Pow2(31) == 0x8000_0000
  {
    Pow32();
    assert Words.Pow2(32) == 2 * Words.Pow2(31);
  }

  // Every step of the checksum is linear over exclusive or.
  lemma BitLinear(a: Word32, b: Word32)
    ensures Bit(Xor(a, b)) == Xor(Bit(a), Bit(b))
  {
    hide Xor;
    Halved(a, b);
    var p, q := if a % 2 == 1 then POLYNOMIAL else 0, if b % 2 == 1 then POLYNOMIAL else 0;
    Regroup(a / 2, b / 2, p, q);
    Zero(p);
    Zero(q);
    Same(POLYNOMIAL, POLYNOMIAL);
  }

  lemma BitInjective(a: Word32)
    requires Bit(a) == 0
    ensures a == 0
  {
    hide Xor;
    Same(a / 2, if a % 2 == 1 then POLYNOMIAL else 0);
  }

  lemma {:induction false} BitsLinear(a: Word32, b: Word32, n: nat)
    ensures Bits(Xor(a, b), n) == Xor(Bits(a, n), Bits(b, n))
    decreases n
  {
    hide Bit, Xor;
    if n > 0 {
      BitLinear(a, b);
      BitsLinear(Bit(a), Bit(b), n - 1);
    }
  }

  lemma {:induction false} BitsInjective(a: Word32, n: nat)
    requires Bits(a, n) == 0
    ensures a == 0
    decreases n
  {
    hide Bit;
    if n > 0 {
      BitsInjective(Bit(a), n - 1);
      BitInjective(a);
    }
  }

  lemma {:induction false} BytesAppend(crc: Word32, s: seq<Byte>, t: seq<Byte>)
    ensures Bytes(crc, s + t) == Bytes(Bytes(crc, s), t)
    decreases |s|
  {
    hide OneByte;
    if s == [] {
      assert s + t == t;
    } else {
      assert (s + t)[0] == s[0] && (s + t)[1..] == s[1..] + t;
      BytesAppend(OneByte(crc, s[0]), s[1..], t);
    }
  }

  function XorByte(a: Byte, b: Byte): Byte {
    assert Words.Pow2(8) == 256;
    Words.Bitwise(Words.Xor, a, b, 8)
  }

  lemma WidenXor(a: Byte, b: Byte)
    ensures XorByte(a, b) == Xor(a, b)
  {
    assert Words.Pow2(8) == 256;
    Longer(a, b, 8, 32);
  }

  lemma {:induction false} Longer(a: nat, b: nat, m: nat, n: nat)
    requires m <= n && a < Words.Pow2(m) && b < Words.Pow2(m)
    ensures Bitwise(a, b, n) == Bitwise(a, b, m)
  {
    if m < n {
      Longer(a, b, m, n - 1);
      Words.PowersGrow(m, n - 1);
      BitwiseLonger(a, b, n - 1);
    }
  }

  function XorBytes(s: seq<Byte>, t: seq<Byte>): seq<Byte>
    requires |s| == |t|
    decreases |s|
  {
    if s == [] then [] else [XorByte(s[0], t[0])] + XorBytes(s[1..], t[1..])
  }

  lemma {:induction false} BytesLinear(a: Word32, b: Word32, s: seq<Byte>, t: seq<Byte>)
    requires |s| == |t|
    ensures Bytes(Xor(a, b), XorBytes(s, t)) == Xor(Bytes(a, s), Bytes(b, t))
    decreases |s|
  {
    hide Bits, Xor, XorByte;
    if s != [] {
      var c, d := s[0], t[0];
      WidenXor(c, d);
      Regroup(a, b, c, d);
      BitsLinear(Xor(a, c), Xor(b, d), 8);
      var u, v := XorBytes(s, t), XorBytes(s[1..], t[1..]);
      assert u[0] == XorByte(c, d) && u[1..] == v;
      BytesLinear(OneByte(a, c), OneByte(b, d), s[1..], t[1..]);
    }
  }

  // Up to four bytes ahead, the first in the low bits.
  function Ahead(d: seq<Byte>): nat
    decreases |d|
  {
    if d == [] then 0 else d[0] + 0x100 * Ahead(d[1..])
  }

  lemma {:induction false} AheadSmall(d: seq<Byte>)
    ensures |d| <= 3 ==> Ahead(d) < 0x100_0000
    ensures |d| <= 4 ==> Ahead(d) < 0x1_0000_0000
    ensures |d| <= 2 ==> Ahead(d) < 0x1_0000
    ensures |d| <= 1 ==> Ahead(d) < 0x100
    decreases |d|
  {
    if d != [] { AheadSmall(d[1..]); }
  }

  // A byte below the others is the same as the byte exclusive-ored in.
  lemma JoinedXor(b: Byte, w: nat)
    requires w < 0x100_0000
    ensures Xor(b, 0x100 * w) == b + 0x100 * w
  {
    Pow32();
    assert Words.Pow2(8) == 256;
    BitwiseCommutative(b, 0x100 * w, 32);
    Words.DisjointBits(Words.Xor, 0x100 * w, b, 8, 32);
  }

  lemma {:induction false} EvenBit(y: Word32)
    requires y % 2 == 0
    ensures Bit(y) == y / 2
  {
    hide Xor;
    Zero(y / 2);
  }

  // Nothing is lost from bits that have not reached the low end.
  lemma {:induction false} BitsOfAhead(w: nat, p: nat, n: nat)
    requires p == Words.Pow2(n) && p * w < 0x1_0000_0000
    ensures Bits(p * w, n) == w
  {
    hide Bit;
    if n > 0 {
      var h := Words.Pow2(n - 1);
      assert p * w == 2 * (h * w);
      EvenBit(p * w);
      BitsOfAhead(w, h, n - 1);
    }
  }

  // Four bytes are taken in like one 32-bit word.
  lemma {:induction false} BytesAsWord(x: Word32, d: seq<Byte>)
    requires |d| <= 4 && Ahead(d) < 0x1_0000_0000
    ensures Bytes(x, d) == Bits(Xor(x, Ahead(d)), 8 * |d|)
    decreases |d|
  {
    hide Bits, Xor, Bit;
    if d == [] {
      Zero(x);
      NoBits(x);
    } else {
      var w, b := Ahead(d[1..]), d[0];
      AheadSmall(d[1..]);
      BytesAsWord(OneByte(x, b), d[1..]);
      assert Words.Pow2(8) == 0x100;
      BitsOfAhead(w, 0x100, 8);
      BitsLinear(Xor(x, b), 0x100 * w, 8);
      Associative(x, b, 0x100 * w);
      JoinedXor(b, w);
      BitsAdd(Xor(x, Ahead(d)), 8, 8 * |d| - 8);
    }
  }

  lemma NoBits(x: Word32)
    ensures Bits(x, 0) == x
  {
  }

  lemma {:induction false} BitsAdd(x: Word32, m: nat, n: nat)
    ensures Bits(x, m + n) == Bits(Bits(x, m), n)
    decreases m
  {
    hide Bit;
    if m > 0 { BitsAdd(Bit(x), m - 1, n); }
  }

  lemma {:induction false} Differ(s: seq<Byte>, t: seq<Byte>)
    requires |s| == |t| && s != t
    ensures Ahead(XorBytes(s, t)) != 0
    decreases |s|
  {
    hide Xor, XorByte;
    var c, d := s[0], t[0];
    var u, v := XorBytes(s, t), XorBytes(s[1..], t[1..]);
    assert u[0] == XorByte(c, d) && u[1..] == v;
    WidenXor(c, d);
    Same(c, d);
    if c == d {
      assert s == [c] + s[1..] && t == [d] + t[1..];
      Differ(s[1..], t[1..]);
    }
  }

  lemma {:induction false} XorLength(s: seq<Byte>, t: seq<Byte>)
    requires |s| == |t|
    ensures |XorBytes(s, t)| == |s|
    decreases |s|
  {
    if s != [] { XorLength(s[1..], t[1..]); }
  }

  // A difference confined to four bytes always shows in the state.
  lemma {:induction false} BurstShows(crc: Word32, s: seq<Byte>, t: seq<Byte>)
    requires |s| == |t| <= 4 && s != t
    ensures Bytes(crc, s) != Bytes(crc, t)
  {
    hide Bits, Xor, Ahead, Bytes;
    var d := XorBytes(s, t);
    XorLength(s, t);
    AheadSmall(d);
    BytesLinear(crc, crc, s, t);
    Same(crc, crc);
    BytesAsWord(0, d);
    Differ(s, t);
    Same(Bytes(crc, s), Bytes(crc, t));
    Zero(Ahead(d));
    if Bits(Ahead(d), 8 * |d|) == 0 { BitsInjective(Ahead(d), 8 * |d|); }
  }

  // ... and equal bytes after it never hide it.
  lemma {:induction false} StateKept(a: Word32, b: Word32, rest: seq<Byte>)
    requires a != b
    ensures Bytes(a, rest) != Bytes(b, rest)
    decreases |rest|
  {
    hide Bits, Xor;
    if rest != [] {
      var c := rest[0];
      var x, y := Xor(a, c), Xor(b, c);
      Regroup(a, b, c, c);
      Same(a, b);
      Same(c, c);
      Zero(Xor(a, b));
      BitsLinear(x, y, 8);
      Same(Bits(x, 8), Bits(y, 8));
      if Bits(Xor(x, y), 8) == 0 { BitsInjective(Xor(x, y), 8); }
      StateKept(OneByte(a, c), OneByte(b, c), rest[1..]);
    }
  }

  // Buffers that differ, all differences within four consecutive bytes, have
  // different checksums.
  lemma {:induction false} BurstDetected(s: seq<Byte>, t: seq<Byte>, at: nat)
    requires |s| == |t| && s != t
    requires forall k :: 0 <= k < |s| && !(at <= k < at + 4) ==> s[k] == t[k]
    ensures Crc32(s) != Crc32(t)
  {
    hide Bytes;
    var i := if at < |s| then at else |s|;
    var j := if at + 4 < |s| then at + 4 else |s|;
    assert s[..i] == t[..i] && s[j..] == t[j..];
    assert s == s[..i] + s[i..j] + s[j..] && t == t[..i] + t[i..j] + t[j..];
    var start := ONES;
    BytesAppend(start, s[..i] + s[i..j], s[j..]);
    BytesAppend(start, t[..i] + t[i..j], t[j..]);
    BytesAppend(start, s[..i], s[i..j]);
    BytesAppend(start, t[..i], t[i..j]);
    var before := Bytes(start, s[..i]);
    BurstShows(before, s[i..j], t[i..j]);
    StateKept(Bytes(before, s[i..j]), Bytes(before, t[i..j]), s[j..]);
  }

  // The checksum as it is computed, bit by bit.
  method ComputeCrc(data: array<Byte>, size: nat) returns (crc: Word32)
    requires size <= data.Length
    ensures crc == Crc32(data[..size])
  {
    hide Bit;
    crc := ONES;
    var i := 0;
    while i < size
      invariant 0 <= i <= size && Bytes(crc, data[i..size]) == Bytes(ONES, data[..size])
    {
      ghost var before := crc;
      crc := Xor(crc, data[i]);
      var bit := 0;
      while bit < 8
        invariant 0 <= bit <= 8 && Bits(crc, 8 - bit) == OneByte(before, data[i])
      {
        crc := Bit(crc);
        bit := bit + 1;
      }
      assert data[i..size][0] == data[i] && data[i..size][1..] == data[i + 1..size];
      i := i + 1;
    }
    crc := ONES - crc;
  }

  // The polynomial of section 8 of RFC 1952, the term of degree e in bit 31 - e and
  // that of degree 32 left out.
  lemma PolynomialTerms()
    ensures POLYNOMIAL == Term(26) + Term(23) + Term(22) + Term(16) + Term(12) + Term(11) + Term(10) + Term(8) + Term(7) + Term(5)
                          + Term(4) + Term(2) + Term(1) + Term(0)
  {
  }

  function Term(e: nat): nat
    requires e < 32
  {
    Words.Pow2(31 - e)
  }

  // Words by their hexadecimal digits.

  function Word(h: nat, g: nat, f: nat, e: nat, d: nat, c: nat, b: nat, a: nat): nat {
    a + 16 * (b + 16 * (c + 16 * (d + 16 * (e + 16 * (f + 16 * (g + 16 * h))))))
  }

  function Digit(x: nat, y: nat): nat {
    OneBit(x, y) + 2 * (OneBit(x / 2, y / 2) + 2 * (OneBit(x / 4, y / 4) + 2 * OneBit(x / 8, y / 8)))
  }

  function OneBit(x: nat, y: nat): nat { if x % 2 == y % 2 then 0 else 1 }

  lemma {:induction false} LowDigit(a: nat, x: nat, b: nat, y: nat, n: nat)
    requires a < 16 && b < 16
    ensures Bitwise(a + 16 * x, b + 16 * y, n + 4) == Digit(a, b) + 16 * Bitwise(x, y, n)
  {
    hide Bitwise, Words.Bitwise;
    FourBits(a % 2, a / 2 % 2, a / 4 % 2, a / 8, x, b % 2, b / 2 % 2, b / 4 % 2, b / 8, y, n);
    BinaryDigits(a);
    BinaryDigits(b);
  }

  lemma BinaryDigits(a: nat)
    requires a < 16
    ensures a == a % 2 + 2 * (a / 2 % 2 + 2 * (a / 4 % 2 + 2 * (a / 8)))
    ensures a / 8 < 2 && a / 8 % 2 == a / 8
  {
  }

  lemma {:induction false} FourBits(a: nat, b: nat, c: nat, d: nat, x: nat, a': nat, b': nat, c': nat, d': nat, y: nat, n: nat)
    requires a < 2 && b < 2 && c < 2 && d < 2 && a' < 2 && b' < 2 && c' < 2 && d' < 2
    ensures Bitwise(a + 2 * (b + 2 * (c + 2 * (d + 2 * x))), a' + 2 * (b' + 2 * (c' + 2 * (d' + 2 * y))), n + 4)
         == Words.Bit(Words.Xor, a, a') + 2 * (Words.Bit(Words.Xor, b, b') + 2 * (Words.Bit(Words.Xor, c, c')
            + 2 * (Words.Bit(Words.Xor, d, d') + 2 * Bitwise(x, y, n))))
  {
    hide Bitwise, Words.Bit;
    LowBit(a, b + 2 * (c + 2 * (d + 2 * x)), a', b' + 2 * (c' + 2 * (d' + 2 * y)), n + 3);
    LowBit(b, c + 2 * (d + 2 * x), b', c' + 2 * (d' + 2 * y), n + 2);
    LowBit(c, d + 2 * x, c', d' + 2 * y, n + 1);
    LowBit(d, x, d', y, n);
  }

  lemma {:induction false} LowBit(a: nat, x: nat, b: nat, y: nat, n: nat)
    requires a < 2 && b < 2
    ensures Bitwise(a + 2 * x, b + 2 * y, n + 1) == Words.Bit(Words.Xor, a, b) + 2 * Bitwise(x, y, n)
  {
  }

  // A step on an odd word, digit by digit.
  lemma {:induction false} Folded(x: Word32, h: nat, g: nat, f: nat, e: nat, d: nat, c: nat, b: nat, a: nat)
    requires h < 16 && g < 16 && f < 16 && e < 16 && d < 16 && c < 16 && b < 16 && a < 16
    requires x % 2 == 1 && x / 2 == Word(h, g, f, e, d, c, b, a)
    ensures Bit(x) == Word(Digit(h, 0xe), Digit(g, 0xd), Digit(f, 0xb), Digit(e, 8), Digit(d, 8), Digit(c, 3), Digit(b, 2), Digit(a, 0))
  {
    XorDigits(h, g, f, e, d, c, b, a, 0xe, 0xd, 0xb, 8, 8, 3, 2, 0);
  }

  lemma {:induction false} FoldedTo(x: Word32, y: Word32, h: nat, g: nat, f: nat, e: nat, d: nat, c: nat, b: nat, a: nat,
                                    h': nat, g': nat, f': nat, e': nat, d': nat, c': nat, b': nat, a': nat)
    requires h < 16 && g < 16 && f < 16 && e < 16 && d < 16 && c < 16 && b < 16 && a < 16
    requires x % 2 == 1 && x / 2 == Word(h, g, f, e, d, c, b, a) && y == Word(h', g', f', e', d', c', b', a')
    requires Digit(h, 0xe) == h' && Digit(g, 0xd) == g' && Digit(f, 0xb) == f' && Digit(e, 8) == e'
    requires Digit(d, 8) == d' && Digit(c, 3) == c' && Digit(b, 2) == b' && Digit(a, 0) == a'
    ensures Bit(x) == y
  {
    hide Bit, Digit, Word;
    Folded(x, h, g, f, e, d, c, b, a);
  }

  lemma {:induction false} XorDigits(h: nat, g: nat, f: nat, e: nat, d: nat, c: nat, b: nat, a: nat,
                                     h': nat, g': nat, f': nat, e': nat, d': nat, c': nat, b': nat, a': nat)
    requires h < 16 && g < 16 && f < 16 && e < 16 && d < 16 && c < 16 && b < 16 && a < 16
    requires h' < 16 && g' < 16 && f' < 16 && e' < 16 && d' < 16 && c' < 16 && b' < 16 && a' < 16
    ensures Bitwise(Word(h, g, f, e, d, c, b, a), Word(h', g', f', e', d', c', b', a'), 32)
         == Word(Digit(h, h'), Digit(g, g'), Digit(f, f'), Digit(e, e'), Digit(d, d'), Digit(c, c'), Digit(b, b'), Digit(a, a'))
  {
    hide Bitwise, Digit;
    var b1, b1' := b + 16 * (c + 16 * (d + 16 * (e + 16 * (f + 16 * (g + 16 * h))))), b' + 16 * (c' + 16 * (d' + 16 * (e' + 16 * (f' + 16 * (g' + 16 * h')))));
    var c1, c1' := c + 16 * (d + 16 * (e + 16 * (f + 16 * (g + 16 * h)))), c' + 16 * (d' + 16 * (e' + 16 * (f' + 16 * (g' + 16 * h'))));
    var d1, d1' := d + 16 * (e + 16 * (f + 16 * (g + 16 * h))), d' + 16 * (e' + 16 * (f' + 16 * (g' + 16 * h')));
    var e1, e1' := e + 16 * (f + 16 * (g + 16 * h)), e' + 16 * (f' + 16 * (g' + 16 * h'));
    var f1, f1' := f + 16 * (g + 16 * h), f' + 16 * (g' + 16 * h');
    LowDigit(a, b1, a', b1', 28);
    LowDigit(b, c1, b', c1', 24);
    LowDigit(c, d1, c', d1', 20);
    LowDigit(d, e1, d', e1', 16);
    LowDigit(e, f1, e', f1', 12);
    LowDigit(f, g + 16 * h, f', g' + 16 * h', 8);
    LowDigit(g, h, g', h', 4);
    LowDigit(h, 0, h', 0, 0);
    NoDigits();
  }

  lemma NoDigits()
    ensures Bitwise(0, 0, 0) == 0
  {
  }

  // The checksum of the letter a.
  lemma CheckValue()
    ensures Crc32([0x61]) == 0xe8b7_be43
  {
    hide Xor, Bit;
    CheckByte();
    assert [0x61][1..] == [];
  }

  lemma CheckByte()
    ensures OneByte(ONES, 0x61) == 0x1748_41bc
  {
    hide Xor, Bit;
    FirstXor();
    EvenBit(0xffff_ff9e);
    Fold1();
    Fold2();
    Fold3();
    Fold4();
    EvenBit(0xba42_0de0);
    EvenBit(0x5d21_06f0);
    EvenBit(0x2e90_8378);
  }

  lemma FirstXor()
    ensures Xor(ONES, 0x61) == 0xffff_ff9e
  {
    hide Words.Bitwise, Words.Pow2;
    XorDigits(0xf, 0xf, 0xf, 0xf, 0xf, 0xf, 0xf, 0xf, 0, 0, 0, 0, 0, 0, 6, 1);
  }

  lemma Fold1()
    ensures Bit(0x7fff_ffcf) == 0xd247_7cc7
  {
    hide Bit, Xor, Bitwise, Words.Bitwise, Words.Pow2;
    FoldedTo(0x7fff_ffcf, 0xd247_7cc7, 0x3, 0xf, 0xf, 0xf, 0xf, 0xf, 0xe, 0x7, 0xd, 0x2, 0x4, 0x7, 0x7, 0xc, 0xc, 0x7);
  }

  lemma Fold2()
    ensures Bit(0xd247_7cc7) == 0x849b_3d43
  {
    hide Bit, Xor, Bitwise, Words.Bitwise, Words.Pow2;
    FoldedTo(0xd247_7cc7, 0x849b_3d43, 0x6, 0x9, 0x2, 0x3, 0xb, 0xe, 0x6, 0x3, 0x8, 0x4, 0x9, 0xb, 0x3, 0xd, 0x4, 0x3);
  }

  lemma Fold3()
    ensures Bit(0x849b_3d43) == 0xaff5_1d81
  {
    hide Bit, Xor, Bitwise, Words.Bitwise, Words.Pow2;
    FoldedTo(0x849b_3d43, 0xaff5_1d81, 0x4, 0x2, 0x4, 0xd, 0x9, 0xe, 0xa, 0x1, 0xa, 0xf, 0xf, 0x5, 0x1, 0xd, 0x8, 0x1);
  }

  lemma Fold4()
    ensures Bit(0xaff5_1d81) == 0xba42_0de0
  {
    hide Bit, Xor, Bitwise, Words.Bitwise, Words.Pow2;
    FoldedTo(0xaff5_1d81, 0xba42_0de0, 0x5, 0x7, 0xf, 0xa, 0x8, 0xe, 0xc, 0x0, 0xb, 0xa, 0x4, 0x2, 0x0, 0xd, 0xe, 0x0);
  }

  const CRC_FIELD := 68

  // The checksum of a whole file leaves out the field that holds it.
  function FileCrc32(data: seq<Byte>): Word32 {
    if |data| < 72 then 0 else Crc32(data[..CRC_FIELD] + [0, 0, 0, 0] + data[CRC_FIELD + 4..])
  }

  lemma {:induction false} FieldLeftOut(s: seq<Byte>, t: seq<Byte>)
    requires |s| == |t| && forall k :: 0 <= k < |s| && !(CRC_FIELD <= k < CRC_FIELD + 4) ==> s[k] == t[k]
    ensures FileCrc32(s) == FileCrc32(t)
  {
    if |s| >= 72 {
      assert s[..CRC_FIELD] == t[..CRC_FIELD] && s[CRC_FIELD + 4..] == t[CRC_FIELD + 4..];
    }
  }

  // A burst outside the field shows in the file's checksum.
  lemma {:induction false} FileBurstDetected(s: seq<Byte>, t: seq<Byte>, at: nat)
    requires |s| == |t| >= 72
    requires forall k :: 0 <= k < |s| && !(at <= k < at + 4) ==> s[k] == t[k]
    requires exists k :: 0 <= k < |s| && !(CRC_FIELD <= k < CRC_FIELD + 4) && s[k] != t[k]
    ensures FileCrc32(s) != FileCrc32(t)
  {
    var k :| 0 <= k < |s| && !(CRC_FIELD <= k < CRC_FIELD + 4) && s[k] != t[k];
    var u, v := s[..CRC_FIELD] + [0, 0, 0, 0] + s[CRC_FIELD + 4..], t[..CRC_FIELD] + [0, 0, 0, 0] + t[CRC_FIELD + 4..];
    assert u[k] == s[k] && v[k] == t[k];
    BurstDetected(u, v, at);
  }

  method ComputeFileCrc(data: array<Byte>, size: nat) returns (crc: Word32)
    requires size <= data.Length
    modifies data
    ensures crc == FileCrc32(old(data[..size])) && data[..] == old(data[..])
  {
    if size < 72 { return 0; }
    var a, b, c, d := data[68], data[69], data[70], data[71];
    data[68], data[69], data[70], data[71] := 0, 0, 0, 0;
    ghost var was := old(data[..size]);
    assert data[..size] == was[..CRC_FIELD] + [0, 0, 0, 0] + was[CRC_FIELD + 4..];
    crc := ComputeCrc(data, size);
    data[68], data[69], data[70], data[71] := a, b, c, d;
  }
}
