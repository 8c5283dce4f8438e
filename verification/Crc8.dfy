/** The CRC of latmus/net.c: a table-driven CRC-8 against its bit-serial definition. */
module Crc8 {
  /** One of eight neighbours in the table. */
  function Row(j: bv8, a: bv8, b: bv8, c: bv8, d: bv8, e: bv8, f: bv8, g: bv8, h: bv8): bv8 {
    if j == 0 then a else if j == 1 then b else if j == 2 then c else if j == 3 then d
    else if j == 4 then e else if j == 5 then f else if j == 6 then g else h
  }

  /** crc8_ccitt[] */
  function Table(c: bv8): bv8 {
    var j := c & 7;
    if c < 0x08 then Row(j, 0x00, 0x8d, 0x97, 0x1a, 0xa3, 0x2e, 0x34, 0xb9)
    else if c < 0x10 then Row(j, 0xcb, 0x46, 0x5c, 0xd1, 0x68, 0xe5, 0xff, 0x72)
    else if c < 0x18 then Row(j, 0x1b, 0x96, 0x8c, 0x01, 0xb8, 0x35, 0x2f, 0xa2)
    else if c < 0x20 then Row(j, 0xd0, 0x5d, 0x47, 0xca, 0x73, 0xfe, 0xe4, 0x69)
    else if c < 0x28 then Row(j, 0x36, 0xbb, 0xa1, 0x2c, 0x95, 0x18, 0x02, 0x8f)
    else if c < 0x30 then Row(j, 0xfd, 0x70, 0x6a, 0xe7, 0x5e, 0xd3, 0xc9, 0x44)
    else if c < 0x38 then Row(j, 0x2d, 0xa0, 0xba, 0x37, 0x8e, 0x03, 0x19, 0x94)
    else if c < 0x40 then Row(j, 0xe6, 0x6b, 0x71, 0xfc, 0x45, 0xc8, 0xd2, 0x5f)
    else if c < 0x48 then Row(j, 0x6c, 0xe1, 0xfb, 0x76, 0xcf, 0x42, 0x58, 0xd5)
    else if c < 0x50 then Row(j, 0xa7, 0x2a, 0x30, 0xbd, 0x04, 0x89, 0x93, 0x1e)
    else if c < 0x58 then Row(j, 0x77, 0xfa, 0xe0, 0x6d, 0xd4, 0x59, 0x43, 0xce)
    else if c < 0x60 then Row(j, 0xbc, 0x31, 0x2b, 0xa6, 0x1f, 0x92, 0x88, 0x05)
    else if c < 0x68 then Row(j, 0x5a, 0xd7, 0xcd, 0x40, 0xf9, 0x74, 0x6e, 0xe3)
    else if c < 0x70 then Row(j, 0x91, 0x1c, 0x06, 0x8b, 0x32, 0xbf, 0xa5, 0x28)
    else if c < 0x78 then Row(j, 0x41, 0xcc, 0xd6, 0x5b, 0xe2, 0x6f, 0x75, 0xf8)
    else if c < 0x80 then Row(j, 0x8a, 0x07, 0x1d, 0x90, 0x29, 0xa4, 0xbe, 0x33)
    else if c < 0x88 then Row(j, 0xd8, 0x55, 0x4f, 0xc2, 0x7b, 0xf6, 0xec, 0x61)
    else if c < 0x90 then Row(j, 0x13, 0x9e, 0x84, 0x09, 0xb0, 0x3d, 0x27, 0xaa)
    else if c < 0x98 then Row(j, 0xc3, 0x4e, 0x54, 0xd9, 0x60, 0xed, 0xf7, 0x7a)
    else if c < 0xa0 then Row(j, 0x08, 0x85, 0x9f, 0x12, 0xab, 0x26, 0x3c, 0xb1)
    else if c < 0xa8 then Row(j, 0xee, 0x63, 0x79, 0xf4, 0x4d, 0xc0, 0xda, 0x57)
    else if c < 0xb0 then Row(j, 0x25, 0xa8, 0xb2, 0x3f, 0x86, 0x0b, 0x11, 0x9c)
    else if c < 0xb8 then Row(j, 0xf5, 0x78, 0x62, 0xef, 0x56, 0xdb, 0xc1, 0x4c)
    else if c < 0xc0 then Row(j, 0x3e, 0xb3, 0xa9, 0x24, 0x9d, 0x10, 0x0a, 0x87)
    else if c < 0xc8 then Row(j, 0xb4, 0x39, 0x23, 0xae, 0x17, 0x9a, 0x80, 0x0d)
    else if c < 0xd0 then Row(j, 0x7f, 0xf2, 0xe8, 0x65, 0xdc, 0x51, 0x4b, 0xc6)
    else if c < 0xd8 then Row(j, 0xaf, 0x22, 0x38, 0xb5, 0x0c, 0x81, 0x9b, 0x16)
    else if c < 0xe0 then Row(j, 0x64, 0xe9, 0xf3, 0x7e, 0xc7, 0x4a, 0x50, 0xdd)
    else if c < 0xe8 then Row(j, 0x82, 0x0f, 0x15, 0x98, 0x21, 0xac, 0xb6, 0x3b)
    else if c < 0xf0 then Row(j, 0x49, 0xc4, 0xde, 0x53, 0xea, 0x67, 0x7d, 0xf0)
    else if c < 0xf8 then Row(j, 0x99, 0x14, 0x0e, 0x83, 0x3a, 0xb7, 0xad, 0x20)
    else Row(j, 0x52, 0xdf, 0xc5, 0x48, 0xf1, 0x7c, 0x66, 0xeb)
  }

  /** One more byte enters the CRC. */
  function Add(crc: bv8, b: bv8): bv8 {
    Table(crc ^ b)
  }

  /** The fold that generate_crc () computes, from an initial value. */
  function Crc(start: bv8, s: seq<bv8>): bv8 {
    if s == [] then start else Add(Crc(start, s[..|s| - 1]), s[|s| - 1])
  }

  /** generate_crc () over the first `len` bytes of the buffer. */
  method GenerateCrc(buf: array<bv8>, len: nat) returns (crc: bv8)
    requires len <= buf.Length
    ensures crc == Crc(0xff, buf[..len])
  {
    hide Table;
    crc := 0xff;
    var n, p := len, 0;
    while n > 0
      invariant n + p == len && crc == Crc(0xff, buf[..p])
    {
      assert buf[..p + 1][..p] == buf[..p];
      n := n - 1;
      crc := Table(crc ^ buf[p]);
      p := p + 1;
    }
  }

  // ---------- The bit-serial CRC ----------

  /** Division by the polynomial x^8 + x^7 + x^3 + x^2 + 1 (0x18D): one message bit enters, most significant first. */
  function Shift(crc: bv8, bit: bool): bv8 {
    if (crc >= 0x80) != bit then (crc << 1) ^ 0x8d else crc << 1
  }

  function ShiftAll(crc: bv8, bits: seq<bool>): bv8 {
    if bits == [] then crc else Shift(ShiftAll(crc, bits[..|bits| - 1]), bits[|bits| - 1])
  }

  /** The bits of a byte, most significant first. */
  function BitsOf(b: bv8): seq<bool> {
    [b & 0x80 != 0, b & 0x40 != 0, b & 0x20 != 0, b & 0x10 != 0, b & 8 != 0, b & 4 != 0, b & 2 != 0, b & 1 != 0]
  }

  function AllBits(s: seq<bv8>): seq<bool> {
    if s == [] then [] else AllBits(s[..|s| - 1]) + BitsOf(s[|s| - 1])
  }

  /** Eight shifts, one for each bit of `b`. */
  function Shift8(c: bv8, b: bv8): bv8 {
    Shift(Shift(Shift(Shift(Shift(Shift(Shift(Shift(c, b & 0x80 != 0), b & 0x40 != 0), b & 0x20 != 0), b & 0x10 != 0),
                      b & 8 != 0), b & 4 != 0), b & 2 != 0), b & 1 != 0)
  }

  /** An entry of the table is what eight shifts of the register do. */
  lemma {:induction false} TableIsShift(c: bv8)
    ensures Table(c) == Shift8(c, 0)
  {
  }

  /** The register `z` that had the byte added to it differs from the other one, `x`, by the bits `y` yet to enter. */
  lemma {:induction false} ShiftXor(z: bv8, x: bv8, y: bv8) returns (z': bv8, x': bv8, y': bv8)
    requires z == x ^ y
    ensures z' == Shift(z, false) && x' == Shift(x, y >= 0x80) && y' == y << 1 && z' == x' ^ y'
  {
    z', x', y' := Shift(z, false), Shift(x, y >= 0x80), y << 1;
  }

  /** Two bits at a time. */
  lemma {:induction false} ShiftTwo(z: bv8, x: bv8, y: bv8) returns (z': bv8, x': bv8, y': bv8)
    requires z == x ^ y
    ensures z' == Shift(Shift(z, false), false) && x' == Shift(Shift(x, y & 0x80 != 0), y & 0x40 != 0)
    ensures y' == y << 2 && z' == x' ^ y'
  {
    hide Shift;
    TopTwo(y);
    z', x', y' := ShiftXor(z, x, y);
    z', x', y' := ShiftXor(z', x', y');
  }

  lemma {:induction false} TopTwo(y: bv8)
    ensures (y >= 0x80) == (y & 0x80 != 0) && ((y << 1) >= 0x80) == (y & 0x40 != 0) && (y << 1) << 1 == y << 2
  {
  }

  /** Bits may enter one by one, or be added to the register beforehand. */
  lemma {:induction false} ByteFirst(c: bv8, b: bv8)
    ensures Shift8(c, b) == Shift8(c ^ b, 0)
  {
    NoBits();
    var z, x, y := ShiftTwo(c ^ b, c, b);
    PairBits(b);
    hide Shift;
    z, x, y := ShiftTwo(z, x, y);
    z, x, y := ShiftTwo(z, x, y);
    z, x, y := ShiftTwo(z, x, y);
  }

  lemma {:induction false} NoBits()
    ensures (0 as bv8) & 0x80 == 0 && (0 as bv8) & 0x40 == 0 && (0 as bv8) & 0x20 == 0 && (0 as bv8) & 0x10 == 0
    ensures (0 as bv8) & 8 == 0 && (0 as bv8) & 4 == 0 && (0 as bv8) & 2 == 0 && (0 as bv8) & 1 == 0
  {
  }

  lemma {:induction false} PairBits(b: bv8)
    ensures (b & 0x20 != 0) == ((b << 2) & 0x80 != 0) && (b & 0x10 != 0) == ((b << 2) & 0x40 != 0)
    ensures (b & 8 != 0) == ((b << 2 << 2) & 0x80 != 0) && (b & 4 != 0) == ((b << 2 << 2) & 0x40 != 0)
    ensures (b & 2 != 0) == ((b << 2 << 2 << 2) & 0x80 != 0) && (b & 1 != 0) == ((b << 2 << 2 << 2) & 0x40 != 0)
    ensures b << 2 << 2 << 2 << 2 == 0
  {
  }

  // ---------- The table-driven CRC is the bit-serial one ----------

  lemma {:induction false} ShiftByte(crc: bv8, b: bv8)
    ensures ShiftAll(crc, BitsOf(b)) == Shift8(crc, b)
  {
    hide Shift, ShiftAll;
    var s := BitsOf(b);
    LastBit(crc, [], s[0]);
    LastBit(crc, s[..1], s[1]);
    LastBit(crc, s[..2], s[2]);
    LastBit(crc, s[..3], s[3]);
    LastBit(crc, s[..4], s[4]);
    LastBit(crc, s[..5], s[5]);
    LastBit(crc, s[..6], s[6]);
    LastBit(crc, s[..7], s[7]);
    NoShift(crc);
    assert s[..1] == [] + [s[0]] && s[..2] == s[..1] + [s[1]] && s[..3] == s[..2] + [s[2]] && s[..4] == s[..3] + [s[3]];
    assert s[..5] == s[..4] + [s[4]] && s[..6] == s[..5] + [s[5]] && s[..7] == s[..6] + [s[6]] && s == s[..7] + [s[7]];
  }

  lemma {:induction false} LastBit(crc: bv8, s: seq<bool>, b: bool)
    ensures ShiftAll(crc, s + [b]) == Shift(ShiftAll(crc, s), b)
  {
    hide Shift;
    assert (s + [b])[..|s|] == s;
  }

  lemma {:induction false} ShiftConcat(crc: bv8, s: seq<bool>, t: seq<bool>)
    ensures ShiftAll(crc, s + t) == ShiftAll(ShiftAll(crc, s), t)
    decreases |t|
  {
    hide Shift;
    if t == [] {
      assert s + t == s;
    } else {
      assert (s + t)[..|s + t| - 1] == s + t[..|t| - 1];
      ShiftConcat(crc, s, t[..|t| - 1]);
    }
  }

  /** The CRC of any buffer is the remainder that the bit-serial register ends with. */
  lemma {:induction false} TableMatchesBits(start: bv8, s: seq<bv8>)
    ensures Crc(start, s) == ShiftAll(start, AllBits(s))
    decreases |s|
  {
    hide Table, Shift8, BitsOf, ShiftAll;
    if s == [] {
      assert ShiftAll(start, []) == start by { NoShift(start); }
    } else {
      var u, b := s[..|s| - 1], s[|s| - 1];
      TableMatchesBits(start, u);
      var c := Crc(start, u);
      TableIsShift(c ^ b);
      ByteFirst(c, b);
      ShiftByte(c, b);
      ShiftConcat(start, AllBits(u), BitsOf(b));
    }
  }

  lemma {:induction false} NoShift(crc: bv8)
    ensures ShiftAll(crc, []) == crc
  {
  }

  // ---------- Error detection ----------

  /** The table is a permutation. */
  lemma {:induction false} TableInjective(a: bv8, b: bv8)
    ensures Table(a) == Table(b) <==> a == b
  {
    TableIsShift(a);
    TableIsShift(b);
    hide Table;
    if a != b {
      ShiftInjective(a, b);
      var a1, b1 := Shift(a, false), Shift(b, false);
      ShiftInjective(a1, b1);
      var a2, b2 := Shift(a1, false), Shift(b1, false);
      ShiftInjective(a2, b2);
      var a3, b3 := Shift(a2, false), Shift(b2, false);
      ShiftInjective(a3, b3);
      var a4, b4 := Shift(a3, false), Shift(b3, false);
      ShiftInjective(a4, b4);
      var a5, b5 := Shift(a4, false), Shift(b4, false);
      ShiftInjective(a5, b5);
      var a6, b6 := Shift(a5, false), Shift(b5, false);
      ShiftInjective(a6, b6);
      ShiftInjective(Shift(a6, false), Shift(b6, false));
      NoBits();
    }
  }

  lemma {:induction false} ShiftInjective(a: bv8, b: bv8)
    requires a != b
    ensures Shift(a, false) != Shift(b, false)
  {
  }

  lemma {:induction false} XorInjective(c: bv8, d: bv8, a: bv8, b: bv8)
    ensures c != d ==> c ^ a != d ^ a
    ensures a != b ==> c ^ a != c ^ b
  {
  }

  lemma {:induction false} AddInjective(c: bv8, d: bv8, a: bv8, b: bv8)
    ensures c != d ==> Add(c, a) != Add(d, a)
    ensures a != b ==> Add(c, a) != Add(c, b)
  {
    XorInjective(c, d, a, b);
    TableInjective(c ^ a, d ^ a);
    TableInjective(c ^ a, c ^ b);
    hide Table;
  }

  /** Two registers that differ still differ after the same bytes. */
  lemma {:induction false} CrcInjective(c: bv8, d: bv8, s: seq<bv8>)
    requires c != d
    ensures Crc(c, s) != Crc(d, s)
    decreases |s|
  {
    hide Add;
    if s != [] {
      var u, b := s[..|s| - 1], s[|s| - 1];
      CrcInjective(c, d, u);
      AddInjective(Crc(c, u), Crc(d, u), b, b);
    }
  }

  lemma {:induction false} CrcConcat(start: bv8, s: seq<bv8>, t: seq<bv8>)
    ensures Crc(start, s + t) == Crc(Crc(start, s), t)
    decreases |t|
  {
    hide Add;
    if t == [] {
      assert s + t == s;
    } else {
      assert (s + t)[..|s + t| - 1] == s + t[..|t| - 1];
      CrcConcat(start, s, t[..|t| - 1]);
    }
  }

  /** Changing one byte of a buffer changes its CRC. */
  lemma {:induction false} OneByteDetected(start: bv8, s: seq<bv8>, i: nat, b: bv8)
    requires i < |s| && b != s[i]
    ensures Crc(start, s[i := b]) != Crc(start, s)
  {
    hide Add, Crc;
    var u, v := s[..i], s[i + 1..];
    assert s == u + [s[i]] + v && s[i := b] == u + [b] + v;
    CrcConcat(start, u + [s[i]], v);
    CrcConcat(start, u + [b], v);
    LastByte(start, u, s[i]);
    LastByte(start, u, b);
    AddInjective(Crc(start, u), Crc(start, u), s[i], b);
    CrcInjective(Crc(start, u + [b]), Crc(start, u + [s[i]]), v);
  }

  lemma {:induction false} LastByte(start: bv8, u: seq<bv8>, b: bv8)
    ensures Crc(start, u + [b]) == Add(Crc(start, u), b)
  {
    hide Add;
    assert (u + [b])[..|u|] == u;
  }
}
