/** The Internet checksum of tidbits/oob-net-icmp.c, as section 1 of RFC 1071 defines it. */
module Checksum {
  import opened Arithmetic

  /** Up to this many bytes the 32-bit sum cannot overflow. */
  const MAX_LEN: int := 131072

  /** The 16-bit word that two bytes make in memory, on a little-endian or a big-endian processor. */
  function Word(big: bool, a: Byte, b: Byte): int {
    if big then 256 * a + b else a + 256 * b
  }

  /** The sum of the words from offset `i` on; an odd last byte counts as a small number. */
  function Sum(big: bool, s: seq<Byte>, i: nat): (r: int)
    requires i <= |s|
    ensures 0 <= 2 * r <= 65535 * (|s| - i + 1)
    decreases |s| - i
  {
    if i + 1 < |s| then Word(big, s[i], s[i + 1]) + Sum(big, s, i + 2)
    else if i < |s| then s[i]
    else 0
  }

  /** One turn of the folding loop: the carries come back at the bottom. */
  function Carry(x: int): int {
    x % 65536 + x / 65536
  }

  /** The folding loop. */
  function Fold(x: nat): (r: nat)
    ensures r < 65536 && r % 65535 == x % 65535 && (r == 0 <==> x == 0)
    decreases x
  {
    if x < 65536 then x
    else
      CarryKeeps(x);
      Fold(Carry(x))
  }

  lemma {:induction false} CarryKeeps(x: nat)
    requires x >= 65536
    ensures 0 < Carry(x) < x && Carry(x) % 65535 == x % 65535
  {
    var q, r := x / 65536, x % 65536;
    assert x == 65535 * q + (q + r);
    SameResidue(q + r, q);
  }

  lemma {:induction false} SameResidue(y: int, k: int)
    ensures (65535 * k + y) % 65535 == y % 65535
  {
    DivMod(65535 * k + y, 65535, k + y / 65535, y % 65535);
  }

  /** `~sum & 0xffff` */
  function Complement(x: nat): int {
    65535 - x
  }

  function IpSum(big: bool, s: seq<Byte>): int {
    Complement(Fold(Sum(big, s, 0)))
  }

  /** ip_checksum () */
  method IpChecksum(big: bool, buf: array<Byte>, len: nat) returns (r: int)
    requires len <= buf.Length && len <= MAX_LEN
    ensures r == IpSum(big, buf[..len]) && 0 <= r < 65536
  {
    hide Sum, Fold, Word;
    ghost var s := buf[..len];
    var sum: nat := 0;
    var count, p := len, 0;
    while count > 1
      invariant 0 <= count && p + count == len && sum + Sum(big, s, p) == Sum(big, s, 0)
    {
      SumStep(big, s, p);
      sum := (sum + Word(big, buf[p], buf[p + 1])) % UINT32_RANGE;
      count, p := count - 2, p + 2;
    }
    SumStep(big, s, p);
    if count > 0 {
      sum := (sum + buf[p]) % UINT32_RANGE;
    }
    sum := FoldLoop(sum);
    r := Complement(sum);
  }

  /** One turn of the summing loop: the sum stays far below 32 bits. */
  lemma {:induction false} SumStep(big: bool, s: seq<Byte>, i: nat)
    requires i <= |s| <= MAX_LEN
    ensures Sum(big, s, i) == (if i + 1 < |s| then Word(big, s[i], s[i + 1]) + Sum(big, s, i + 2)
                               else if i < |s| then s[i] as int else 0)
    ensures 0 <= Sum(big, s, i) && Sum(big, s, 0) < UINT32_RANGE && (i + 1 < |s| ==> Word(big, s[i], s[i + 1]) >= 0)
  {
  }

  /** The folding loop of ip_checksum (). */
  method FoldLoop(sum: nat) returns (r: nat)
    ensures r == Fold(sum)
  {
    r := sum;
    while r / 65536 != 0
      invariant Fold(r) == Fold(sum)
      decreases r
    {
      CarryKeeps(r);
      r := Carry(r);
    }
  }

  // ---------- Storing the checksum in the data it covers ----------

  /** The two bytes of a 16-bit word in memory. */
  function Low(big: bool, x: int): int {
    if big then x / 256 else x % 256
  }

  function High(big: bool, x: int): int {
    if big then x % 256 else x / 256
  }

  /** The sum grows by what is stored in a field that was zero. */
  lemma {:induction false} SumStored(big: bool, s: seq<Byte>, i: nat, off: nat, a: Byte, b: Byte)
    requires i <= off && off + 1 < |s| && (off - i) % 2 == 0 && s[off] == 0 && s[off + 1] == 0
    ensures Sum(big, s[off := a][off + 1 := b], i) == Sum(big, s, i) + Word(big, a, b)
    decreases |s| - i
  {
    var t := s[off := a][off + 1 := b];
    if i < off {
      SumStored(big, s, i + 2, off, a, b);
    } else {
      SumBeyond(big, s, t, i + 2);
    }
  }

  lemma {:induction false} SumBeyond(big: bool, s: seq<Byte>, t: seq<Byte>, i: nat)
    requires |s| == |t| && i <= |s| && s[i..] == t[i..]
    ensures Sum(big, s, i) == Sum(big, t, i)
    decreases |s| - i
  {
    if i < |s| {
      assert s[i] == s[i..][0] && t[i] == t[i..][0];
      if i + 1 < |s| {
        assert s[i + 1] == s[i..][1] && t[i + 1] == t[i..][1];
        assert s[i + 2..] == s[i..][2..] && t[i + 2..] == t[i..][2..];
        SumBeyond(big, s, t, i + 2);
      }
    }
  }

  /** A sum and the complement of its fold fold to all ones. */
  lemma {:induction false} FoldCancels(x: nat)
    ensures Fold(x) <= 65535 && Fold(x + Complement(Fold(x))) == 65535
  {
    var f := Fold(x);
    var y: nat := x + Complement(f);
    assert x == 65535 * (x / 65535) + f % 65535;
    assert f % 65535 == if f == 65535 then 0 else f;
    var k := if f == 65535 then x / 65535 else x / 65535 + 1;
    assert y == 65535 * k + 0;
    SameResidue(0, k);
    assert Fold(y) % 65535 == 0 && Fold(y) != 0;
  }

  /** With the checksum stored in its zeroed field, the checksum of the whole data is zero. */
  lemma {:induction false} StoredChecksum(big: bool, s: seq<Byte>, off: nat, a: Byte, b: Byte)
    requires off + 1 < |s| <= MAX_LEN && off % 2 == 0 && s[off] == 0 && s[off + 1] == 0
    requires Word(big, a, b) == IpSum(big, s)
    ensures IpSum(big, s[off := a][off + 1 := b]) == 0
  {
    SumStored(big, s, 0, off, a, b);
    FoldCancels(Sum(big, s, 0));
  }

  /** The checksum field at offset `off` is cleared, then filled, as build_icmp_reply () does for both headers. */
  method Seal(big: bool, buf: array<Byte>, len: nat, off: nat)
    requires len <= buf.Length && len <= MAX_LEN && off + 1 < len && off % 2 == 0
    modifies buf
    ensures IpSum(big, buf[..len]) == 0
    ensures forall i :: 0 <= i < buf.Length && i != off && i != off + 1 ==> buf[i] == old(buf[i])
  {
    hide Sum, Fold, IpSum;
    buf[off], buf[off + 1] := 0, 0;
    ghost var s: seq<Byte> := buf[..len];
    var r := IpChecksum(big, buf, len);
    var a: Byte, b: Byte := Low(big, r), High(big, r);
    buf[off], buf[off + 1] := a, b;
    assert buf[..len] == s[..off] + [a, b] + s[off + 2..];
    StoredChecksum(big, s, off, a, b);
  }

  // ---------- The odd byte ----------

  /** Section 1 of RFC 1071: an odd last byte is followed by a zero byte. */
  function Padded(s: seq<Byte>): seq<Byte> {
    if |s| % 2 == 0 then s else s + [0]
  }

  lemma {:induction false} PaddedSum(big: bool, s: seq<Byte>, i: nat)
    requires i <= |s| && i % 2 == 0
    ensures Sum(big, Padded(s), i) - Sum(big, s, i)
         == if |s| % 2 == 0 || !big then 0 else 255 * (s[|s| - 1] as int)
    decreases |s| - i
  {
    if i + 1 < |s| {
      PaddedSum(big, s, i + 2);
    }
  }

  /** The sum is that of the padded data, except for an odd number of bytes on a big-endian processor. */
  lemma {:induction false} OddByte(big: bool, s: seq<Byte>)
    ensures Sum(big, s, 0) == Sum(big, Padded(s), 0) <==> |s| % 2 == 0 || !big || s[|s| - 1] == 0
  {
    PaddedSum(big, s, 0);
  }

  // ---------- The sum, byte by byte ----------

  /** What byte `i` of `n` counts for. */
  function Weight(big: bool, n: int, i: int): int {
    if n % 2 == 1 && i == n - 1 then 1 else if (i % 2 == 0) != big then 1 else 256
  }

  /** The sum of the bytes from offset `i` on, each with its weight. */
  function ByteSum(big: bool, s: seq<Byte>, i: nat): int
    requires i <= |s|
    decreases |s| - i
  {
    if i == |s| then 0 else Weight(big, |s|, i) * s[i] + ByteSum(big, s, i + 1)
  }

  lemma {:induction false} SumOfBytes(big: bool, s: seq<Byte>, i: nat)
    requires i <= |s| && i % 2 == 0
    ensures Sum(big, s, i) == ByteSum(big, s, i)
    decreases |s| - i
  {
    if i + 1 < |s| {
      SumOfBytes(big, s, i + 2);
      assert ByteSum(big, s, i + 1) == Weight(big, |s|, i + 1) * s[i + 1] + ByteSum(big, s, i + 2);
    } else if i < |s| {
      assert ByteSum(big, s, i + 1) == 0;
    }
  }

  // ---------- Byte order ----------

  /** The sums on both kinds of processors, where `k` adds up the bytes at odd offsets. */
  lemma {:induction false} SwappedSum(s: seq<Byte>, i: nat) returns (k: nat)
    requires i <= |s| && |s| % 2 == 0 && i % 2 == 0
    ensures Sum(true, s, i) + 65535 * k == 256 * Sum(false, s, i)
    ensures Sum(true, s, i) == 0 <==> Sum(false, s, i) == 0
    decreases |s| - i
  {
    k := 0;
    if i < |s| {
      k := SwappedSum(s, i + 2);
      k := k + s[i + 1];
    }
  }

  lemma {:induction false} Turned(f: int, f': int, m: int)
    requires 0 < f <= 65535 && 0 < f' <= 65535 && f' + 65535 * m == 256 * f
    ensures var y, x := 65535 - f, 65535 - f'; x / 256 == y % 256 && x % 256 == y / 256
  {
    var y, x := 65535 - f, 65535 - f';
    var h, l := y / 256, y % 256;
    assert y == 256 * h + l && 0 <= h < 256;
    var z := 256 * l + h;
    assert x - z == 65535 * (m - 255 + h);
    assert 0 <= z < 65535 && 0 <= x < 65535;
    assert m - 255 + h == 0;
  }

  /** An even number of bytes: the two bytes of the checksum are the same whatever the byte order of the processor. */
  lemma {:induction false} ByteOrder(s: seq<Byte>)
    requires |s| % 2 == 0
    ensures Low(true, IpSum(true, s)) == Low(false, IpSum(false, s))
    ensures High(true, IpSum(true, s)) == High(false, IpSum(false, s))
  {
    hide Sum, Fold;
    var k := SwappedSum(s, 0);
    var b, l := Sum(true, s, 0), Sum(false, s, 0);
    var f', f := Fold(b), Fold(l);
    if l != 0 {
      var q', q := b / 65535 - f' / 65535, l / 65535 - f / 65535;
      assert b == 65535 * q' + f' && l == 65535 * q + f;
      Turned(f, f', q' + k - 256 * q);
    }
  }
}
