/** The hash functions of lib/parse_vdso.c, with the widths of a 64-bit processor. */
module ElfHashing {
  import opened Arithmetic

  type Name = seq<Byte>

  // ---------- elf_hash () ----------

  /** `g >> 28`, where `g = h & 0xf0000000` */
  function Top(h: nat): (r: nat)
    ensures r < 16
  {
    h / 0x1000_0000 % 16
  }

  /** Bits 4 to 7, which `h ^= g >> 24` changes. */
  function Nibble(h: nat): (r: nat)
    ensures r < 16
  {
    h / 16 % 16
  }

  /** `a ^ b` on `n` bits. */
  function Xor(n: nat, a: nat, b: nat): (r: nat)
    ensures r < Pow2(n)
  {
    if n == 0 then 0 else 2 * Xor(n - 1, a / 2, b / 2) + (if a % 2 != b % 2 then 1 else 0)
  }

  function Xor4(a: nat, b: nat): (r: nat)
    ensures r < 16
  {
    assert Pow2(2) == 4;
    Xor(4, a, b)
  }

  /** `if (g) h ^= g >> 24`, then `h &= ~g` */
  function Mix(h: nat): int {
    (if Top(h) != 0 then h - 16 * Nibble(h) + 16 * Xor4(Nibble(h), Top(h)) else h) - 0x1000_0000 * Top(h)
  }

  /** The fields of a hash: its upper word, the top digit of its lower one, and the bits that are changed. */
  lemma {:induction false} Parts(h: nat) returns (w: nat, m: nat, r: nat)
    ensures h == UINT32_RANGE * w + 0x1000_0000 * Top(h) + 256 * m + 16 * Nibble(h) + r
    ensures w == h / UINT32_RANGE && m < 0x10_0000 && r < 16
  {
    r := h % 16;
    var a, b := h / 16, h / 256;
    assert a == 16 * b + Nibble(h);
    m := b % 0x10_0000;
    var c := h / 0x1000_0000;
    assert b == 0x10_0000 * c + m;
    w := h / UINT32_RANGE;
    assert c == 16 * w + Top(h);
  }

  lemma {:induction false} MixRange(h: nat)
    ensures Mix(h) >= 0 && Mix(h) / UINT32_RANGE == h / UINT32_RANGE && Mix(h) % UINT32_RANGE < 0x1000_0000
  {
    var w, m, r := Parts(h);
    var n := if Top(h) != 0 then Xor4(Nibble(h), Top(h)) else Nibble(h);
    hide Top, Nibble, Xor4;
    assert Mix(h) == UINT32_RANGE * w + (256 * m + 16 * n + r);
  }

  /** One turn of the loop of elf_hash (): `unsigned long` has 64 bits. */
  function ElfStep(h: nat, c: Byte): nat {
    MixRange((16 * h + c) % UINT64_RANGE);
    Mix((16 * h + c) % UINT64_RANGE)
  }

  function ElfFold(s: Name): nat {
    if s == [] then 0 else ElfStep(ElfFold(s[..|s| - 1]), s[|s| - 1])
  }

  /** elf_hash () */
  method ElfHash(name: Name) returns (h: nat)
    ensures h == ElfFold(name)
  {
    hide ElfStep;
    h := 0;
    var i := 0;
    while i < |name|
      invariant 0 <= i <= |name| && h == ElfFold(name[..i])
    {
      assert name[..i + 1][..i] == name[..i];
      h := ElfStep(h, name[i]);
      i := i + 1;
    }
    assert name[..i] == name;
  }

  // ---------- What a turn does, bit by bit ----------

  lemma {:induction false} XorBit(n: nat, a: nat, b: nat, k: nat)
    requires k < n
    ensures Bit(Xor(n, a, b), k) == (Bit(a, k) != Bit(b, k))
  {
    if k > 0 {
      XorBit(n - 1, a / 2, b / 2, k - 1);
    }
  }

  lemma {:induction false} Powers()
    ensures Pow2(4) == 16 && Pow2(8) == 256 && Pow2(20) == 0x10_0000 && Pow2(28) == 0x1000_0000
    ensures Pow2(32) == UINT32_RANGE
  {
    assert Pow2(2) == 4 && Pow2(6) == 64 && Pow2(10) == 1024 && Pow2(12) == 4096 && Pow2(14) == 16384;
    assert Pow2(16) == 65536 && Pow2(18) == 0x4_0000 && Pow2(22) == 0x40_0000 && Pow2(24) == 0x100_0000;
    assert Pow2(26) == 0x400_0000 && Pow2(30) == 0x4000_0000;
  }

  /** The bits of a number with the fields of a hash. */
  lemma {:induction false} FieldBits(w: nat, t: nat, m: nat, n: nat, r: nat, k: nat)
    requires t < 16 && m < 0x10_0000 && n < 16 && r < 16
    ensures Bit(UINT32_RANGE * w + 0x1000_0000 * t + 256 * m + 16 * n + r, k)
         == if k < 4 then Bit(r, k) else if k < 8 then Bit(n, k - 4) else if k < 28 then Bit(m, k - 8)
            else if k < 32 then Bit(t, k - 28) else Bit(w, k - 32)
  {
    Powers();
    hide Bit, Pow2;
    BitSplit(4, n, r, k);
    BitSplit(8, m, 16 * n + r, k);
    BitSplit(28, t, 256 * m + 16 * n + r, k);
    BitSplit(32, w, 0x1000_0000 * t + 256 * m + 16 * n + r, k);
  }

  /** `g = x & 0xf0000000; x ^= g >> 24; x &= ~g`: bits 28 to 31 flip bits 4 to 7, and are cleared. */
  predicate TurnedBit(x: nat, k: nat) {
    if 28 <= k < 32 then false else if 4 <= k < 8 then Bit(x, k) != Bit(x, k + 24) else Bit(x, k)
  }

  lemma {:induction false} MixBits(x: nat, k: nat)
    ensures Mix(x) >= 0 && Bit(Mix(x), k) == TurnedBit(x, k)
  {
    var w, m, r := Parts(x);
    var n := if Top(x) != 0 then Xor4(Nibble(x), Top(x)) else Nibble(x);
    MixFields(x, w, m, r);
    FieldBits(w, Top(x), m, Nibble(x), r, k);
    FieldBits(w, 0, m, n, r, k);
    if 4 <= k < 8 {
      FieldBits(w, Top(x), m, Nibble(x), r, k + 24);
      XorBit(4, Nibble(x), Top(x), k - 4);
      NoBits(k - 4);
    } else if 28 <= k < 32 {
      NoBits(k - 28);
    }
    hide Bit, Xor, Mix, Top, Nibble;
  }

  lemma {:induction false} MixFields(x: nat, w: nat, m: nat, r: nat)
    requires x == UINT32_RANGE * w + 0x1000_0000 * Top(x) + 256 * m + 16 * Nibble(x) + r
    ensures Mix(x) == UINT32_RANGE * w + 0x1000_0000 * 0 + 256 * m
                      + 16 * (if Top(x) != 0 then Xor4(Nibble(x), Top(x)) else Nibble(x)) + r
  {
    hide Top, Nibble, Xor4;
  }

  /** One turn, on 64 and on 32 bits: the sum is shifted by a digit, and the digit that comes up is folded back. */
  lemma {:induction false} StepBits(h: nat, c: Byte, k: nat)
    ensures Bit(ElfStep(h, c), k) == TurnedBit((16 * h + c) % UINT64_RANGE, k)
    ensures Bit(StdStep(h, c), k) == TurnedBit((16 * h + c) % UINT32_RANGE, k)
  {
    hide Mix, TurnedBit, Bit;
    MixBits((16 * h + c) % UINT64_RANGE, k);
    MixBits((16 * h + c) % UINT32_RANGE, k);
  }

  /** The same step on 32-bit words, as in chapter 5 of the System V gABI, section "Hash Table". */
  function StdStep(h: nat, c: Byte): (r: nat)
    ensures r < 0x1000_0000
  {
    MixRange((16 * h + c) % UINT32_RANGE);
    Mix((16 * h + c) % UINT32_RANGE)
  }

  function StdFold(s: Name): (r: nat)
    ensures r < 0x1000_0000
  {
    if s == [] then 0 else StdStep(StdFold(s[..|s| - 1]), s[|s| - 1])
  }

  // ---------- What is beyond bit 31 ----------

  /** Adding byte `i` carries past bit 31. */
  predicate Carry(s: Name, i: nat)
    requires i < |s|
  {
    16 * StdFold(s[..i]) + s[i] >= UINT32_RANGE
  }

  /** The base-16 number whose digits are the last `k` carries. */
  function Carries(s: Name, k: nat): nat
    decreases k
  {
    if k == 0 || s == [] then 0
    else 16 * Carries(s[..|s| - 1], k - 1) + (if Carry(s, |s| - 1) then 1 else 0)
  }

  lemma {:induction false} CarriesBound(s: Name, k: nat)
    ensures Carries(s, k) < Pow16(k)
    decreases k
  {
    if k > 0 && s != [] {
      CarriesBound(s[..|s| - 1], k - 1);
    }
  }

  /** One more carry further back is one more leading digit. */
  lemma {:induction false} CarriesLead(s: Name, k: nat) returns (b: nat)
    ensures b <= 1 && Carries(s, k + 1) == Carries(s, k) + b * Pow16(k)
    decreases k
  {
    hide Carry;
    b := 0;
    if s != [] {
      if k == 0 {
        b := if Carry(s, |s| - 1) then 1 else 0;
        assert Carries(s[..|s| - 1], 0) == 0;
      } else {
        b := CarriesLead(s[..|s| - 1], k - 1);
        assert 16 * (b * Pow16(k - 1)) == b * Pow16(k);
      }
    }
  }

  lemma {:induction false} Pow16Eight()
    ensures Pow16(8) == UINT32_RANGE && Pow16(7) == 0x1000_0000
  {
    assert Pow16(2) == 0x100 && Pow16(4) == 0x1_0000 && Pow16(6) == 0x100_0000;
  }

  /** The upper word of a hash goes through the mixing untouched, and the lower one does not see it. */
  lemma {:induction false} MixSplit(v: nat, y: nat)
    requires y < UINT32_RANGE
    ensures Mix(UINT32_RANGE * v + y) == UINT32_RANGE * v + Mix(y)
  {
    FieldsBelow(v, y);
    hide Top, Nibble, Xor4;
  }

  lemma {:induction false} FieldsBelow(v: nat, y: nat)
    requires y < UINT32_RANGE
    ensures Top(UINT32_RANGE * v + y) == Top(y) && Nibble(UINT32_RANGE * v + y) == Nibble(y)
  {
    TopBelow(v, y);
    NibbleBelow(v, y);
    hide Top, Nibble;
  }

  lemma {:induction false} TopBelow(v: nat, y: nat)
    ensures Top(UINT32_RANGE * v + y) == Top(y)
  {
    var q := y / 0x1000_0000;
    assert (UINT32_RANGE * v + y) / 0x1000_0000 == 16 * v + q;
    LastDigit(v, q);
  }

  lemma {:induction false} NibbleBelow(v: nat, y: nat)
    ensures Nibble(UINT32_RANGE * v + y) == Nibble(y)
  {
    var q, w := y / 16, 0x100_0000 * v;
    assert (UINT32_RANGE * v + y) / 16 == 16 * w + q;
    LastDigit(w, q);
  }

  lemma {:induction false} LastDigit(w: int, q: int)
    ensures (16 * w + q) % 16 == q % 16
  {
  }

  /** A step shifts the upper word by a digit, which is the carry. */
  lemma {:induction false} StepSplit(u: nat, k: nat, c: Byte)
    requires u < UINT32_RANGE && k < 0x1000_0000
    ensures var carry := if 16 * k + c >= UINT32_RANGE then 1 else 0;
            ElfStep(UINT32_RANGE * u + k, c) == UINT32_RANGE * ((16 * u + carry) % UINT32_RANGE) + StdStep(k, c)
  {
    var carry := if 16 * k + c >= UINT32_RANGE then 1 else 0;
    var y := 16 * k + c - UINT32_RANGE * carry;
    assert y == (16 * k + c) % UINT32_RANGE;
    var x := 16 * u + carry;
    assert 16 * (UINT32_RANGE * u + k) + c == UINT32_RANGE * x + y;
    HighPart(x, y);
    MixSplit(x % UINT32_RANGE, y);
    hide Mix;
  }

  lemma {:induction false} HighPart(x: nat, y: nat)
    requires y < UINT32_RANGE
    ensures (UINT32_RANGE * x + y) % UINT64_RANGE == UINT32_RANGE * (x % UINT32_RANGE) + y
  {
    var q, r := x / UINT32_RANGE, x % UINT32_RANGE;
    assert UINT32_RANGE * x + y == UINT64_RANGE * q + (UINT32_RANGE * r + y);
  }

  /** elf_hash () is the standard hash, and above it the last eight carries: older ones have been shifted out. */
  lemma {:induction false} ElfIsStandardAndCarries(s: Name)
    ensures ElfFold(s) == StdFold(s) + UINT32_RANGE * Carries(s, 8)
    decreases |s|
  {
    hide ElfStep, StdStep, Pow16;
    if s == [] {
      assert Carries(s, 8) == 0;
    } else {
      var p, c := s[..|s| - 1], s[|s| - 1];
      ElfIsStandardAndCarries(p);
      Pow16Eight();
      CarriesBound(p, 8);
      CarriesBound(s, 8);
      var b := CarriesLead(p, 7);
      StepSplit(Carries(p, 8), StdFold(p), c);
      LastEight(Carries(p, 8), Carries(p, 7), b, if Carry(s, |s| - 1) then 1 else 0);
    }
  }

  lemma {:induction false} LastEight(u: nat, v: nat, b: nat, carry: nat)
    requires u == v + b * 0x1000_0000 && 16 * v + carry < UINT32_RANGE
    ensures (16 * u + carry) % UINT32_RANGE == 16 * v + carry
  {
  }

  /** None of the last `k` bytes carries past bit 31. */
  ghost predicate NoCarry(s: Name, k: nat) {
    forall i :: 0 <= i < |s| && |s| - k <= i ==> !Carry(s, i)
  }

  lemma {:induction false} CarriesNone(s: Name, k: nat)
    ensures Carries(s, k) == 0 <==> NoCarry(s, k)
    decreases k
  {
    hide Carry;
    if k > 0 && s != [] {
      var p := s[..|s| - 1];
      CarriesNone(p, k - 1);
      forall i | 0 <= i < |p| ensures Carry(p, i) == Carry(s, i) {
        CarryPrefix(s, i);
      }
    }
  }

  lemma {:induction false} CarryPrefix(s: Name, i: nat)
    requires i < |s| - 1
    ensures Carry(s[..|s| - 1], i) == Carry(s, i)
  {
    assert s[..|s| - 1][..i] == s[..i];
  }

  /** elf_hash () is the standard hash exactly when none of the last eight bytes of the name carries past bit 31. */
  lemma {:induction false} StandardIffNoCarry(s: Name)
    ensures ElfFold(s) == StdFold(s) <==> NoCarry(s, 8)
  {
    ElfIsStandardAndCarries(s);
    CarriesNone(s, 8);
  }

  /** Both hashes select the same one of `n` buckets exactly when `n` divides the carries, placed above bit 31. */
  lemma {:induction false} SameBucketIff(s: Name, n: nat)
    requires n > 0
    ensures ElfFold(s) % n == StdFold(s) % n <==> UINT32_RANGE * Carries(s, 8) % n == 0
  {
    hide ElfFold, StdFold, Carries;
    ElfIsStandardAndCarries(s);
    SameResidueIff(StdFold(s), UINT32_RANGE * Carries(s, 8), n);
  }

  /** With a number of buckets that divides 2^32, as every power of two that fits a word does, no carry matters. */
  lemma {:induction false} PowerOfTwoBuckets(s: Name, n: nat)
    requires n > 0 && UINT32_RANGE % n == 0
    ensures ElfFold(s) % n == StdFold(s) % n
  {
    SameBucketIff(s, n);
    MultipleTimes(UINT32_RANGE, Carries(s, 8), n);
    hide ElfFold, StdFold, Carries;
  }

  /** The low 32 bits of elf_hash () are the standard hash, even when a carry has gone past bit 31. */
  lemma {:induction false} LowBits(s: Name)
    ensures ElfFold(s) % UINT32_RANGE == StdFold(s)
  {
    hide ElfFold, StdFold, Carries;
    ElfIsStandardAndCarries(s);
  }

  /** A name whose last byte carries. */
  const WIDE: Name := [0xff, 0x0f, 0x0f, 0x0f, 0x0f, 0x0f, 0x12]

  lemma {:induction false} WideHash()
    ensures ElfFold(WIDE) == 0x1_0000_0002 && StdFold(WIDE) == 2
  {
    hide ElfStep, StdStep, Mix;
    var s := WIDE;
    assert ElfFold(s[..0]) == 0 && s[..7] == s;
    OneMore(s, 0);
    OneMore(s, 1);
    OneMore(s, 2);
    OneMore(s, 3);
    OneMore(s, 4);
    OneMore(s, 5);
    OneMore(s, 6);
    LowBits(s);
  }

  /** As long as no top digit comes up, a step only shifts a byte in. */
  lemma {:induction false} OneMore(s: Name, i: nat)
    requires i < |s| && 16 * ElfFold(s[..i]) + s[i] < UINT64_RANGE && Top(16 * ElfFold(s[..i]) + s[i]) == 0
    ensures ElfFold(s[..i + 1]) == 16 * ElfFold(s[..i]) + s[i]
  {
    assert s[..i + 1][..i] == s[..i];
    hide ElfStep, Top;
    OneStep(ElfFold(s[..i]), s[i]);
  }

  lemma {:induction false} OneStep(h: nat, c: Byte)
    requires 16 * h + c < UINT64_RANGE && Top(16 * h + c) == 0
    ensures ElfStep(h, c) == 16 * h + c
  {
    hide Top, Nibble, Xor4;
    assert (16 * h + c) % UINT64_RANGE == 16 * h + c;
  }

  // ---------- gnu_hash () ----------

  /** One turn of the loop of gnu_hash (), on 32 bits. */
  function GnuStep(h: nat, c: Byte): nat {
    (h + h * 32 + c) % UINT32_RANGE
  }

  function GnuFold(s: Name): (r: nat)
    ensures r < UINT32_RANGE
  {
    if s == [] then 5381 else GnuStep(GnuFold(s[..|s| - 1]), s[|s| - 1])
  }

  function Pow33(k: nat): (r: nat) {
    if k == 0 then 1 else 33 * Pow33(k - 1)
  }

  /** The number whose base-33 digits, most significant first, are the bytes of the name. */
  function Base33(s: Name): nat {
    if s == [] then 0 else s[0] * Pow33(|s| - 1) + Base33(s[1..])
  }

  /** The GNU hash of a name. */
  function GnuValue(s: Name): (r: nat)
    ensures r < UINT32_RANGE
  {
    (5381 * Pow33(|s|) + Base33(s)) % UINT32_RANGE
  }

  lemma {:induction false} Base33Last(s: Name)
    requires s != []
    ensures Base33(s) == 33 * Base33(s[..|s| - 1]) + s[|s| - 1]
  {
    var t := s[1..];
    if t == [] {
      assert s[..0] == [] && Base33(t) == 0 && Pow33(0) == 1;
    } else {
      Base33Last(t);
      assert s[..|s| - 1][1..] == t[..|t| - 1];
      assert s[0] * Pow33(|s| - 1) == 33 * (s[0] * Pow33(|s| - 2));
    }
  }

  lemma {:induction false} ResidueStep(x: nat, c: Byte)
    ensures GnuStep(x % UINT32_RANGE, c) == (33 * x + c) % UINT32_RANGE
  {
    var q, r := x / UINT32_RANGE, x % UINT32_RANGE;
    WholeTurns(33 * q, 33 * r + c);
    assert 33 * x + c == UINT32_RANGE * (33 * q) + (33 * r + c);
  }

  lemma {:induction false} WholeTurns(k: int, y: int)
    ensures (UINT32_RANGE * k + y) % UINT32_RANGE == y % UINT32_RANGE
  {
    DivMod(UINT32_RANGE * k + y, UINT32_RANGE, k + y / UINT32_RANGE, y % UINT32_RANGE);
  }

  /** The fold is the residue of 5381 * 33^n + s[0] * 33^(n - 1) + ... + s[n - 1]. */
  lemma {:induction false} GnuClosed(s: Name)
    ensures GnuFold(s) == GnuValue(s)
    decreases |s|
  {
    hide GnuStep;
    if s == [] {
      assert Pow33(0) == 1 && Base33(s) == 0;
    } else {
      var t, c := s[..|s| - 1], s[|s| - 1];
      GnuClosed(t);
      Base33Last(s);
      ResidueStep(5381 * Pow33(|t|) + Base33(t), c);
      assert Pow33(|s|) == 33 * Pow33(|t|);
      hide Pow33, Base33;
    }
  }

  /** gnu_hash () */
  method GnuHash(name: Name) returns (h: nat)
    ensures h == GnuValue(name)
  {
    hide GnuStep, GnuValue;
    h := 5381;
    var i := 0;
    while i < |name|
      invariant 0 <= i <= |name| && h == GnuFold(name[..i])
    {
      assert name[..i + 1][..i] == name[..i];
      h := GnuStep(h, name[i]);
      i := i + 1;
    }
    assert name[..i] == name;
    GnuClosed(name);
  }
}
