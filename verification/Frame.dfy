/** The test frames of latmus/net.c: a serial number in hexadecimal, a payload, and a CRC. */
module Frame {
  import opened Arithmetic
  import opened Crc8

  const METADATA_LEN: int := 20
  const DIGITS: int := 16

  datatype Option<T> = None | Some(value: T)

  // ---------- Digits ----------

  /** d_to_x () */
  function DToX(d: bv8): bv8 {
    if d < 10 then d + 0x30 else (d - 10) + 0x61
  }

  /** x_to_d (): arithmetic on characters wraps. */
  function XToD(x: bv8): bv8 {
    if 0x30 <= x <= 0x39 then x - 0x30 else (x - 0x61) + 10
  }

  /** The lower-case hexadecimal digits: "0123456789abcdef". */
  const HEX: seq<bv8> :=
    [0x30, 0x31, 0x32, 0x33, 0x34, 0x35, 0x36, 0x37, 0x38, 0x39, 0x61, 0x62, 0x63, 0x64, 0x65, 0x66]

  /** The digit that parse_input () reads in a character: '0' ... '9' and 'a' ... 'f'. */
  function DigitOf(x: bv8): Option<int> {
    if 0x30 <= x <= 0x39 then Some((x - 0x30) as int)
    else if 0x61 <= x <= 0x66 then Some((x - 0x61) as int + 10)
    else None
  }

  /** Those are the characters that parse_input () takes for digits. */
  lemma {:induction false} HexDigit(x: bv8, d: int)
    ensures DigitOf(x) == Some(d) <==> 0 <= d < 16 && HEX[d] == x
  {
  }

  /** d_to_x () writes them. */
  lemma {:induction false} HexWritten(d: bv8)
    requires d < 16
    ensures 0 <= d as int < 16 && DToX(d) == HEX[d as int]
  {
  }

  lemma {:induction false} HexPair(crc: bv8)
    ensures 0 <= (crc / 16) as int < 16 && DToX(crc / 16) == HEX[(crc / 16) as int]
    ensures 0 <= (crc % 16) as int < 16 && DToX(crc % 16) == HEX[(crc % 16) as int]
  {
    assert crc / 16 < 16 && crc % 16 < 16;
    HexWritten(crc / 16);
    HexWritten(crc % 16);
  }

  /** What x_to_d () makes of a character: a digit, or its distance from 'a' plus ten, modulo 256. */
  function CharValue(x: bv8): bv8 {
    if 0x30 <= x <= 0x39 then x & 0x0f else x + 0xa9
  }

  lemma {:induction false} CharRead(x: bv8)
    ensures XToD(x) == CharValue(x)
  {
  }

  /** The CRC that two digits spell. */
  function CrcRead(high: bv8, low: bv8): bv8 {
    XToD(high) * 16 + XToD(low)
  }

  lemma {:induction false} CrcDigits(crc: bv8)
    ensures CrcRead(DToX(crc / 16), DToX(crc % 16)) == crc
  {
  }

  /** Hexadecimal digit `k` of a number, from the least significant one. */
  function Digit(x: int, k: nat): (r: int)
    ensures 0 <= r < 16
  {
    x / Pow16(k) % 16
  }

  // ---------- Output ----------

  /** `'A' + (serial % 26)` */
  function Letter(serial: int): bv8 {
    (0x41 + serial % 26) as bv8
  }

  /** The sixteen digits of a number, most significant first, after the marker. */
  ghost predicate Spells(s: seq<bv8>, x: int) {
    |s| > DIGITS && forall k :: 0 <= k < DIGITS ==> s[DIGITS - k] == HEX[Digit(x, k)]
  }

  /** The characters of a frame before its CRC: '^', the serial number, letters from 'A' on, '$'. */
  ghost predicate Described(s: seq<bv8>, serial: int) {
    && |s| > METADATA_LEN && s[0] == 0x5e && s[|s| - 3] == 0x24 && Spells(s, serial)
    && (forall i :: DIGITS < i < |s| - 3 ==> s[i] == (0x41 + serial % 26) as bv8)
  }

  /** The last two characters are the digits, high one first, of the bit-serial remainder of the others. */
  ghost predicate Sealed(s: seq<bv8>)
    requires |s| > METADATA_LEN
  {
    var crc := ShiftAll(0xff, AllBits(s[..|s| - 2]));
    0 <= (crc / 16) as int < 16 && 0 <= (crc % 16) as int < 16
    && s[|s| - 2] == HEX[(crc / 16) as int] && s[|s| - 1] == HEX[(crc % 16) as int]
  }

  /** The CRC test of parse_input (). */
  predicate CrcMatches(s: seq<bv8>)
    requires |s| > METADATA_LEN
  {
    Crc(0xff, s[..|s| - 2]) == CrcRead(s[|s| - 2], s[|s| - 1])
  }

  /** snprintf () of the marker and of the serial number, most significant digit first. */
  method WriteSerial(packet: array<bv8>, serial: int)
    requires packet.Length > METADATA_LEN && 0 <= serial < UINT64_RANGE
    modifies packet
    ensures packet[0] == 0x5e && forall k :: 0 <= k < DIGITS ==> packet[DIGITS - k] == HEX[Digit(serial, k)]
  {
    hide Digit;
    packet[0] := 0x5e;
    var k := 0;
    while k < DIGITS
      invariant 0 <= k <= DIGITS && packet[0] == 0x5e
      invariant forall j :: 0 <= j < k ==> packet[DIGITS - j] == HEX[Digit(serial, j)]
    {
      packet[DIGITS - k] := HEX[Digit(serial, k)];
      k := k + 1;
    }
    packet[DIGITS + 1] := 0;
  }

  /** The two digits of the CRC of the other characters. */
  method WriteCrc(packet: array<bv8>)
    requires packet.Length > METADATA_LEN
    modifies packet
    ensures packet[..packet.Length - 2] == old(packet[..packet.Length - 2])
    ensures CrcMatches(packet[..]) && Sealed(packet[..])
  {
    hide Crc, CrcRead, DToX, ShiftAll, AllBits;
    var size := packet.Length;
    var crc := GenerateCrc(packet, size - 2);
    ghost var s := packet[..size - 2];
    packet[size - 1] := DToX(crc % 16);
    packet[size - 2] := DToX(crc / 16);
    CrcDigits(crc);
    TableMatchesBits(0xff, s);
    HexPair(crc);
    assert packet[..][..size - 2] == s;
  }

  /** prepare_output () */
  method PrepareOutput(packet: array<bv8>, serial: int)
    requires packet.Length > METADATA_LEN && 0 <= serial < UINT64_RANGE
    modifies packet
    ensures Described(packet[..], serial) && CrcMatches(packet[..]) && Sealed(packet[..])
  {
    hide Digit, CrcMatches, Sealed;
    var size := packet.Length;
    WriteSerial(packet, serial);
    // the payload: one letter, which depends on the serial number
    forall i | DIGITS < i < size - 3 {
      packet[i] := Letter(serial);
    }
    packet[size - 3] := 0x24;
    ghost var s := packet[..size - 2];
    WriteCrc(packet);
    assert forall i :: 0 <= i < size - 2 ==> packet[i] == packet[..size - 2][i] == s[i];
  }

  // ---------- Input ----------

  /** `r` after `k` multiplications by 16. */
  function Scale(k: nat): int {
    if k == 0 then 1 else Int32(Scale(k - 1) * 16)
  }

  /** The serial number after `k` digits, unless one of them is no digit. */
  function Partial(s: seq<bv8>, k: nat): Option<int>
    requires k <= DIGITS < |s|
  {
    if k == 0 then Some(0) else
      var before, d := Partial(s, k - 1), DigitOf(s[DIGITS - (k - 1)]);
      if before.None? || d.None? then None
      else Some((before.value + Int32(d.value * Scale(k - 1))) % UINT64_RANGE)
  }

  /** The loop of parse_input (). */
  method ParseSerial(packet: array<bv8>) returns (ok: bool, serial: int)
    requires packet.Length > METADATA_LEN
    ensures ok <==> Partial(packet[..], DIGITS).Some?
    ensures ok ==> Partial(packet[..], DIGITS) == Some(serial)
  {
    hide DigitOf, Int32;
    serial := 0;
    var n, p, r := DIGITS, DIGITS, 1;
    while n > 0
      invariant 0 <= n <= DIGITS && p == n && r == Scale(DIGITS - n)
      invariant Partial(packet[..], DIGITS - n) == Some(serial)
    {
      var d := DigitOf(packet[p]);
      if d.None? {
        Missing(packet[..], DIGITS - n + 1, DIGITS);
        return false, serial;
      }
      serial := (serial + Int32(d.value * r)) % UINT64_RANGE;
      n, p, r := n - 1, p - 1, Int32(r * 16);
    }
    ok := true;
  }

  /** parse_input (): the frame is accepted when its CRC matches and its serial number has only digits. */
  method ParseInput(packet: array<bv8>) returns (ok: bool, serial: int)
    requires packet.Length > METADATA_LEN
    ensures ok <==> CrcMatches(packet[..]) && AllDigits(packet[1..DIGITS + 1])
    ensures ok ==> serial == ReadBack(Number(packet[1..DIGITS + 1]))
  {
    hide Crc, CrcRead, Partial, AllDigits, Number;
    var size := packet.Length;
    var crc := CrcRead(packet[size - 2], packet[size - 1]);
    var computed := GenerateCrc(packet, size - 2);
    assert packet[..][..size - 2] == packet[..size - 2];
    if computed != crc {
      return false, 0;
    }
    ok, serial := ParseSerial(packet);
    assert packet[..][1..DIGITS + 1] == packet[1..DIGITS + 1];
    ReadAny(packet[..]);
  }

  lemma {:induction false} Missing(s: seq<bv8>, k: nat, m: nat)
    requires k <= m <= DIGITS < |s| && Partial(s, k).None?
    ensures Partial(s, m).None?
  {
    if k < m {
      Missing(s, k, m - 1);
    }
  }

  // ---------- Round trip ----------

  /** What sixteen digits give back: the products are computed in a 32-bit int, then extended to 64 bits. */
  function ReadBack(serial: int): int {
    var low := serial % 0x1_0000_0000;
    if low < 0x8000_0000 then low else low + UINT64_RANGE - 0x1_0000_0000
  }

  /** The round trip is exact for a serial number in this range, and only then. */
  lemma {:induction false} ReadBackExact(serial: int)
    requires 0 <= serial < UINT64_RANGE
    ensures ReadBack(serial) == serial <==> serial < 0x8000_0000 || serial >= UINT64_RANGE - 0x8000_0000
  {
  }

  lemma {:induction false} Powers()
    ensures Pow16(0) == 1 && Pow16(1) == 0x10 && Pow16(2) == 0x100 && Pow16(3) == 0x1000 && Pow16(4) == 0x1_0000
    ensures Pow16(5) == 0x10_0000 && Pow16(6) == 0x100_0000 && Pow16(7) == 0x1000_0000 && Pow16(8) == 0x1_0000_0000
  {
    assert Pow16(1) == 16 && Pow16(2) == 256 && Pow16(3) == 4096 && Pow16(4) == 65536 && Pow16(5) == 1048576;
    assert Pow16(6) == 16777216 && Pow16(7) == 268435456;
  }

  /** `r` overflows to 0 at the ninth digit and stays there. */
  lemma {:induction false} Scales(k: nat)
    ensures Scale(k) == if k < 8 then Pow16(k) else 0
  {
    Powers();
    hide Pow16;
    if k > 0 {
      Scales(k - 1);
      if k < 8 {
        PowStep(k - 1);
      }
    }
  }

  lemma {:induction false} PowStep(k: nat)
    requires k < 7
    ensures Pow16(k + 1) == 16 * Pow16(k) && Int32(16 * Pow16(k)) == 16 * Pow16(k)
  {
    Powers();
    hide Pow16;
    assert Pow16(k + 1) == 16 * Pow16(k) by { PowNext(k); }
    assert 0 <= 16 * Pow16(k) <= 0x1000_0000;
  }

  lemma {:induction false} PowNext(k: nat)
    ensures Pow16(k + 1) == 16 * Pow16(k)
  {
  }

  /** The digits written for a serial number, read back from the right: below 2^31 nothing overflows yet. */
  lemma {:induction false} ReadDigits(s: seq<bv8>, serial: int, k: nat)
    requires Spells(s, serial) && 0 <= serial && k <= 7
    ensures Partial(s, k) == Some(serial % Pow16(k))
  {
    hide DigitOf, Digit, Int32, Scale, Spells;
    if k == 0 {
      assert Pow16(0) == 1;
    } else {
      hide Pow16;
      ReadDigits(s, serial, k - 1);
      OneDigit(s, serial, k - 1);
      NextDigit(serial, k - 1);
    }
  }

  lemma {:induction false} NextDigit(serial: int, k: nat)
    requires 0 <= serial && k < 7
    ensures (serial % Pow16(k) + Int32(Digit(serial, k) * Scale(k))) % UINT64_RANGE == serial % Pow16(k + 1)
  {
    Scales(k);
    PowNext(k);
    ModSplit(serial, Pow16(k), 16);
    DigitIs(serial, k);
    SmallProduct(Digit(serial, k), k);
    hide Int32, Scale, Digit;
    Powers();
    hide Pow16;
  }

  lemma {:induction false} DigitIs(x: int, k: nat)
    ensures Pow16(k) > 0 && Digit(x, k) == x / Pow16(k) % 16 && 0 <= Digit(x, k) < 16
  {
  }

  lemma {:induction false} OneDigit(s: seq<bv8>, serial: int, k: nat)
    requires Spells(s, serial) && k < DIGITS
    ensures DigitOf(s[DIGITS - k]) == Some(Digit(serial, k)) && 0 <= Digit(serial, k) < 16
  {
    hide DigitOf;
    DigitIs(serial, k);
    hide Digit;
    HexDigit(s[DIGITS - k], Digit(serial, k));
  }

  lemma {:induction false} SmallProduct(d: int, k: nat)
    requires 0 <= d < 16 && k < 7
    ensures Int32(d * Pow16(k)) == d * Pow16(k)
  {
    Powers();
    hide Pow16;
  }

  lemma {:induction false} ReadEight(s: seq<bv8>, serial: int)
    requires Spells(s, serial) && 0 <= serial < UINT64_RANGE
    ensures Partial(s, 8) == Some(ReadBack(serial))
  {
    hide Pow16, DigitOf, Digit, Int32, Spells, ReadBack, Scale;
    OneDigit(s, serial, 7);
    Scales(7);
    ReadDigits(s, serial, 7);
    EighthDigit(serial);
  }

  /** All sixteen digits. */
  lemma {:induction false} ReadAll(s: seq<bv8>, serial: int, k: nat)
    requires Spells(s, serial) && 0 <= serial < UINT64_RANGE && 8 <= k <= DIGITS
    ensures Partial(s, k) == Some(ReadBack(serial))
  {
    hide Pow16, DigitOf, Digit, Int32, Spells, ReadBack, Scale;
    if k == 8 {
      ReadEight(s, serial);
    } else {
      OneDigit(s, serial, k - 1);
      Scales(k - 1);
      ReadAll(s, serial, k - 1);
      NoScale(serial, Digit(serial, k - 1), Scale(k - 1));
    }
  }

  lemma {:induction false} NoScale(serial: int, d: int, r: int)
    requires r == 0
    ensures (ReadBack(serial) + Int32(d * r)) % UINT64_RANGE == ReadBack(serial)
  {
    assert Int32(0) == 0;
    assert 0 <= ReadBack(serial) < UINT64_RANGE;
  }

  // ---------- Any digits ----------

  predicate AllDigits(t: seq<bv8>) {
    forall i :: 0 <= i < |t| ==> t[i] in HEX
  }

  /** The number that digits spell, most significant one first. */
  function Number(t: seq<bv8>): nat {
    if t == [] then 0
    else
      var d := DigitOf(t[|t| - 1]);
      16 * Number(t[..|t| - 1]) + if d.Some? && d.value > 0 then d.value else 0
  }

  lemma {:induction false} KnownDigit(x: bv8)
    ensures x in HEX <==> DigitOf(x).Some?
    ensures DigitOf(x).Some? ==> 0 <= DigitOf(x).value < 16 && HEX[DigitOf(x).value] == x
  {
    if DigitOf(x).Some? {
      HexDigit(x, DigitOf(x).value);
    }
    if x in HEX {
      var d :| 0 <= d < 16 && HEX[d] == x;
      HexDigit(x, d);
    }
  }

  /** One more digit. */
  lemma {:induction false} NumberNext(t: seq<bv8>)
    requires AllDigits(t) && t != []
    ensures AllDigits(t[..|t| - 1]) && DigitOf(t[|t| - 1]).Some?
    ensures var d := DigitOf(t[|t| - 1]).value;
            0 <= d < 16 && HEX[d] == t[|t| - 1] && Number(t) == 16 * Number(t[..|t| - 1]) + d
  {
    hide DigitOf;
    KnownDigit(t[|t| - 1]);
  }

  lemma {:induction false} NumberBound(t: seq<bv8>)
    requires AllDigits(t)
    ensures Number(t) < Pow16(|t|)
    decreases |t|
  {
    hide DigitOf, AllDigits, Number;
    if t == [] {
      assert Number(t) == 0 by { NoNumber(); }
    } else {
      NumberNext(t);
      NumberBound(t[..|t| - 1]);
      assert Pow16(|t|) == 16 * Pow16(|t| - 1);
    }
  }

  lemma {:induction false} NoNumber()
    ensures Number([]) == 0
  {
  }

  lemma {:induction false} NumberDigit(t: seq<bv8>, k: nat)
    requires AllDigits(t) && k < |t|
    ensures HEX[Digit(Number(t), k)] == t[|t| - 1 - k]
    decreases |t|
  {
    hide DigitOf, Digit, AllDigits, Number;
    NumberNext(t);
    DigitShift(Number(t[..|t| - 1]), DigitOf(t[|t| - 1]).value, k);
    if k > 0 {
      NumberDigit(t[..|t| - 1], k - 1);
    }
  }

  lemma {:induction false} DigitShift(y: nat, d: int, k: nat)
    requires 0 <= d < 16
    ensures Digit(16 * y + d, k) == if k == 0 then d else Digit(y, k - 1)
  {
    if k > 0 {
      var p := Pow16(k - 1);
      assert Pow16(k) == 16 * p;
      Quotients(16 * y + d, 16, p);
      assert (16 * y + d) / 16 == y;
    } else {
      assert Pow16(0) == 1;
    }
  }

  /** Dividing twice. */
  lemma {:induction false} Quotients(x: nat, a: int, b: int)
    requires a > 0 && b > 0
    ensures a * b > 0 && x / (a * b) == x / a / b
  {
    var q, r := x / a, x % a;
    var c, d := q / b, q % b;
    Regroup(a, b, c, d);
    Digits(a, b, d, r);
    DivMod(x, a * b, c, r + d * a);
  }

  /** What parse_input () makes of any sixteen characters. */
  lemma {:induction false} ReadAny(s: seq<bv8>)
    requires |s| > METADATA_LEN
    ensures Partial(s, DIGITS).Some? <==> AllDigits(s[1..DIGITS + 1])
    ensures AllDigits(s[1..DIGITS + 1]) ==> Partial(s, DIGITS) == Some(ReadBack(Number(s[1..DIGITS + 1])))
  {
    var t := s[1..DIGITS + 1];
    if AllDigits(t) {
      forall k | 0 <= k < DIGITS ensures s[DIGITS - k] == HEX[Digit(Number(t), k)] {
        NumberDigit(t, k);
        assert t[DIGITS - 1 - k] == s[DIGITS - k];
      }
      NumberBound(t);
      SixteenDigits();
      hide Number, Digit, AllDigits, ReadBack, Partial;
      ReadAll(s, Number(t), DIGITS);
    } else {
      var i :| 0 <= i < DIGITS && t[i] !in HEX;
      KnownDigit(t[i]);
      assert Partial(s, DIGITS - i).None?;
      Missing(s, DIGITS - i, DIGITS);
    }
  }

  lemma {:induction false} SixteenDigits()
    ensures Pow16(16) == UINT64_RANGE
  {
    Powers();
    assert Pow16(8) == UINT32_RANGE;
    assert Pow16(9) == 16 * UINT32_RANGE && Pow16(10) == 256 * UINT32_RANGE;
    assert Pow16(12) == 0x1_0000 * UINT32_RANGE && Pow16(14) == 0x100_0000 * UINT32_RANGE;
  }

  /** The eighth digit brings the sign bit. */
  lemma {:induction false} EighthDigit(serial: int)
    requires 0 <= serial < UINT64_RANGE
    ensures (serial % Pow16(7) + Int32(Digit(serial, 7) * Pow16(7))) % UINT64_RANGE == ReadBack(serial)
  {
    Powers();
    DigitIs(serial, 7);
    hide Pow16, Digit;
    ModSplit(serial, 0x1000_0000, 16);
    var d := Digit(serial, 7);
    assert Int32(d * 0x1000_0000) == if d < 8 then d * 0x1000_0000 else d * 0x1000_0000 - 0x1_0000_0000;
  }

  /** A frame is accepted by the receiver, and gives its serial number back exactly in the range where that is exact. */
  method SendAndReceive(packet: array<bv8>, serial: int) returns (ok: bool, received: int)
    requires packet.Length > METADATA_LEN && 0 <= serial < UINT64_RANGE
    modifies packet
    ensures ok && received == ReadBack(serial)
    ensures received == serial <==> serial < 0x8000_0000 || serial >= UINT64_RANGE - 0x8000_0000
  {
    hide CrcMatches, Partial, Spells, AllDigits, Number, Sealed, ReadBack;
    PrepareOutput(packet, serial);
    assert packet[..][1..DIGITS + 1] == packet[1..DIGITS + 1];
    ReadAny(packet[..]);
    ReadAll(packet[..], serial, DIGITS);
    ReadBackExact(serial);
    ok, received := ParseInput(packet);
  }

  /** The round trip, for any frame that prepare_output () may have written. */
  lemma {:induction false} RoundTrip(s: seq<bv8>, serial: int)
    requires Described(s, serial) && 0 <= serial < UINT64_RANGE
    ensures Partial(s, DIGITS) == Some(ReadBack(serial))
    ensures Partial(s, DIGITS) == Some(serial) <==> serial < 0x8000_0000 || serial >= UINT64_RANGE - 0x8000_0000
  {
    hide Partial, Spells;
    ReadAll(s, serial, DIGITS);
    ReadBackExact(serial);
  }

  /** A frame that is damaged in one byte before its CRC is rejected. */
  lemma {:induction false} DamageDetected(s: seq<bv8>, i: nat, b: bv8)
    requires |s| > METADATA_LEN && CrcMatches(s) && i < |s| - 2 && b != s[i]
    ensures !CrcMatches(s[i := b])
  {
    hide Crc, CrcRead;
    var n := |s| - 2;
    assert s[i := b][..n] == s[..n][i := b];
    OneByteDetected(0xff, s[..n], i, b);
  }

  /** Two characters that x_to_d () reads as the same digit, of which the high one only counts modulo 16. */
  predicate SameDigit(high: bool, x: bv8, y: bv8) {
    if high then CharValue(x) % 16 == CharValue(y) % 16 else CharValue(x) == CharValue(y)
  }

  lemma {:induction false} DigitsRead(h: bv8, l: bv8, b: bv8)
    ensures CrcRead(b, l) == CrcRead(h, l) <==> SameDigit(true, h, b)
    ensures CrcRead(h, b) == CrcRead(h, l) <==> SameDigit(false, l, b)
  {
    CharRead(h);
    CharRead(l);
    CharRead(b);
    hide XToD, CharValue;
    HighDigit(XToD(h), XToD(b), XToD(l));
    LowDigit(XToD(h), XToD(b), XToD(l));
  }

  lemma {:induction false} HighDigit(x: bv8, y: bv8, l: bv8)
    ensures y * 16 + l == x * 16 + l <==> x % 16 == y % 16
  {
  }

  lemma {:induction false} LowDigit(h: bv8, y: bv8, x: bv8)
    ensures h * 16 + y == h * 16 + x <==> x == y
  {
  }

  /**
   * A change of one byte in an accepted frame goes unnoticed by the CRC test exactly when it turns a digit of the CRC
   * into a character that reads the same.
   */
  lemma {:induction false} DamageExactly(s: seq<bv8>, i: nat, b: bv8)
    requires |s| > METADATA_LEN && CrcMatches(s) && i < |s| && b != s[i]
    ensures CrcMatches(s[i := b]) <==> i >= |s| - 2 && SameDigit(i == |s| - 2, s[i], b)
  {
    hide Crc, CrcRead, SameDigit;
    if i < |s| - 2 {
      DamageDetected(s, i, b);
    } else {
      var n := |s| - 2;
      assert s[i := b][..n] == s[..n];
      DigitsRead(s[n], s[n + 1], b);
    }
  }

  /** A last digit 3 may become a 'Z'. */
  lemma {:induction false} DamageUnnoticed(s: seq<bv8>)
    requires |s| > METADATA_LEN && CrcMatches(s) && s[|s| - 1] == 0x33
    ensures CrcMatches(s[|s| - 1 := 0x5a])
  {
    hide CrcMatches;
    DamageExactly(s, |s| - 1, 0x5a);
  }
}
