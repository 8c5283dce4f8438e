/** Machine integers, and division with remainder. */
module Arithmetic {
  const UINT32_RANGE: int := 0x1_0000_0000
  const UINT64_RANGE: int := 0x1_0000_0000_0000_0000

  type Byte = x: int | 0 <= x < 256

  /** `1 << n` */
  function Pow2(n: nat): (r: int)
    ensures r > 0
  {
    if n == 0 then 1 else 2 * Pow2(n - 1)
  }

  /** Bit `k` of a number. */
  predicate Bit(x: nat, k: nat) {
    if k == 0 then x % 2 == 1 else Bit(x / 2, k - 1)
  }

  /** The bits of a number made of a lower part of `j` bits and an upper part. */
  lemma {:induction false} BitSplit(j: nat, a: nat, b: nat, k: nat)
    requires b < Pow2(j)
    ensures a * Pow2(j) + b >= 0 && Bit(a * Pow2(j) + b, k) == if k < j then Bit(b, k) else Bit(a, k - j)
  {
    if j > 0 {
      var y := a * Pow2(j - 1);
      assert a * Pow2(j) == 2 * y;
      assert (2 * y + b) / 2 == y + b / 2 && (2 * y + b) % 2 == b % 2;
      if k > 0 {
        BitSplit(j - 1, a, b / 2, k - 1);
      }
    }
  }

  lemma {:induction false} NoBits(k: nat)
    ensures !Bit(0, k)
  {
    if k > 0 {
      NoBits(k - 1);
    }
  }

  function Pow16(k: nat): (r: int)
    ensures r > 0
  {
    if k == 0 then 1 else 16 * Pow16(k - 1)
  }

  /** Conversion to a 32-bit int. */
  function Int32(x: int): int {
    (x + 0x8000_0000) % UINT32_RANGE - 0x8000_0000
  }

  /** Conversion to a 64-bit long. */
  function Int64(x: int): int {
    (x + 0x8000_0000_0000_0000) % UINT64_RANGE - 0x8000_0000_0000_0000
  }

  lemma {:induction false} Times(a: int, b: int, d: int)
    requires d > 0
    ensures a < b ==> b * d >= a * d + d
    ensures a <= b ==> b * d >= a * d
  {
    assert b * d - a * d == (b - a) * d;
    assert a < b ==> (b - a - 1) * d >= 0;
    assert (b - a) * d == (b - a - 1) * d + d;
  }

  lemma {:induction false} QuotientOf(d: int, q: int, r: int, q': int, r': int)
    requires q * d + r == q' * d + r' && 0 <= r < d && 0 <= r' < d
    ensures q == q' && r == r'
  {
    Times(q, q', d);
    Times(q', q, d);
  }

  lemma {:induction false} DivMod(x: int, d: int, q: int, r: int)
    requires x == q * d + r && 0 <= r < d
    ensures x / d == q && x % d == r
  {
    assert x / d * d == d * (x / d);
    QuotientOf(d, q, r, x / d, x % d);
  }

  lemma {:induction false} Regroup(a: int, b: int, c: int, d: int)
    ensures (c * b + d) * a == c * (a * b) + d * a
  {
    calc {
      (c * b + d) * a;
      c * b * a + d * a;
      { assert c * b * a == c * (a * b); }
      c * (a * b) + d * a;
    }
  }

  /** The residue for a product has one more digit. */
  lemma {:induction false} ModSplit(x: int, a: int, b: int)
    requires a > 0 && b > 0
    ensures a * b > 0 && x % (a * b) == x % a + x / a % b * a
  {
    var q, r := x / a, x % a;
    var c, d := q / b, q % b;
    assert x == q * a + r && q == c * b + d;
    Regroup(a, b, c, d);
    Digits(a, b, d, r);
    DivMod(x, a * b, c, r + d * a);
  }

  lemma {:induction false} Digits(a: int, b: int, d: int, r: int)
    requires a > 0 && 0 <= d < b && 0 <= r < a
    ensures 0 <= r + d * a < a * b
  {
    Times(d, b - 1, a);
    Times(0, d, a);
    assert (b - 1) * a + a == a * b;
  }

  /** Adding `m` keeps the residue exactly when `m` is a multiple of `n`. */
  lemma {:induction false} SameResidueIff(a: int, m: int, n: int)
    requires n > 0
    ensures (a + m) % n == a % n <==> m % n == 0
  {
    var q, r := a / n, a % n;
    var q', r' := m / n, m % n;
    assert a + m == (q + q') * n + (r + r') by {
      assert a == q * n + r && m == q' * n + r';
      assert (q + q') * n == q * n + q' * n;
    }
    if r + r' < n {
      DivMod(a + m, n, q + q', r + r');
    } else {
      assert (q + q' + 1) * n == (q + q') * n + n;
      DivMod(a + m, n, q + q' + 1, r + r' - n);
    }
  }

  lemma {:induction false} Multiple(k: int, n: int)
    requires n > 0
    ensures k * n % n == 0
  {
    DivMod(k * n, n, k, 0);
  }

  lemma {:induction false} MultipleTimes(a: int, u: int, n: int)
    requires n > 0 && a % n == 0
    ensures a * u % n == 0
  {
    var q := a / n;
    assert a == q * n;
    assert a * u == q * u * n by {
      assert q * n * u == q * u * n;
    }
    Multiple(q * u, n);
  }
}
