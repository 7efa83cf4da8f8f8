/** Bytes, little-endian words and the shift arithmetic the C code relies on. */
module Words {

  type byte = x: int | 0 <= x < 256

  /** A 64-bit value, least significant byte first, as it lies in memory. */
  type Word = w: seq<byte> | |w| == 8 witness [0, 0, 0, 0, 0, 0, 0, 0]

  /** The four bytes of a 32-bit object. */
  type Quad = w: seq<byte> | |w| == 4 witness [0, 0, 0, 0]

  const TWO32: int := 0x1_0000_0000
  const TWO64: int := 0x1_0000_0000_0000_0000

  datatype Option<+T> = None | Some(value: T)

  function Repeat(b: byte, n: nat): (r: seq<byte>)
    ensures |r| == n
  {
    seq(n, _ => b)
  }

  function Zeros(n: nat): (r: seq<byte>)
    ensures |r| == n
  {
    Repeat(0, n)
  }

  /** What a buffer holds after the bytes `fill` were copied to its start. */
  function Overlay(buf: seq<byte>, fill: seq<byte>): (r: seq<byte>)
    ensures |r| == |buf|
    ensures |fill| == |buf| ==> r == fill
  {
    if |fill| <= |buf| then fill + buf[|fill|..] else fill[..|buf|]
  }

  /** Memory after `data` was copied to offset `at`. */
  function Splice(bytes: seq<byte>, at: nat, data: seq<byte>): (r: seq<byte>)
    requires at + |data| <= |bytes|
    ensures |r| == |bytes|
    ensures forall a :: 0 <= a < |bytes| ==> r[a] == if at <= a < at + |data| then data[a - at] else bytes[a]
  {
    bytes[..at] + data + bytes[at + |data|..]
  }

  /** The uint32_t stored in four bytes. */
  function U32(b: seq<byte>): (r: nat)
    requires |b| == 4
    ensures r < TWO32
  {
    var b0: int, b1: int, b2: int, b3: int := b[0], b[1], b[2], b[3];
    b0 + 256 * b1 + 65536 * b2 + 16777216 * b3
  }

  function Pow2(k: nat): (r: nat)
    ensures r > 0
  {
    if k == 0 then 1 else 2 * Pow2(k - 1)
  }

  /** x << s on a uint64_t. */
  function Shl64(x: nat, s: nat): nat {
    x * Pow2(s) % TWO64
  }

  function Shr(x: nat, s: nat): nat {
    DivNonneg(x, Pow2(s));
    x / Pow2(s)
  }

  lemma DivNonneg(a: nat, d: nat)
    requires d > 0
    ensures a / d >= 0
  {
    QuotientSign(a / d, d, a % d);
  }

  lemma QuotientSign(q: int, d: nat, r: nat)
    requires r < d && q * d + r >= 0
    ensures q >= 0
  {
    if q < 0 {
      MulAtLeast(-q, d);
    }
  }

  function BitOr(a: nat, b: nat): nat {
    if a == 0 then b
    else (if a % 2 == 1 || b % 2 == 1 then 1 else 0) + 2 * BitOr(a / 2, b / 2)
  }

  lemma {:induction false} Pow2Adds(j: nat, k: nat)
    ensures Pow2(j + k) == Pow2(j) * Pow2(k)
  {
    if j != 0 {
      Pow2Adds(j - 1, k);
      assert 2 * Pow2(j - 1) * Pow2(k) == 2 * (Pow2(j - 1) * Pow2(k));
    }
  }

  lemma BitOrStep(x: nat, y: nat, e: nat)
    requires e < 2
    ensures BitOr(2 * x, 2 * y + e) == 2 * BitOr(x, y) + e
  {
  }

  lemma Doubled(t: nat, P: nat)
    ensures t * (2 * P) == 2 * (t * P)
  {
  }

  /** Below 2^m the second operand passes through; above, the two are or-ed. */
  lemma {:induction false} BitOrHigh(t: nat, u: nat, i: nat, m: nat)
    requires i < Pow2(m)
    ensures BitOr(t * Pow2(m), u * Pow2(m) + i) == BitOr(t, u) * Pow2(m) + i
  {
    if m == 0 {
      assert i == 0;
    } else {
      var P := Pow2(m - 1);
      Doubled(t, P);
      Doubled(u, P);
      Doubled(BitOr(t, u), P);
      BitOrHigh(t, u, i / 2, m - 1);
      BitOrStep(t * P, u * P + i / 2, i % 2);
      assert t * Pow2(m) == 2 * (t * P);
      assert u * Pow2(m) + i == 2 * (u * P + i / 2) + i % 2;
      assert BitOr(t, u) * Pow2(m) + i == 2 * (BitOr(t, u) * P + i / 2) + i % 2;
    }
  }

  lemma {:induction false} BitOrZero(t: nat)
    ensures BitOr(t, 0) == t
  {
    if t != 0 {
      BitOrZero(t / 2);
    }
  }

  lemma MulAtLeast(x: int, d: nat)
    requires x >= 1
    ensures x * d >= d
  {
    assert x * d == (x - 1) * d + d;
  }

  lemma DivModUnique(a: nat, d: nat, q: nat, r: nat)
    requires r < d && a == q * d + r
    ensures a / d == q && a % d == r
  {
    var x := q - a / d;
    assert x * d == q * d - a / d * d;
    if x >= 1 {
      MulAtLeast(x, d);
    } else if x <= -1 {
      MulAtLeast(-x, d);
    }
  }

  lemma Expand(hi: nat, lo: nat, r: nat, B: nat, K: nat, S: nat)
    ensures ((hi * K + lo) * B + r) * S == hi * (K * (S * B)) + (lo * (S * B) + r * S)
  {
    calc {
      ((hi * K + lo) * B + r) * S;
      (hi * K + lo) * B * S + r * S;
      (hi * K + lo) * (S * B) + r * S;
      hi * K * (S * B) + lo * (S * B) + r * S;
      hi * (K * (S * B)) + lo * (S * B) + r * S;
    }
  }

  lemma ScaledRest(lo: nat, r: nat, B: nat, K: nat, S: nat)
    requires r < B && lo < K && S > 0
    ensures r * S < S * B && lo * (S * B) + r * S < K * (S * B)
  {
    var U := S * B;
    MulAtLeast(S, B - r);
    assert S * (B - r) == U - r * S;
    MulAtLeast(K - lo, U);
    assert (K - lo) * U == K * U - lo * U;
  }

  lemma ScaledSplit(hi: nat, lo: nat, r: nat, B: nat, K: nat, S: nat, U: nat, T: nat)
    requires r < B && lo < K && S > 0 && U == S * B && T == K * U && U > 0 && T > 0
    ensures ((hi * K + lo) * B + r) * S % T / U == lo
  {
    Expand(hi, lo, r, B, K, S);
    ScaledRest(lo, r, B, K, S);
    var rest := lo * U + r * S;
    assert ((hi * K + lo) * B + r) * S == hi * T + rest;
    DivModUnique(((hi * K + lo) * B + r) * S, T, hi, rest);
    DivModUnique(rest, U, lo, r * S);
  }

  lemma ScaledDivMod(a: nat, B: nat, K: nat, S: nat, U: nat, T: nat)
    requires B > 0 && K > 0 && S > 0 && U == S * B && T == K * U && U > 0 && T > 0
    ensures a * S % T / U == a / B % K
  {
    var q, r := a / B, a % B;
    var hi, lo := q / K, q % K;
    assert a == (hi * K + lo) * B + r by { DivModId(a, B); DivModId(q, K); }
    ScaledSplit(hi, lo, r, B, K, S, U, T);
  }

  lemma DivModId(a: nat, d: nat)
    requires d > 0
    ensures a / d * d + a % d == a
  {
  }

  lemma Pow2Of64()
    ensures Pow2(64) == TWO64
  {
    assert Pow2(8) == 256;
    Pow2Adds(8, 8);
    Pow2Adds(16, 16);
    Pow2Adds(32, 32);
  }

  lemma Pow2Splits(b: nat, k: nat)
    requires b + k <= 64
    ensures Pow2(64 - k) == Pow2(64 - b - k) * Pow2(b)
    ensures Pow2(k) * Pow2(64 - k) == TWO64
  {
    Pow2Adds(64 - b - k, b);
    Pow2Adds(k, 64 - k);
    Pow2Of64();
  }

  lemma FieldOf(a: nat, B: nat, K: nat, S: nat, U: nat)
    requires B > 0 && K > 0 && S > 0 && U > 0 && U == S * B && K * U == TWO64
    ensures a * S % TWO64 / U == a / B % K
  {
    ScaledDivMod(a, B, K, S, U, K * U);
  }

  /** The two shifts that extract a bit field: bits b up to b + k of a 64-bit value. */
  lemma ShiftsTakeBits(a: nat, b: nat, k: nat)
    requires b + k <= 64
    ensures Shr(Shl64(a, 64 - b - k), 64 - k) == a / Pow2(b) % Pow2(k)
  {
    Pow2Splits(b, k);
    FieldOf(a, Pow2(b), Pow2(k), Pow2(64 - b - k), Pow2(64 - k));
  }
}
