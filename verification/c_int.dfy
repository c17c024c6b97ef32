/** The C integer types the logger works with, written out over unbounded
    integers: `size_t` (64 bits, unsigned, wrapping) and `int` (32 bits,
    two's complement), plus the bitwise AND used for option and mask tests. */
module CInt {

  /** 2^64: one more than SIZE_MAX. */
  const SIZE_T_LIMIT: int := 0x1_0000_0000_0000_0000
  const SIZE_MAX: int := SIZE_T_LIMIT - 1
  /** 2^63: the largest power of two a size_t can hold. */
  const SIZE_T_HALF: int := 0x8000_0000_0000_0000

  type SizeT = x: int | 0 <= x < SIZE_T_LIMIT

  const INT_MIN: int := -0x8000_0000
  const INT_LIMIT: int := 0x8000_0000
  /** 2^32: the number of distinct 32-bit patterns. */
  const INT_PATTERNS: int := 0x1_0000_0000

  type Int32 = x: int | INT_MIN <= x < INT_LIMIT

  function Pow2(k: nat): (r: nat)
    ensures r >= 1
  {
    if k == 0 then 1 else 2 * Pow2(k - 1)
  }

  lemma Pow2Values()
    ensures Pow2(32) == INT_PATTERNS
    ensures Pow2(63) == SIZE_T_HALF
    ensures Pow2(64) == SIZE_T_LIMIT
  {
    assert Pow2(2) == 4;
    Pow2Add(2, 2);
    assert Pow2(4) == 16;
    Pow2Add(4, 4);
    assert Pow2(8) == 256;
    Pow2Add(8, 8);
    assert Pow2(16) == 0x1_0000;
    Pow2Add(16, 16);
    assert Pow2(32) == 0x1_0000_0000;
    Pow2Add(32, 31);
    Pow2Add(32, 32);
  }

  lemma {:induction false} Pow2Add(a: nat, b: nat)
    ensures Pow2(a + b) == Pow2(a) * Pow2(b)
    decreases b
  {
    if b > 0 {
      Pow2Add(a, b - 1);
      assert Pow2(a + b) == 2 * Pow2(a + b - 1);
    }
  }

  lemma {:induction false} Pow2Monotone(a: nat, b: nat)
    requires a <= b
    ensures Pow2(a) <= Pow2(b)
    decreases b - a
  {
    if a < b {
      Pow2Monotone(a, b - 1);
    }
  }

  /** `a + b` on size_t: the sum is reduced modulo 2^64. */
  function Add(a: SizeT, b: SizeT): (r: SizeT)
    ensures a + b < SIZE_T_LIMIT ==> r == a + b
    ensures a + b >= SIZE_T_LIMIT ==> r == a + b - SIZE_T_LIMIT
  {
    (a + b) % SIZE_T_LIMIT
  }

  /** `x <<= 1` on size_t: the top bit is lost. */
  function Shl1(x: SizeT): (r: SizeT)
    ensures 2 * x < SIZE_T_LIMIT ==> r == 2 * x
    ensures 2 * x >= SIZE_T_LIMIT ==> r == 2 * x - SIZE_T_LIMIT
  {
    (x * 2) % SIZE_T_LIMIT
  }

  /** An int converted to size_t: the value modulo 2^64, so -1 becomes
      SIZE_MAX. */
  function ToSize(x: Int32): (r: SizeT)
    ensures x >= 0 ==> r == x
    ensures x < 0 ==> r == SIZE_T_LIMIT + x
  {
    x % SIZE_T_LIMIT
  }

  /** The overflow test `s < a || s < b` on `s = a + b` fires exactly when
      the true sum does not fit in a size_t. */
  lemma SumWrapDetected(a: SizeT, b: SizeT)
    ensures (Add(a, b) < a || Add(a, b) < b) <==> a + b >= SIZE_T_LIMIT
  {
  }

  /** A positive multiple of m is at least m. */
  lemma MultipleAtLeast(x: int, m: int, c: int)
    requires m >= 1 && x > 0 && x == m * c
    ensures x >= m
  {
    assert c >= 1;
  }

  /** The factor left over after one `<<= 1` of x == 2^k * c: c itself, or
      c - 2^(63-k) when the top bit falls off. */
  ghost function ShiftedFactor(x: SizeT, k: nat, c: int): int
    requires k < 64
  {
    if 2 * x < SIZE_T_LIMIT then c else c - Pow2(63 - k)
  }

  /** A non-zero x == 2^k * c below 2^64 forces k < 64, and shifting it left
      once gives 2^(k+1) times the shifted factor. This bounds the doubling
      loop of the buffer to 64 rounds. */
  lemma ShiftScales(x: SizeT, k: nat, c: int)
    requires x > 0 && x == Pow2(k) * c
    ensures k < 64
    ensures Shl1(x) == Pow2(k + 1) * ShiftedFactor(x, k, c)
  {
    MultipleAtLeast(x, Pow2(k), c);
    Pow2Values();
    if k >= 64 {
      Pow2Monotone(64, k);
      assert false;
    }
    Pow2Add(k + 1, 63 - k);
    assert Pow2(k + 1) == 2 * Pow2(k);
    WrapScales(x, Pow2(k), Pow2(k + 1), Pow2(63 - k), c);
  }

  /** The arithmetic core of ShiftScales, over plain numbers. */
  lemma WrapScales(x: SizeT, p: int, m: int, h: int, c: int)
    requires x == p * c && m == 2 * p && SIZE_T_LIMIT == m * h
    ensures 2 * x < SIZE_T_LIMIT ==> Shl1(x) == m * c
    ensures 2 * x >= SIZE_T_LIMIT ==> Shl1(x) == m * (c - h)
  {
    assert 2 * x == m * c;
    assert m * c - m * h == m * (c - h);
  }

  /** Two's complement bit pattern of a 32-bit int. */
  function Unsigned(x: Int32): (u: nat)
    ensures u < INT_PATTERNS
    ensures u % INT_PATTERNS == x % INT_PATTERNS
  {
    if x < 0 then x + INT_PATTERNS else x
  }

  /** The 32-bit int a bit pattern stands for. */
  function Signed(u: nat): (x: Int32)
    requires u < INT_PATTERNS
    ensures Unsigned(x) == u
  {
    if u < INT_LIMIT then u else u - INT_PATTERNS
  }

  /** AND of the low n bits of x and y, one bit at a time. */
  function AndBits(x: nat, y: nat, n: nat): (r: nat)
    ensures r < Pow2(n)
    ensures y < Pow2(n) ==> r <= y
  {
    if n == 0 then 0
    else 2 * AndBits(x / 2, y / 2, n - 1) + (if x % 2 == 1 && y % 2 == 1 then 1 else 0)
  }

  /** C's `a & b` on int. */
  function And(a: Int32, b: Int32): Int32
  {
    Signed(AndBits(Unsigned(a), Unsigned(b), 32))
  }

  lemma {:induction false} AndBitsZeroLeft(y: nat, n: nat)
    ensures AndBits(0, y, n) == 0
  {
    if n > 0 {
      AndBitsZeroLeft(y / 2, n - 1);
    }
  }

  lemma {:induction false} AndBitsZeroRight(x: nat, n: nat)
    ensures AndBits(x, 0, n) == 0
  {
    if n > 0 {
      AndBitsZeroRight(x / 2, n - 1);
    }
  }

  /** Zero shares no bit with anything. */
  lemma AndZero(m: Int32)
    ensures And(0, m) == 0
  {
    AndBitsZeroLeft(Unsigned(m), 32);
  }

  /** A bit pattern and the int it encodes agree modulo 8. */
  lemma UnsignedMod8(a: Int32)
    ensures Unsigned(a) % 8 == a % 8
  {
  }

  lemma AndBitsSeven(x: nat)
    ensures AndBits(x, 7, 32) == x % 8
  {
    var x1 := x / 2;
    var x2 := x1 / 2;
    var x3 := x2 / 2;
    AndBitsZeroRight(x3, 29);
    assert AndBits(x2, 1, 30) == x2 % 2;
    assert AndBits(x1, 3, 31) == 2 * (x2 % 2) + x1 % 2;
    var low := 4 * (x2 % 2) + 2 * (x1 % 2) + x % 2;
    assert AndBits(x, 7, 32) == low;
    assert x == 2 * x1 + x % 2 && x1 == 2 * x2 + x1 % 2 && x2 == 2 * x3 + x2 % 2;
    ModEight(x, x3, low);
  }

  lemma ModEight(x: int, q: int, r: int)
    requires x == 8 * q + r && 0 <= r < 8
    ensures x % 8 == r
  {
  }

  /** `x & 7` keeps the three low bits, i.e. the non-negative residue mod 8
      (also for negative x, by two's complement). */
  lemma AndSeven(a: Int32)
    ensures And(a, 7) == a % 8
    ensures 0 <= And(a, 7) < 8
  {
    AndBitsSeven(Unsigned(a));
    UnsignedMod8(a);
  }

  /** `x & 1` keeps the lowest bit. */
  lemma AndOne(a: Int32)
    ensures And(a, 1) == a % 2
  {
    var x := Unsigned(a);
    AndBitsZeroRight(x / 2, 31);
    assert AndBits(x, 1, 32) == x % 2;
    assert x % 2 == a % 2 by {
      assert x == a || x == a + INT_PATTERNS;
      assert INT_PATTERNS == 2 * 0x8000_0000;
    }
  }
}
