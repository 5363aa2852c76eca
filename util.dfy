/** Fixed-width integers and the arithmetic helpers of `src/util.rs`. */
module Util {
  type u8 = x: int | 0 <= x < 0x100
  type u16 = x: int | 0 <= x < 0x1_0000
  type u32 = x: int | 0 <= x < 0x1_0000_0000
  type u64 = x: int | 0 <= x < 0x1_0000_0000_0000_0000
  type i8 = x: int | -0x80 <= x < 0x80

  const U32_MAX: u32 := 0xFFFF_FFFF
  const U64_MAX: u64 := 0xFFFF_FFFF_FFFF_FFFF

  /** 2 to the power `n`; `1 << n`. */
  function Pow2(n: nat): (p: nat)
    ensures p >= 1
  {
    if n == 0 then 1 else 2 * Pow2(n - 1)
  }

  /** `x >> n` on an unsigned integer: `n` halvings, each rounding down. */
  function Shr(x: nat, n: nat): (r: nat)
    ensures r <= x
  {
    if n == 0 then x else Shr(x, n - 1) / 2
  }

  /** Products of naturals grow with both factors. */
  lemma MulMonotone(a: nat, b: nat, c: nat, d: nat)
    requires a <= c && b <= d
    ensures a * b <= c * d
  {
    assert a * b <= a * d;
    assert a * d <= c * d;
  }

  /** Writing `x` as `hi * d + lo` with `lo < d` gives its quotient and remainder by `d`. */
  lemma DivModOf(x: nat, hi: nat, lo: nat, d: nat)
    requires lo < d && x == hi * d + lo
    ensures x / d == hi && x % d == lo
  {
    var q := x / d;
    if q > hi {
      MulMonotone(hi + 1, d, q, d);
    } else if q < hi {
      MulMonotone(q + 1, d, hi, d);
    }
  }

  /** `a | b` on naturals, one bit at a time from the least significant end. */
  function BitOr(a: nat, b: nat): nat
    decreases a + b
  {
    if a == 0 then b
    else if b == 0 then a
    else 2 * BitOr(a / 2, b / 2) + (if a % 2 == 1 || b % 2 == 1 then 1 else 0)
  }

  /** `|` does not depend on the order of its operands. */
  lemma {:induction false} BitOrCommutes(a: nat, b: nat)
    ensures BitOr(a, b) == BitOr(b, a)
    decreases a + b
  {
    if a != 0 && b != 0 {
      BitOrCommutes(a / 2, b / 2);
    }
  }

  /**
   * Or-ing a value below `2^k` into a word whose low `k` bits are clear is addition:
   * the two operands occupy disjoint bit fields.
   */
  lemma {:induction false} BitOrDisjoint(a: nat, b: nat, k: nat)
    requires a < Pow2(k)
    ensures BitOr(a, b * Pow2(k)) == a + b * Pow2(k)
    decreases k
  {
    if k > 0 && a != 0 && b != 0 {
      var m := b * Pow2(k - 1);
      assert b * Pow2(k) == 2 * m;
      BitOrDisjoint(a / 2, b, k - 1);
    }
  }

  function Min(a: int, b: int): int { if a <= b then a else b }

  function Max(a: int, b: int): int { if a >= b then a else b }

  /** `p` repeated `n` times. */
  function Fill<P>(p: P, n: nat): (s: seq<P>)
    ensures |s| == n && forall i | 0 <= i < n :: s[i] == p
  {
    seq(n, _ => p)
  }

  /**
   * `div_ceil(a, b)`: the quotient rounded up, i.e. the least `d` with `d * b >= a`.
   * The source asserts `b > 0`.
   */
  function DivCeil(a: nat, b: nat): (d: nat)
    requires b > 0
    ensures a <= d * b < a + b
  {
    var q := a / b;
    if a % b != 0 then q + 1 else q
  }

  /** `round_down_to_multiple(v, m)`: `v - v % m`; a zero multiple panics in the source. */
  function RoundDownToMultiple(v: nat, m: nat): (r: nat)
    requires m > 0
    ensures r == (v / m) * m && r <= v && v - m < r
  {
    v - v % m
  }

  /**
   * `get_mipmap_size(main, level)`: `main >> level`, replaced by 1 when it is 0.
   * A shift by 32 or more overflows a `u32` shift in the source.
   */
  function MipmapSize(main: u32, level: u8): (s: u32)
    requires level < 32
    ensures s == Max(1, Shr(main, level))
  {
    var size := Shr(main, level);
    if size != 0 then size else 1
  }

  /** Mip sizes shrink, and never drop below 1, as the level grows. */
  lemma {:induction false} MipmapSizeNonIncreasing(main: u32, l1: u8, l2: u8)
    requires l1 <= l2 < 32
    ensures 1 <= MipmapSize(main, l2) <= MipmapSize(main, l1)
    decreases l2 - l1
  {
    if l1 < l2 {
      MipmapSizeNonIncreasing(main, l1 + 1, l2);
    }
  }

  /** The sign, exponent and mantissa fields of an IEEE 754 single-precision bit pattern. */
  function SignBit(bits: u32): nat { bits / 0x8000_0000 }

  function ExponentField(bits: u32): nat { bits / 0x80_0000 % 0x100 }

  function MantissaField(bits: u32): nat { bits % 0x80_0000 }

  /**
   * The bit pattern `two_powi(e)` hands to `f32::from_bits`: `((e + 127) as u32) << 23`.
   * The source debug-asserts `-126 <= e`, which keeps the biased exponent positive.
   */
  function TwoPowiBits(e: i8): (bits: u32)
    requires -126 <= e
    ensures 0 < bits < 0x8000_0000
  {
    (e + 127) * 0x80_0000
  }

  /** The pattern is the normal float 2^e: positive, biased exponent e + 127, mantissa 0. */
  lemma TwoPowiBitsFields(e: i8)
    requires -126 <= e
    ensures SignBit(TwoPowiBits(e)) == 0
    ensures ExponentField(TwoPowiBits(e)) == e + 127
    ensures MantissaField(TwoPowiBits(e)) == 0
  {
  }
}
