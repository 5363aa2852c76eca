/**
 * The integer pixel-value kernels of `src/decode/convert.rs`: unpacking of the
 * packed 16-bit pixels, UNORM widening, SNORM normalisation, the XR_BIAS clamp,
 * the integer branches of the packed-float decoders, and the small channel
 * rearrangements used by every decoder.
 *
 * Every `>> k` of the source is a division by `2^k` here. Each kernel is proved
 * equal to the exact rounding oracle `Rescale` on its whole input range.
 */
module Convert {
  import opened Util
  import opened Wrappers

  /** `round(n / d)` with halves rounded up, for naturals. */
  function RoundDiv(n: nat, d: nat): nat
    requires d > 0
  {
    (2 * n + d) / (2 * d)
  }

  /** The nearest value of `0..outMax` to `x * outMax / inMax`: UNORM rescaling. */
  function Rescale(x: nat, inMax: nat, outMax: nat): nat
    requires inMax > 0
  {
    RoundDiv(x * outMax, inMax)
  }

  /** A quotient is determined by the interval its numerator falls in. */
  lemma DivBetween(n: nat, d: nat, q: nat)
    requires d > 0 && q * d <= n < q * d + d
    ensures n / d == q
  {
    var k := n / d;
    if k > q {
      MulMonotone(q + 1, d, k, d);
    } else if k < q {
      MulMonotone(k + 1, d, q, d);
    }
  }

  /** Rescaling keeps both ends of the range: 0 maps to 0 and `inMax` to `outMax`. */
  lemma RescaleEndpoints(inMax: nat, outMax: nat)
    requires inMax > 0
    ensures Rescale(0, inMax, outMax) == 0
    ensures Rescale(inMax, inMax, outMax) == outMax
  {
    assert 2 * (inMax * outMax) + inMax == outMax * (2 * inMax) + inMax;
    DivBetween(2 * (inMax * outMax) + inMax, 2 * inMax, outMax);
    DivBetween(inMax, 2 * inMax, 0);
  }

  /** Integer division does not decrease when the numerator grows. */
  lemma DivMonotone(a: nat, b: nat, d: nat)
    requires d > 0 && a <= b
    ensures a / d <= b / d
  {
    var p, q := a / d, b / d;
    if p > q {
      MulMonotone(q + 1, d, p, d);
    }
  }

  /** Whole multiples of the divisor come out of a quotient: `(d * k + c) / d == k + c / d`. */
  lemma DivSplit(n: nat, d: nat, k: nat, c: nat)
    requires d > 0 && n == d * k + c
    ensures n / d == k + c / d
  {
    var q := c / d;
    assert d * (k + q) == d * k + d * q;
    DivBetween(n, d, k + q);
  }

  /** Rescaling is monotone: it never reorders two values. */
  lemma RescaleMonotone(x: nat, y: nat, inMax: nat, outMax: nat)
    requires inMax > 0 && x <= y
    ensures Rescale(x, inMax, outMax) <= Rescale(y, inMax, outMax)
  {
    MulMonotone(x, outMax, y, outMax);
    DivMonotone(2 * (x * outMax) + inMax, 2 * (y * outMax) + inMax, 2 * inMax);
  }

  // ---------------------------------------------------------------------------
  // UNORM widening. The source debug-asserts that the input fits its bit width.

  /** `n1::n8`: 0 stays 0, 1 becomes `u8::MAX`. */
  function N1ToN8(x: u8): (r: u8)
    requires x <= 1
    ensures r == Rescale(x, 1, 255)
  {
    if x == 0 then 0 else 0xFF
  }

  /** `n1::n16`. */
  function N1ToN16(x: u8): (r: u16)
    requires x <= 1
    ensures r == Rescale(x, 1, 65535)
  {
    if x == 0 then 0 else 0xFFFF
  }

  /** `n2::n8`: `x * 85`. */
  function N2ToN8(x: u8): (r: u8)
    requires x <= 3
    ensures r == Rescale(x, 3, 255)
  {
    x * 85
  }

  /** `n2::n16`: `x * 21845`. */
  function N2ToN16(x: u8): (r: u16)
    requires x <= 3
    ensures r == Rescale(x, 3, 65535)
  {
    x * 21845
  }

  /** `n4::n8`: `x * 17`. */
  function N4ToN8(x: u8): (r: u8)
    requires x <= 15
    ensures r == Rescale(x, 15, 255)
  {
    x * 17
  }

  /** `n4::n16`: `x * 4369`. */
  function N4ToN16(x: u8): (r: u16)
    requires x <= 15
    ensures r == Rescale(x, 15, 65535)
  {
    x * 4369
  }

  lemma N5ToN8Residue(x: nat)
    requires x <= 31
    ensures (14 * x + 31) / 62 == (60 * x + 92) / 0x100
  {
    if x < 3 {
      assert (14 * x + 31) / 62 == 0 == (60 * x + 92) / 0x100;
    } else if x < 7 {
      assert (14 * x + 31) / 62 == 1 == (60 * x + 92) / 0x100;
    } else if x < 12 {
      assert (14 * x + 31) / 62 == 2 == (60 * x + 92) / 0x100;
    } else if x < 16 {
      assert (14 * x + 31) / 62 == 3 == (60 * x + 92) / 0x100;
    } else if x < 20 {
      assert (14 * x + 31) / 62 == 4 == (60 * x + 92) / 0x100;
    } else if x < 25 {
      assert (14 * x + 31) / 62 == 5 == (60 * x + 92) / 0x100;
    } else if x < 29 {
      assert (14 * x + 31) / 62 == 6 == (60 * x + 92) / 0x100;
    } else {
      assert (14 * x + 31) / 62 == 7 == (60 * x + 92) / 0x100;
    }
  }

  /** The constants of `N5ToN8` compute `Rescale(x, 31, 255)`: both are `8 * x` plus a matching remainder. */
  lemma N5ToN8Exact(x: nat)
    requires x <= 31
    ensures (x * 2108 + 92) / 0x100 == Rescale(x, 31, 255)
  {
    DivSplit(2 * (x * 255) + 31, 62, 8 * x, 14 * x + 31);
    DivSplit(x * 2108 + 92, 0x100, 8 * x, 60 * x + 92);
    N5ToN8Residue(x);
  }

  /** `n5::n8`: a multiply-add-shift in 16-bit arithmetic. */
  function N5ToN8(x: u8): (r: u8)
    requires x <= 31
    ensures r == Rescale(x, 31, 255)
  {
    N5ToN8Exact(x);
    assert x * 2108 + 92 < 0x1_0000;
    (x * 2108 + 92) / 0x100
  }

  lemma N5ToN16Residue(x: nat)
    requires x <= 31
    ensures (2 * x + 31) / 62 == (4096 * x) / 0x1_0000
  {
    if x < 16 {
      assert (2 * x + 31) / 62 == 0 == (4096 * x) / 0x1_0000;
    } else {
      assert (2 * x + 31) / 62 == 1 == (4096 * x) / 0x1_0000;
    }
  }

  /** The constants of `N5ToN16` compute `Rescale(x, 31, 65535)`: both are `2114 * x` plus a matching remainder. */
  lemma N5ToN16Exact(x: nat)
    requires x <= 31
    ensures (x * 138547200) / 0x1_0000 == Rescale(x, 31, 65535)
  {
    DivSplit(2 * (x * 65535) + 31, 62, 2114 * x, 2 * x + 31);
    DivSplit(x * 138547200, 0x1_0000, 2114 * x, 4096 * x);
    N5ToN16Residue(x);
  }

  /** `n5::n16`: a multiply-shift in 32-bit arithmetic. */
  function N5ToN16(x: u8): (r: u16)
    requires x <= 31
    ensures r == Rescale(x, 31, 65535)
  {
    N5ToN16Exact(x);
    assert x * 138547200 < 0x1_0000_0000;
    (x * 138547200) / 0x1_0000
  }

  lemma N6ToN8Residue(x: nat)
    requires x <= 63
    ensures (6 * x + 63) / 126 == (12 * x + 132) / 0x100
  {
    if x < 11 {
      assert (6 * x + 63) / 126 == 0 == (12 * x + 132) / 0x100;
    } else if x < 32 {
      assert (6 * x + 63) / 126 == 1 == (12 * x + 132) / 0x100;
    } else if x < 53 {
      assert (6 * x + 63) / 126 == 2 == (12 * x + 132) / 0x100;
    } else {
      assert (6 * x + 63) / 126 == 3 == (12 * x + 132) / 0x100;
    }
  }

  /** The constants of `N6ToN8` compute `Rescale(x, 63, 255)`: both are `4 * x` plus a matching remainder. */
  lemma N6ToN8Exact(x: nat)
    requires x <= 63
    ensures (x * 1036 + 132) / 0x100 == Rescale(x, 63, 255)
  {
    DivSplit(2 * (x * 255) + 63, 126, 4 * x, 6 * x + 63);
    DivSplit(x * 1036 + 132, 0x100, 4 * x, 12 * x + 132);
    N6ToN8Residue(x);
  }

  /** `n6::n8`. */
  function N6ToN8(x: u8): (r: u8)
    requires x <= 63
    ensures r == Rescale(x, 63, 255)
  {
    N6ToN8Exact(x);
    assert x * 1036 + 132 < 0x1_0000;
    (x * 1036 + 132) / 0x100
  }

  lemma N6ToN16Residue(x: nat)
    requires x <= 63
    ensures (30 * x + 63) / 126 == (15616 * x + 30976) / 0x1_0000
  {
    if x < 3 {
      assert (30 * x + 63) / 126 == 0 == (15616 * x + 30976) / 0x1_0000;
    } else if x < 7 {
      assert (30 * x + 63) / 126 == 1 == (15616 * x + 30976) / 0x1_0000;
    } else if x < 11 {
      assert (30 * x + 63) / 126 == 2 == (15616 * x + 30976) / 0x1_0000;
    } else if x < 15 {
      assert (30 * x + 63) / 126 == 3 == (15616 * x + 30976) / 0x1_0000;
    } else if x < 19 {
      assert (30 * x + 63) / 126 == 4 == (15616 * x + 30976) / 0x1_0000;
    } else if x < 24 {
      assert (30 * x + 63) / 126 == 5 == (15616 * x + 30976) / 0x1_0000;
    } else if x < 28 {
      assert (30 * x + 63) / 126 == 6 == (15616 * x + 30976) / 0x1_0000;
    } else if x < 32 {
      assert (30 * x + 63) / 126 == 7 == (15616 * x + 30976) / 0x1_0000;
    } else if x < 36 {
      assert (30 * x + 63) / 126 == 8 == (15616 * x + 30976) / 0x1_0000;
    } else if x < 40 {
      assert (30 * x + 63) / 126 == 9 == (15616 * x + 30976) / 0x1_0000;
    } else if x < 45 {
      assert (30 * x + 63) / 126 == 10 == (15616 * x + 30976) / 0x1_0000;
    } else if x < 49 {
      assert (30 * x + 63) / 126 == 11 == (15616 * x + 30976) / 0x1_0000;
    } else if x < 53 {
      assert (30 * x + 63) / 126 == 12 == (15616 * x + 30976) / 0x1_0000;
    } else if x < 57 {
      assert (30 * x + 63) / 126 == 13 == (15616 * x + 30976) / 0x1_0000;
    } else if x < 61 {
      assert (30 * x + 63) / 126 == 14 == (15616 * x + 30976) / 0x1_0000;
    } else {
      assert (30 * x + 63) / 126 == 15 == (15616 * x + 30976) / 0x1_0000;
    }
  }

  /** The constants of `N6ToN16` compute `Rescale(x, 63, 65535)`: both are `1040 * x` plus a matching remainder. */
  lemma N6ToN16Exact(x: nat)
    requires x <= 63
    ensures (x * 68173056 + 30976) / 0x1_0000 == Rescale(x, 63, 65535)
  {
    DivSplit(2 * (x * 65535) + 63, 126, 1040 * x, 30 * x + 63);
    DivSplit(x * 68173056 + 30976, 0x1_0000, 1040 * x, 15616 * x + 30976);
    N6ToN16Residue(x);
  }

  /** `n6::n16`. */
  function N6ToN16(x: u8): (r: u16)
    requires x <= 63
    ensures r == Rescale(x, 63, 65535)
  {
    assert x * 68173056 + 30976 < 0x1_0000_0000;
    N6ToN16Exact(x);
    (x * 68173056 + 30976) / 0x1_0000
  }

  /** `n8::n16`: `x * 257`. */
  function N8ToN16(x: u8): (r: u16)
    ensures r == Rescale(x, 255, 65535)
  {
    x * 257
  }

  /**
   * For `x = 4 * h + e`, both sides are `h - 1` plus a small remainder quotient, which
   * changes at the same `h` for each `e`.
   */
  lemma N10ToN8Residue(h: nat, e: nat)
    requires 1 <= h <= 255 && e <= 3
    ensures (3069 + 510 * e - 6 * h) / 2046 == (98192 + 16336 * e - 192 * h) / 0x1_0000
  {
    if e == 0 {
      if h <= 170 {
        assert (3069 + 510 * e - 6 * h) / 2046 == 1 == (98192 + 16336 * e - 192 * h) / 0x1_0000;
      } else {
        assert (3069 + 510 * e - 6 * h) / 2046 == 0 == (98192 + 16336 * e - 192 * h) / 0x1_0000;
      }
    } else if e == 3 {
      if h <= 84 {
        assert (3069 + 510 * e - 6 * h) / 2046 == 2 == (98192 + 16336 * e - 192 * h) / 0x1_0000;
      } else {
        assert (3069 + 510 * e - 6 * h) / 2046 == 1 == (98192 + 16336 * e - 192 * h) / 0x1_0000;
      }
    } else {
      assert (3069 + 510 * e - 6 * h) / 2046 == 1 == (98192 + 16336 * e - 192 * h) / 0x1_0000;
    }
  }

  /** The constants of `N10ToN8` compute `Rescale(x, 1023, 255)`. */
  lemma N10ToN8Exact(x: nat)
    requires x <= 1023
    ensures (x * 16336 + 32656) / 0x1_0000 == Rescale(x, 1023, 255)
  {
    if x < 3 {
      assert (x * 16336 + 32656) / 0x1_0000 == 0 == (2 * (x * 255) + 1023) / 2046;
    } else if x == 3 {
      assert (x * 16336 + 32656) / 0x1_0000 == 1 == (2 * (x * 255) + 1023) / 2046;
    } else {
      var h, e := x / 4, x % 4;
      DivSplit(2 * (x * 255) + 1023, 2046, h - 1, 3069 + 510 * e - 6 * h);
      DivSplit(x * 16336 + 32656, 0x1_0000, h - 1, 98192 + 16336 * e - 192 * h);
      N10ToN8Residue(h, e);
    }
  }

  lemma N10ToN16Residue(x: nat)
    requires x <= 1023
    ensures (126 * x + 1023) / 2046 == (4036 * x + 32660) / 0x1_0000
  {
    if x < 9 {
      assert (126 * x + 1023) / 2046 == 0 == (4036 * x + 32660) / 0x1_0000;
    } else if x < 25 {
      assert (126 * x + 1023) / 2046 == 1 == (4036 * x + 32660) / 0x1_0000;
    } else if x < 41 {
      assert (126 * x + 1023) / 2046 == 2 == (4036 * x + 32660) / 0x1_0000;
    } else if x < 57 {
      assert (126 * x + 1023) / 2046 == 3 == (4036 * x + 32660) / 0x1_0000;
    } else if x < 74 {
      assert (126 * x + 1023) / 2046 == 4 == (4036 * x + 32660) / 0x1_0000;
    } else if x < 90 {
      assert (126 * x + 1023) / 2046 == 5 == (4036 * x + 32660) / 0x1_0000;
    } else if x < 106 {
      assert (126 * x + 1023) / 2046 == 6 == (4036 * x + 32660) / 0x1_0000;
    } else if x < 122 {
      assert (126 * x + 1023) / 2046 == 7 == (4036 * x + 32660) / 0x1_0000;
    } else if x < 139 {
      assert (126 * x + 1023) / 2046 == 8 == (4036 * x + 32660) / 0x1_0000;
    } else if x < 155 {
      assert (126 * x + 1023) / 2046 == 9 == (4036 * x + 32660) / 0x1_0000;
    } else if x < 171 {
      assert (126 * x + 1023) / 2046 == 10 == (4036 * x + 32660) / 0x1_0000;
    } else if x < 187 {
      assert (126 * x + 1023) / 2046 == 11 == (4036 * x + 32660) / 0x1_0000;
    } else if x < 203 {
      assert (126 * x + 1023) / 2046 == 12 == (4036 * x + 32660) / 0x1_0000;
    } else if x < 220 {
      assert (126 * x + 1023) / 2046 == 13 == (4036 * x + 32660) / 0x1_0000;
    } else if x < 236 {
      assert (126 * x + 1023) / 2046 == 14 == (4036 * x + 32660) / 0x1_0000;
    } else if x < 252 {
      assert (126 * x + 1023) / 2046 == 15 == (4036 * x + 32660) / 0x1_0000;
    } else if x < 268 {
      assert (126 * x + 1023) / 2046 == 16 == (4036 * x + 32660) / 0x1_0000;
    } else if x < 285 {
      assert (126 * x + 1023) / 2046 == 17 == (4036 * x + 32660) / 0x1_0000;
    } else if x < 301 {
      assert (126 * x + 1023) / 2046 == 18 == (4036 * x + 32660) / 0x1_0000;
    } else if x < 317 {
      assert (126 * x + 1023) / 2046 == 19 == (4036 * x + 32660) / 0x1_0000;
    } else if x < 333 {
      assert (126 * x + 1023) / 2046 == 20 == (4036 * x + 32660) / 0x1_0000;
    } else if x < 350 {
      assert (126 * x + 1023) / 2046 == 21 == (4036 * x + 32660) / 0x1_0000;
    } else if x < 366 {
      assert (126 * x + 1023) / 2046 == 22 == (4036 * x + 32660) / 0x1_0000;
    } else if x < 382 {
      assert (126 * x + 1023) / 2046 == 23 == (4036 * x + 32660) / 0x1_0000;
    } else if x < 398 {
      assert (126 * x + 1023) / 2046 == 24 == (4036 * x + 32660) / 0x1_0000;
    } else if x < 415 {
      assert (126 * x + 1023) / 2046 == 25 == (4036 * x + 32660) / 0x1_0000;
    } else if x < 431 {
      assert (126 * x + 1023) / 2046 == 26 == (4036 * x + 32660) / 0x1_0000;
    } else if x < 447 {
      assert (126 * x + 1023) / 2046 == 27 == (4036 * x + 32660) / 0x1_0000;
    } else if x < 463 {
      assert (126 * x + 1023) / 2046 == 28 == (4036 * x + 32660) / 0x1_0000;
    } else if x < 480 {
      assert (126 * x + 1023) / 2046 == 29 == (4036 * x + 32660) / 0x1_0000;
    } else if x < 496 {
      assert (126 * x + 1023) / 2046 == 30 == (4036 * x + 32660) / 0x1_0000;
    } else if x < 512 {
      assert (126 * x + 1023) / 2046 == 31 == (4036 * x + 32660) / 0x1_0000;
    } else if x < 528 {
      assert (126 * x + 1023) / 2046 == 32 == (4036 * x + 32660) / 0x1_0000;
    } else if x < 544 {
      assert (126 * x + 1023) / 2046 == 33 == (4036 * x + 32660) / 0x1_0000;
    } else if x < 561 {
      assert (126 * x + 1023) / 2046 == 34 == (4036 * x + 32660) / 0x1_0000;
    } else if x < 577 {
      assert (126 * x + 1023) / 2046 == 35 == (4036 * x + 32660) / 0x1_0000;
    } else if x < 593 {
      assert (126 * x + 1023) / 2046 == 36 == (4036 * x + 32660) / 0x1_0000;
    } else if x < 609 {
      assert (126 * x + 1023) / 2046 == 37 == (4036 * x + 32660) / 0x1_0000;
    } else if x < 626 {
      assert (126 * x + 1023) / 2046 == 38 == (4036 * x + 32660) / 0x1_0000;
    } else if x < 642 {
      assert (126 * x + 1023) / 2046 == 39 == (4036 * x + 32660) / 0x1_0000;
    } else if x < 658 {
      assert (126 * x + 1023) / 2046 == 40 == (4036 * x + 32660) / 0x1_0000;
    } else if x < 674 {
      assert (126 * x + 1023) / 2046 == 41 == (4036 * x + 32660) / 0x1_0000;
    } else if x < 691 {
      assert (126 * x + 1023) / 2046 == 42 == (4036 * x + 32660) / 0x1_0000;
    } else if x < 707 {
      assert (126 * x + 1023) / 2046 == 43 == (4036 * x + 32660) / 0x1_0000;
    } else if x < 723 {
      assert (126 * x + 1023) / 2046 == 44 == (4036 * x + 32660) / 0x1_0000;
    } else if x < 739 {
      assert (126 * x + 1023) / 2046 == 45 == (4036 * x + 32660) / 0x1_0000;
    } else if x < 756 {
      assert (126 * x + 1023) / 2046 == 46 == (4036 * x + 32660) / 0x1_0000;
    } else if x < 772 {
      assert (126 * x + 1023) / 2046 == 47 == (4036 * x + 32660) / 0x1_0000;
    } else if x < 788 {
      assert (126 * x + 1023) / 2046 == 48 == (4036 * x + 32660) / 0x1_0000;
    } else if x < 804 {
      assert (126 * x + 1023) / 2046 == 49 == (4036 * x + 32660) / 0x1_0000;
    } else if x < 821 {
      assert (126 * x + 1023) / 2046 == 50 == (4036 * x + 32660) / 0x1_0000;
    } else if x < 837 {
      assert (126 * x + 1023) / 2046 == 51 == (4036 * x + 32660) / 0x1_0000;
    } else if x < 853 {
      assert (126 * x + 1023) / 2046 == 52 == (4036 * x + 32660) / 0x1_0000;
    } else if x < 869 {
      assert (126 * x + 1023) / 2046 == 53 == (4036 * x + 32660) / 0x1_0000;
    } else if x < 885 {
      assert (126 * x + 1023) / 2046 == 54 == (4036 * x + 32660) / 0x1_0000;
    } else if x < 902 {
      assert (126 * x + 1023) / 2046 == 55 == (4036 * x + 32660) / 0x1_0000;
    } else if x < 918 {
      assert (126 * x + 1023) / 2046 == 56 == (4036 * x + 32660) / 0x1_0000;
    } else if x < 934 {
      assert (126 * x + 1023) / 2046 == 57 == (4036 * x + 32660) / 0x1_0000;
    } else if x < 950 {
      assert (126 * x + 1023) / 2046 == 58 == (4036 * x + 32660) / 0x1_0000;
    } else if x < 967 {
      assert (126 * x + 1023) / 2046 == 59 == (4036 * x + 32660) / 0x1_0000;
    } else if x < 983 {
      assert (126 * x + 1023) / 2046 == 60 == (4036 * x + 32660) / 0x1_0000;
    } else if x < 999 {
      assert (126 * x + 1023) / 2046 == 61 == (4036 * x + 32660) / 0x1_0000;
    } else if x < 1015 {
      assert (126 * x + 1023) / 2046 == 62 == (4036 * x + 32660) / 0x1_0000;
    } else {
      assert (126 * x + 1023) / 2046 == 63 == (4036 * x + 32660) / 0x1_0000;
    }
  }

  /** The constants of `N10ToN16` compute `Rescale(x, 1023, 65535)`: both are `64 * x` plus a matching remainder. */
  lemma N10ToN16Exact(x: nat)
    requires x <= 1023
    ensures (x * 4198340 + 32660) / 0x1_0000 == Rescale(x, 1023, 65535)
  {
    DivSplit(2 * (x * 65535) + 1023, 2046, 64 * x, 126 * x + 1023);
    DivSplit(x * 4198340 + 32660, 0x1_0000, 64 * x, 4036 * x + 32660);
    N10ToN16Residue(x);
  }

  /** `n10::n8`. */
  function N10ToN8(x: u16): (r: u8)
    requires x <= 1023
    ensures r == Rescale(x, 1023, 255)
  {
    assert x * 16336 + 32656 < 0x1_0000_0000;
    N10ToN8Exact(x);
    (x * 16336 + 32656) / 0x1_0000
  }

  /** `n10::n16`. */
  function N10ToN16(x: u16): (r: u16)
    requires x <= 1023
    ensures r == Rescale(x, 1023, 65535)
  {
    assert x * 4198340 + 32660 < 0x1_0000_0000;
    N10ToN16Exact(x);
    (x * 4198340 + 32660) / 0x1_0000
  }

  /** `n16::n8`. */
  function N16ToN8(x: u16): (r: u8)
    ensures r == Rescale(x, 65535, 255)
  {
    assert x * 255 + 32895 < 0x1_0000_0000;
    (x * 255 + 32895) / 0x1_0000
  }

  /** Widening 8 bits to 16 and narrowing back loses nothing. */
  lemma N8N16RoundTrip(x: u8)
    ensures N16ToN8(N8ToN16(x)) == x
  {
  }

  // ---------------------------------------------------------------------------
  // SNORM. The raw byte is two's complement; -128 and -127 both mean -1.0.

  /** The two's-complement value of a byte. */
  function AsI8(x: u8): int { if x < 0x80 then x else x - 0x100 }

  /** The two's-complement value of a 16-bit word. */
  function AsI16(x: u16): int { if x < 0x8000 then x else x - 0x1_0000 }

  /**
   * `s8::norm`: `x.wrapping_add(128).saturating_sub(1)`. The result is the signed
   * value, with -128 raised to -127, shifted up by 127, so it lies in `0..254`.
   */
  function S8Norm(x: u8): (r: u8)
    ensures r == Max(AsI8(x), -127) + 127
    ensures r == 0 <==> x == 0x80 || x == 0x81
  {
    var w := (x + 0x80) % 0x100;
    if w == 0 then 0 else w - 1
  }

  lemma S8ToN8Residue(n: nat)
    requires n <= 254
    ensures (2 * n + 254) / 508 == (2 * n + 2) / 0x100
  {
    if n < 127 {
      assert (2 * n + 254) / 508 == 0 == (2 * n + 2) / 0x100;
    } else {
      assert (2 * n + 254) / 508 == 1 == (2 * n + 2) / 0x100;
    }
  }

  /** The constants of `S8ToN8` compute `Rescale(n, 254, 255)`: both are `1 * n` plus a matching remainder. */
  lemma S8ToN8Exact(n: nat)
    requires n <= 254
    ensures (n * 258 + 2) / 0x100 == Rescale(n, 254, 255)
  {
    DivSplit(2 * (n * 255) + 254, 508, 1 * n, 2 * n + 254);
    DivSplit(n * 258 + 2, 0x100, 1 * n, 2 * n + 2);
    S8ToN8Residue(n);
  }

  /** `s8::n8`: the normalised value rescaled from `0..254` to `0..255`. */
  function S8ToN8(x: u8): (r: u8)
    ensures r == Rescale(S8Norm(x), 254, 255)
  {
    var n := S8Norm(x);
    S8ToN8Exact(n);
    assert n * 258 + 2 < 0x1_0000;
    (n * 258 + 2) / 0x100
  }

  lemma S8ToN16Residue(n: nat)
    requires n <= 254
    ensures (6 * n + 254) / 508 == (776 * n + 32520) / 0x1_0000
  {
    if n < 43 {
      assert (6 * n + 254) / 508 == 0 == (776 * n + 32520) / 0x1_0000;
    } else if n < 127 {
      assert (6 * n + 254) / 508 == 1 == (776 * n + 32520) / 0x1_0000;
    } else if n < 212 {
      assert (6 * n + 254) / 508 == 2 == (776 * n + 32520) / 0x1_0000;
    } else {
      assert (6 * n + 254) / 508 == 3 == (776 * n + 32520) / 0x1_0000;
    }
  }

  /** The constants of `S8ToN16` compute `Rescale(n, 254, 65535)`: both are `258 * n` plus a matching remainder. */
  lemma S8ToN16Exact(n: nat)
    requires n <= 254
    ensures (n * 16909064 + 32520) / 0x1_0000 == Rescale(n, 254, 65535)
  {
    DivSplit(2 * (n * 65535) + 254, 508, 258 * n, 6 * n + 254);
    DivSplit(n * 16909064 + 32520, 0x1_0000, 258 * n, 776 * n + 32520);
    S8ToN16Residue(n);
  }

  /** `s8::n16`. */
  function S8ToN16(x: u8): (r: u16)
    ensures r == Rescale(S8Norm(x), 254, 65535)
  {
    var n := S8Norm(x);
    S8ToN16Exact(n);
    assert n * 16909064 + 32520 < 0x1_0000_0000;
    (n * 16909064 + 32520) / 0x1_0000
  }

  /** `s16::norm`: the 16-bit counterpart of `S8Norm`, landing in `0..65534`. */
  function S16Norm(x: u16): (r: u16)
    ensures r == Max(AsI16(x), -32767) + 32767
    ensures r == 0 <==> x == 0x8000 || x == 0x8001
  {
    var w := (x + 0x8000) % 0x1_0000;
    if w == 0 then 0 else w - 1
  }

  /**
   * Both sides of `S16ToN8Exact` for `n = 257 * j + t`, less `j`: either both 0 or both 1.
   */
  lemma S16ToN8Residue(j: nat, t: nat)
    requires j <= 255 && t < 257
    ensures (2 * j + 510 * t + 65534) / 131068 == (258 * j + 65282 * t + 8388354) / 0x100_0000
  {
    if t < 128 || (t == 128 && j < 127) {
      assert (2 * j + 510 * t + 65534) / 131068 == 0 == (258 * j + 65282 * t + 8388354) / 0x100_0000;
    } else {
      assert (2 * j + 510 * t + 65534) / 131068 == 1 == (258 * j + 65282 * t + 8388354) / 0x100_0000;
    }
  }

  /** The constants of `s16::n8` compute `Rescale(n, 65534, 255)`: both are `n / 257` plus a matching remainder. */
  lemma S16ToN8Exact(n: nat)
    requires n <= 65534
    ensures (n * 65282 + 8388354) / 0x100_0000 == Rescale(n, 65534, 255)
  {
    var j, t := n / 257, n % 257;
    DivSplit(2 * (n * 255) + 65534, 131068, j, 2 * j + 510 * t + 65534);
    DivSplit(n * 65282 + 8388354, 0x100_0000, j, 258 * j + 65282 * t + 8388354);
    S16ToN8Residue(j, t);
  }

  /** `s16::n8`. */
  function S16ToN8(x: u16): (r: u8)
    ensures r == Rescale(S16Norm(x), 65534, 255)
  {
    var n := S16Norm(x);
    S16ToN8Exact(n);
    assert n * 65282 + 8388354 < 0x1_0000_0000;
    (n * 65282 + 8388354) / 0x100_0000
  }

  lemma S16ToN16Residue(n: nat)
    requires n <= 65534
    ensures (2 * n + 65534) / 131068 == (2 * n + 2) / 0x1_0000
  {
    if n < 32767 {
      assert (2 * n + 65534) / 131068 == 0 == (2 * n + 2) / 0x1_0000;
    } else {
      assert (2 * n + 65534) / 131068 == 1 == (2 * n + 2) / 0x1_0000;
    }
  }

  /** The constants of `S16ToN16` compute `Rescale(n, 65534, 65535)`: both are `1 * n` plus a matching remainder. */
  lemma S16ToN16Exact(n: nat)
    requires n <= 65534
    ensures (n * 65538 + 2) / 0x1_0000 == Rescale(n, 65534, 65535)
  {
    DivSplit(2 * (n * 65535) + 65534, 131068, 1 * n, 2 * n + 65534);
    DivSplit(n * 65538 + 2, 0x1_0000, 1 * n, 2 * n + 2);
    S16ToN16Residue(n);
  }

  /** `s16::n16`. */
  function S16ToN16(x: u16): (r: u16)
    ensures r == Rescale(S16Norm(x), 65534, 65535)
  {
    var n := S16Norm(x);
    S16ToN16Exact(n);
    assert n * 65538 + 2 < 0x1_0000_0000;
    (n * 65538 + 2) / 0x1_0000
  }

  /** 8-bit SNORM to 8 bits: -1.0 (either encoding) becomes 0, 0 becomes just above half, 1.0 the maximum. */
  lemma S8ToN8Landmarks()
    ensures S8ToN8(0x80) == 0 && S8ToN8(0x81) == 0 && S8ToN8(0) == 128 && S8ToN8(0x7F) == 255
  {
    assert S8Norm(0x80) == 0 && S8Norm(0x81) == 0 && S8Norm(0) == 127 && S8Norm(0x7F) == 254;
  }

  /** 8-bit SNORM to 16 bits: the same landmarks. */
  lemma S8ToN16Landmarks()
    ensures S8ToN16(0x80) == 0 && S8ToN16(0x81) == 0 && S8ToN16(0) == 32768 && S8ToN16(0x7F) == 65535
  {
    assert S8Norm(0x80) == 0 && S8Norm(0x81) == 0 && S8Norm(0) == 127 && S8Norm(0x7F) == 254;
  }

  /** 16-bit SNORM: the same landmarks. */
  lemma S16Landmarks()
    ensures S16ToN8(0x8000) == 0 && S16ToN8(0x8001) == 0 && S16ToN8(0) == 128 && S16ToN8(0x7FFF) == 255
    ensures S16ToN16(0x8000) == 0 && S16ToN16(0x8001) == 0 && S16ToN16(0) == 32768
    ensures S16ToN16(0x7FFF) == 65535
  {
    assert S16Norm(0x8000) == 0 && S16Norm(0x8001) == 0 && S16Norm(0) == 32767 && S16Norm(0x7FFF) == 65534;
  }

  // ---------------------------------------------------------------------------
  // 10-bit XR_BIAS: 2.8 fixed point biased by 0x180 and scaled by 1/510.

  /**
   * `x as i16 - 0x180`, then clamped to `0..510`. The subtraction wraps around in
   * 16 bits as a release build does (only inputs `0x8000..0x817F` reach the wrap).
   * Read as an unsigned word, the result is `x - 0x180` inside the bias window, 0
   * below it and 510 above it; the words from 0x8000 on are negative except the
   * 384 that wrap.
   */
  function Xr10Unbias(x: u16): (c: nat)
    ensures 0x180 <= x <= 0x37E ==> c == x - 0x180
    ensures (x < 0x180 || 0x8180 <= x) ==> c == 0
    ensures 0x37E < x < 0x8180 ==> c == 510
  {
    var d := AsI16(x) - 0x180;
    var w := if d < -0x8000 then d + 0x1_0000 else d;
    if w < 0 then 0 else if w > 510 then 510 else w
  }

  /** `xr10::n8`: `(c + 1) >> 1`, the nearest byte to `c * 255 / 510`. */
  function Xr10ToN8(x: u16): (r: u8)
    ensures r == Rescale(Xr10Unbias(x), 510, 255)
  {
    (Xr10Unbias(x) + 1) / 2
  }

  /**
   * The constants of `xr10::n16` compute `Rescale(c, 510, 65535)`: for `c = 2 * h + e`
   * both are `257 * h` plus `129 * e`.
   */
  lemma Xr10ToN16Exact(c: nat)
    ensures (c * 8421376 + 65535) / 0x1_0000 == Rescale(c, 510, 65535)
  {
    var h, e := c / 2, c % 2;
    DivSplit(2 * (c * 65535) + 510, 1020, 257 * h, 131070 * e + 510);
    DivSplit(c * 8421376 + 65535, 0x1_0000, 257 * h, 8421376 * e + 65535);
    if e == 0 {
      assert (131070 * e + 510) / 1020 == 0 == (8421376 * e + 65535) / 0x1_0000;
    } else {
      assert (131070 * e + 510) / 1020 == 129 == (8421376 * e + 65535) / 0x1_0000;
    }
  }

  /** `xr10::n16`. */
  function Xr10ToN16(x: u16): (r: u16)
    ensures r == Rescale(Xr10Unbias(x), 510, 65535)
  {
    var c := Xr10Unbias(x);
    Xr10ToN16Exact(c);
    assert c * 8421376 + 65535 < 0x1_0000_0000;
    (c * 8421376 + 65535) / 0x1_0000
  }

  /** XR_BIAS saturates: everything at or below the bias is black, everything from the top of the window on is white. */
  lemma Xr10Saturation(x: u16)
    ensures x <= 0x180 ==> Xr10ToN8(x) == 0 && Xr10ToN16(x) == 0
    ensures 0x37E <= x <= 0x7FFF ==> Xr10ToN8(x) == 255 && Xr10ToN16(x) == 65535
  {
    RescaleEndpoints(510, 255);
    RescaleEndpoints(510, 65535);
  }

  // ---------------------------------------------------------------------------
  // Packed floats without sign bit: 5-bit exponent, 6-bit (fp11) or 5-bit (fp10)
  // mantissa. `None` stands for the branches computed with `f32` arithmetic.

  function Fp11Exponent(x: u16): nat { x / 0x40 % 0x20 }

  function Fp11Mantissa(x: u16): nat { x % 0x40 }

  function Fp10Exponent(x: u16): nat { x / 0x20 % 0x20 }

  function Fp10Mantissa(x: u16): nat { x % 0x20 }

  /** `fp11::n8`: infinity is white, NaN is black; every finite value takes the float path. */
  function Fp11ToN8(x: u16): (r: Option<u8>)
    ensures r.Some? <==> Fp11Exponent(x) == 31
    ensures r == Some(255) <==> Fp11Exponent(x) == 31 && Fp11Mantissa(x) == 0
    ensures r == Some(0) <==> Fp11Exponent(x) == 31 && Fp11Mantissa(x) != 0
  {
    var exp := Fp11Exponent(x);
    var mant := Fp11Mantissa(x);
    if exp != 31 then None
    else if mant == 0 then Some(0xFF)
    else Some(0)
  }

  /**
   * `fp11::n16`: denormals `mant * 2^-20` are rounded in integers as `(mant + 7) >> 4`,
   * infinity is white, NaN is black; normal values take the float path.
   */
  function Fp11ToN16(x: u16): (r: Option<u16>)
    ensures r.Some? <==> Fp11Exponent(x) == 0 || Fp11Exponent(x) == 31
    ensures Fp11Exponent(x) == 0 ==> r == Some(RoundDiv(Fp11Mantissa(x) * 65535, 0x10_0000))
    ensures Fp11Exponent(x) == 31 ==> r == Some(if Fp11Mantissa(x) == 0 then 0xFFFF else 0)
  {
    var exp := Fp11Exponent(x);
    var mant := Fp11Mantissa(x);
    if exp == 0 then Some((mant + 7) / 0x10)
    else if exp != 31 then None
    else if mant == 0 then Some(0xFFFF)
    else Some(0)
  }

  /** `fp10::n8`. */
  function Fp10ToN8(x: u16): (r: Option<u8>)
    ensures r.Some? <==> Fp10Exponent(x) == 31
    ensures r == Some(255) <==> Fp10Exponent(x) == 31 && Fp10Mantissa(x) == 0
    ensures r == Some(0) <==> Fp10Exponent(x) == 31 && Fp10Mantissa(x) != 0
  {
    var exp := Fp10Exponent(x);
    var mant := Fp10Mantissa(x);
    if exp != 31 then None
    else if mant == 0 then Some(0xFF)
    else Some(0)
  }

  /** `fp10::n16`: denormals `mant * 2^-19` are rounded as `(mant + 3) >> 3`. */
  function Fp10ToN16(x: u16): (r: Option<u16>)
    ensures r.Some? <==> Fp10Exponent(x) == 0 || Fp10Exponent(x) == 31
    ensures Fp10Exponent(x) == 0 ==> r == Some(RoundDiv(Fp10Mantissa(x) * 65535, 0x8_0000))
    ensures Fp10Exponent(x) == 31 ==> r == Some(if Fp10Mantissa(x) == 0 then 0xFFFF else 0)
  {
    var exp := Fp10Exponent(x);
    var mant := Fp10Mantissa(x);
    if exp == 0 then Some((mant + 3) / 8)
    else if exp != 31 then None
    else if mant == 0 then Some(0xFFFF)
    else Some(0)
  }

  /** The denormal results are tiny: no denormal reaches 5 out of 65535. */
  lemma DenormalsAreSmall(x: u16)
    ensures Fp11Exponent(x) == 0 ==> Fp11ToN16(x).value <= 4
    ensures Fp10Exponent(x) == 0 ==> Fp10ToN16(x).value <= 4
  {
  }

  // ---------------------------------------------------------------------------
  // Packed 16-bit pixels.

  /** A 5-6-5 pixel: three 16-bit fields, each holding one channel. */
  datatype B5G6R5 = B5G6R5(r5: u16, g6: u16, b5: u16)
  {
    predicate Valid() { r5 <= 31 && g6 <= 63 && b5 <= 31 }
  }

  /** A 5-5-5-1 pixel. */
  datatype B5G5R5A1 = B5G5R5A1(r5: u16, g5: u16, b5: u16, a1: u16)
  {
    predicate Valid() { r5 <= 31 && g5 <= 31 && b5 <= 31 && a1 <= 1 }
  }

  /**
   * `B5G6R5::from_u16`: blue from bits 0-4, green from bits 5-10, red from bits
   * 11-15 (`(u >> k) & m` is `u / 2^k % (m + 1)` for a mask `m` of low ones).
   * The three fields partition the word.
   */
  function B5G6R5FromU16(u: u16): (c: B5G6R5)
    ensures c.Valid()
    ensures c.r5 * 0x800 + c.g6 * 0x20 + c.b5 == u
  {
    assert u == u / 0x20 * 0x20 + u % 0x20;
    assert u / 0x20 == u / 0x800 * 0x40 + u / 0x20 % 0x40 && u / 0x800 < 0x20;
    B5G6R5(u / 0x800 % 0x20, u / 0x20 % 0x40, u % 0x20)
  }

  /** `B5G5R5A1::from_u16`: blue from bits 0-4, green 5-9, red 10-14, alpha bit 15. */
  function B5G5R5A1FromU16(u: u16): (c: B5G5R5A1)
    ensures c.Valid()
    ensures c.a1 * 0x8000 + c.r5 * 0x400 + c.g5 * 0x20 + c.b5 == u
  {
    assert u == u / 0x20 * 0x20 + u % 0x20;
    assert u / 0x20 == u / 0x400 * 0x20 + u / 0x20 % 0x20;
    assert u / 0x400 == u / 0x8000 * 0x20 + u / 0x400 % 0x20 && u / 0x8000 < 2;
    B5G5R5A1(u / 0x400 % 0x20, u / 0x20 % 0x20, u % 0x20, u / 0x8000 % 2)
  }

  /** `B5G6R5::to_n8`: each field widened to 8 bits, in RGB order. */
  function B5G6R5ToN8(c: B5G6R5): (rgb: seq<u8>)
    requires c.Valid()
    ensures rgb == [Rescale(c.r5, 31, 255), Rescale(c.g6, 63, 255), Rescale(c.b5, 31, 255)]
  {
    [N5ToN8(c.r5), N6ToN8(c.g6), N5ToN8(c.b5)]
  }

  /** `B5G6R5::to_n16`. */
  function B5G6R5ToN16(c: B5G6R5): (rgb: seq<u16>)
    requires c.Valid()
    ensures rgb == [Rescale(c.r5, 31, 65535), Rescale(c.g6, 63, 65535), Rescale(c.b5, 31, 65535)]
  {
    [N5ToN16(c.r5), N6ToN16(c.g6), N5ToN16(c.b5)]
  }

  /** `B5G5R5A1::to_n8`: RGBA order. */
  function B5G5R5A1ToN8(c: B5G5R5A1): (rgba: seq<u8>)
    requires c.Valid()
    ensures rgba == [Rescale(c.r5, 31, 255), Rescale(c.g5, 31, 255),
                     Rescale(c.b5, 31, 255), Rescale(c.a1, 1, 255)]
  {
    [N5ToN8(c.r5), N5ToN8(c.g5), N5ToN8(c.b5), N1ToN8(c.a1)]
  }

  /** `B5G5R5A1::to_n16`. */
  function B5G5R5A1ToN16(c: B5G5R5A1): (rgba: seq<u16>)
    requires c.Valid()
    ensures rgba == [Rescale(c.r5, 31, 65535), Rescale(c.g5, 31, 65535),
                     Rescale(c.b5, 31, 65535), Rescale(c.a1, 1, 65535)]
  {
    [N5ToN16(c.r5), N5ToN16(c.g5), N5ToN16(c.b5), N1ToN16(c.a1)]
  }

  lemma OneThird5Residue(s: nat)
    requires s <= 93
    ensures (138 * s + 93) / 186 == (95 * s + 61) / 0x80
  {
    if s < 1 {
      assert (138 * s + 93) / 186 == 0 == (95 * s + 61) / 0x80;
    } else if s < 3 {
      assert (138 * s + 93) / 186 == 1 == (95 * s + 61) / 0x80;
    } else if s < 4 {
      assert (138 * s + 93) / 186 == 2 == (95 * s + 61) / 0x80;
    } else if s < 5 {
      assert (138 * s + 93) / 186 == 3 == (95 * s + 61) / 0x80;
    } else if s < 7 {
      assert (138 * s + 93) / 186 == 4 == (95 * s + 61) / 0x80;
    } else if s < 8 {
      assert (138 * s + 93) / 186 == 5 == (95 * s + 61) / 0x80;
    } else if s < 9 {
      assert (138 * s + 93) / 186 == 6 == (95 * s + 61) / 0x80;
    } else if s < 11 {
      assert (138 * s + 93) / 186 == 7 == (95 * s + 61) / 0x80;
    } else if s < 12 {
      assert (138 * s + 93) / 186 == 8 == (95 * s + 61) / 0x80;
    } else if s < 13 {
      assert (138 * s + 93) / 186 == 9 == (95 * s + 61) / 0x80;
    } else if s < 15 {
      assert (138 * s + 93) / 186 == 10 == (95 * s + 61) / 0x80;
    } else if s < 16 {
      assert (138 * s + 93) / 186 == 11 == (95 * s + 61) / 0x80;
    } else if s < 17 {
      assert (138 * s + 93) / 186 == 12 == (95 * s + 61) / 0x80;
    } else if s < 19 {
      assert (138 * s + 93) / 186 == 13 == (95 * s + 61) / 0x80;
    } else if s < 20 {
      assert (138 * s + 93) / 186 == 14 == (95 * s + 61) / 0x80;
    } else if s < 21 {
      assert (138 * s + 93) / 186 == 15 == (95 * s + 61) / 0x80;
    } else if s < 23 {
      assert (138 * s + 93) / 186 == 16 == (95 * s + 61) / 0x80;
    } else if s < 24 {
      assert (138 * s + 93) / 186 == 17 == (95 * s + 61) / 0x80;
    } else if s < 25 {
      assert (138 * s + 93) / 186 == 18 == (95 * s + 61) / 0x80;
    } else if s < 27 {
      assert (138 * s + 93) / 186 == 19 == (95 * s + 61) / 0x80;
    } else if s < 28 {
      assert (138 * s + 93) / 186 == 20 == (95 * s + 61) / 0x80;
    } else if s < 29 {
      assert (138 * s + 93) / 186 == 21 == (95 * s + 61) / 0x80;
    } else if s < 31 {
      assert (138 * s + 93) / 186 == 22 == (95 * s + 61) / 0x80;
    } else if s < 32 {
      assert (138 * s + 93) / 186 == 23 == (95 * s + 61) / 0x80;
    } else if s < 34 {
      assert (138 * s + 93) / 186 == 24 == (95 * s + 61) / 0x80;
    } else if s < 35 {
      assert (138 * s + 93) / 186 == 25 == (95 * s + 61) / 0x80;
    } else if s < 36 {
      assert (138 * s + 93) / 186 == 26 == (95 * s + 61) / 0x80;
    } else if s < 38 {
      assert (138 * s + 93) / 186 == 27 == (95 * s + 61) / 0x80;
    } else if s < 39 {
      assert (138 * s + 93) / 186 == 28 == (95 * s + 61) / 0x80;
    } else if s < 40 {
      assert (138 * s + 93) / 186 == 29 == (95 * s + 61) / 0x80;
    } else if s < 42 {
      assert (138 * s + 93) / 186 == 30 == (95 * s + 61) / 0x80;
    } else if s < 43 {
      assert (138 * s + 93) / 186 == 31 == (95 * s + 61) / 0x80;
    } else if s < 44 {
      assert (138 * s + 93) / 186 == 32 == (95 * s + 61) / 0x80;
    } else if s < 46 {
      assert (138 * s + 93) / 186 == 33 == (95 * s + 61) / 0x80;
    } else if s < 47 {
      assert (138 * s + 93) / 186 == 34 == (95 * s + 61) / 0x80;
    } else if s < 48 {
      assert (138 * s + 93) / 186 == 35 == (95 * s + 61) / 0x80;
    } else if s < 50 {
      assert (138 * s + 93) / 186 == 36 == (95 * s + 61) / 0x80;
    } else if s < 51 {
      assert (138 * s + 93) / 186 == 37 == (95 * s + 61) / 0x80;
    } else if s < 52 {
      assert (138 * s + 93) / 186 == 38 == (95 * s + 61) / 0x80;
    } else if s < 54 {
      assert (138 * s + 93) / 186 == 39 == (95 * s + 61) / 0x80;
    } else if s < 55 {
      assert (138 * s + 93) / 186 == 40 == (95 * s + 61) / 0x80;
    } else if s < 56 {
      assert (138 * s + 93) / 186 == 41 == (95 * s + 61) / 0x80;
    } else if s < 58 {
      assert (138 * s + 93) / 186 == 42 == (95 * s + 61) / 0x80;
    } else if s < 59 {
      assert (138 * s + 93) / 186 == 43 == (95 * s + 61) / 0x80;
    } else if s < 60 {
      assert (138 * s + 93) / 186 == 44 == (95 * s + 61) / 0x80;
    } else if s < 62 {
      assert (138 * s + 93) / 186 == 45 == (95 * s + 61) / 0x80;
    } else if s < 63 {
      assert (138 * s + 93) / 186 == 46 == (95 * s + 61) / 0x80;
    } else if s < 65 {
      assert (138 * s + 93) / 186 == 47 == (95 * s + 61) / 0x80;
    } else if s < 66 {
      assert (138 * s + 93) / 186 == 48 == (95 * s + 61) / 0x80;
    } else if s < 67 {
      assert (138 * s + 93) / 186 == 49 == (95 * s + 61) / 0x80;
    } else if s < 69 {
      assert (138 * s + 93) / 186 == 50 == (95 * s + 61) / 0x80;
    } else if s < 70 {
      assert (138 * s + 93) / 186 == 51 == (95 * s + 61) / 0x80;
    } else if s < 71 {
      assert (138 * s + 93) / 186 == 52 == (95 * s + 61) / 0x80;
    } else if s < 73 {
      assert (138 * s + 93) / 186 == 53 == (95 * s + 61) / 0x80;
    } else if s < 74 {
      assert (138 * s + 93) / 186 == 54 == (95 * s + 61) / 0x80;
    } else if s < 75 {
      assert (138 * s + 93) / 186 == 55 == (95 * s + 61) / 0x80;
    } else if s < 77 {
      assert (138 * s + 93) / 186 == 56 == (95 * s + 61) / 0x80;
    } else if s < 78 {
      assert (138 * s + 93) / 186 == 57 == (95 * s + 61) / 0x80;
    } else if s < 79 {
      assert (138 * s + 93) / 186 == 58 == (95 * s + 61) / 0x80;
    } else if s < 81 {
      assert (138 * s + 93) / 186 == 59 == (95 * s + 61) / 0x80;
    } else if s < 82 {
      assert (138 * s + 93) / 186 == 60 == (95 * s + 61) / 0x80;
    } else if s < 83 {
      assert (138 * s + 93) / 186 == 61 == (95 * s + 61) / 0x80;
    } else if s < 85 {
      assert (138 * s + 93) / 186 == 62 == (95 * s + 61) / 0x80;
    } else if s < 86 {
      assert (138 * s + 93) / 186 == 63 == (95 * s + 61) / 0x80;
    } else if s < 87 {
      assert (138 * s + 93) / 186 == 64 == (95 * s + 61) / 0x80;
    } else if s < 89 {
      assert (138 * s + 93) / 186 == 65 == (95 * s + 61) / 0x80;
    } else if s < 90 {
      assert (138 * s + 93) / 186 == 66 == (95 * s + 61) / 0x80;
    } else if s < 91 {
      assert (138 * s + 93) / 186 == 67 == (95 * s + 61) / 0x80;
    } else if s < 93 {
      assert (138 * s + 93) / 186 == 68 == (95 * s + 61) / 0x80;
    } else {
      assert (138 * s + 93) / 186 == 69 == (95 * s + 61) / 0x80;
    }
  }

  /** The constants of `OneThird5` compute `Rescale(s, 93, 255)`: both are `2 * s` plus a matching remainder. */
  lemma OneThird5Exact(s: nat)
    requires s <= 93
    ensures (s * 351 + 61) / 0x80 == Rescale(s, 93, 255)
  {
    DivSplit(2 * (s * 255) + 93, 186, 2 * s, 138 * s + 93);
    DivSplit(s * 351 + 61, 0x80, 2 * s, 95 * s + 61);
    OneThird5Residue(s);
  }

  /** One channel of `one_third_color_rgb8`: `s = 2a + b` of 5-bit values. */
  function OneThird5(s: nat): (r: u8)
    requires s <= 93
    ensures r == Rescale(s, 93, 255)
  {
    OneThird5Exact(s);
    assert s * 351 + 61 < 0x1_0000;
    (s * 351 + 61) / 0x80
  }

  lemma OneThird6Residue(s: nat)
    requires s <= 189
    ensures (132 * s + 189) / 378 == (715 * s + 1039) / 0x800
  {
    if s < 2 {
      assert (132 * s + 189) / 378 == 0 == (715 * s + 1039) / 0x800;
    } else if s < 5 {
      assert (132 * s + 189) / 378 == 1 == (715 * s + 1039) / 0x800;
    } else if s < 8 {
      assert (132 * s + 189) / 378 == 2 == (715 * s + 1039) / 0x800;
    } else if s < 11 {
      assert (132 * s + 189) / 378 == 3 == (715 * s + 1039) / 0x800;
    } else if s < 13 {
      assert (132 * s + 189) / 378 == 4 == (715 * s + 1039) / 0x800;
    } else if s < 16 {
      assert (132 * s + 189) / 378 == 5 == (715 * s + 1039) / 0x800;
    } else if s < 19 {
      assert (132 * s + 189) / 378 == 6 == (715 * s + 1039) / 0x800;
    } else if s < 22 {
      assert (132 * s + 189) / 378 == 7 == (715 * s + 1039) / 0x800;
    } else if s < 25 {
      assert (132 * s + 189) / 378 == 8 == (715 * s + 1039) / 0x800;
    } else if s < 28 {
      assert (132 * s + 189) / 378 == 9 == (715 * s + 1039) / 0x800;
    } else if s < 31 {
      assert (132 * s + 189) / 378 == 10 == (715 * s + 1039) / 0x800;
    } else if s < 33 {
      assert (132 * s + 189) / 378 == 11 == (715 * s + 1039) / 0x800;
    } else if s < 36 {
      assert (132 * s + 189) / 378 == 12 == (715 * s + 1039) / 0x800;
    } else if s < 39 {
      assert (132 * s + 189) / 378 == 13 == (715 * s + 1039) / 0x800;
    } else if s < 42 {
      assert (132 * s + 189) / 378 == 14 == (715 * s + 1039) / 0x800;
    } else if s < 45 {
      assert (132 * s + 189) / 378 == 15 == (715 * s + 1039) / 0x800;
    } else if s < 48 {
      assert (132 * s + 189) / 378 == 16 == (715 * s + 1039) / 0x800;
    } else if s < 51 {
      assert (132 * s + 189) / 378 == 17 == (715 * s + 1039) / 0x800;
    } else if s < 53 {
      assert (132 * s + 189) / 378 == 18 == (715 * s + 1039) / 0x800;
    } else if s < 56 {
      assert (132 * s + 189) / 378 == 19 == (715 * s + 1039) / 0x800;
    } else if s < 59 {
      assert (132 * s + 189) / 378 == 20 == (715 * s + 1039) / 0x800;
    } else if s < 62 {
      assert (132 * s + 189) / 378 == 21 == (715 * s + 1039) / 0x800;
    } else if s < 65 {
      assert (132 * s + 189) / 378 == 22 == (715 * s + 1039) / 0x800;
    } else if s < 68 {
      assert (132 * s + 189) / 378 == 23 == (715 * s + 1039) / 0x800;
    } else if s < 71 {
      assert (132 * s + 189) / 378 == 24 == (715 * s + 1039) / 0x800;
    } else if s < 74 {
      assert (132 * s + 189) / 378 == 25 == (715 * s + 1039) / 0x800;
    } else if s < 76 {
      assert (132 * s + 189) / 378 == 26 == (715 * s + 1039) / 0x800;
    } else if s < 79 {
      assert (132 * s + 189) / 378 == 27 == (715 * s + 1039) / 0x800;
    } else if s < 82 {
      assert (132 * s + 189) / 378 == 28 == (715 * s + 1039) / 0x800;
    } else if s < 85 {
      assert (132 * s + 189) / 378 == 29 == (715 * s + 1039) / 0x800;
    } else if s < 88 {
      assert (132 * s + 189) / 378 == 30 == (715 * s + 1039) / 0x800;
    } else if s < 91 {
      assert (132 * s + 189) / 378 == 31 == (715 * s + 1039) / 0x800;
    } else if s < 94 {
      assert (132 * s + 189) / 378 == 32 == (715 * s + 1039) / 0x800;
    } else if s < 96 {
      assert (132 * s + 189) / 378 == 33 == (715 * s + 1039) / 0x800;
    } else if s < 99 {
      assert (132 * s + 189) / 378 == 34 == (715 * s + 1039) / 0x800;
    } else if s < 102 {
      assert (132 * s + 189) / 378 == 35 == (715 * s + 1039) / 0x800;
    } else if s < 105 {
      assert (132 * s + 189) / 378 == 36 == (715 * s + 1039) / 0x800;
    } else if s < 108 {
      assert (132 * s + 189) / 378 == 37 == (715 * s + 1039) / 0x800;
    } else if s < 111 {
      assert (132 * s + 189) / 378 == 38 == (715 * s + 1039) / 0x800;
    } else if s < 114 {
      assert (132 * s + 189) / 378 == 39 == (715 * s + 1039) / 0x800;
    } else if s < 116 {
      assert (132 * s + 189) / 378 == 40 == (715 * s + 1039) / 0x800;
    } else if s < 119 {
      assert (132 * s + 189) / 378 == 41 == (715 * s + 1039) / 0x800;
    } else if s < 122 {
      assert (132 * s + 189) / 378 == 42 == (715 * s + 1039) / 0x800;
    } else if s < 125 {
      assert (132 * s + 189) / 378 == 43 == (715 * s + 1039) / 0x800;
    } else if s < 128 {
      assert (132 * s + 189) / 378 == 44 == (715 * s + 1039) / 0x800;
    } else if s < 131 {
      assert (132 * s + 189) / 378 == 45 == (715 * s + 1039) / 0x800;
    } else if s < 134 {
      assert (132 * s + 189) / 378 == 46 == (715 * s + 1039) / 0x800;
    } else if s < 137 {
      assert (132 * s + 189) / 378 == 47 == (715 * s + 1039) / 0x800;
    } else if s < 139 {
      assert (132 * s + 189) / 378 == 48 == (715 * s + 1039) / 0x800;
    } else if s < 142 {
      assert (132 * s + 189) / 378 == 49 == (715 * s + 1039) / 0x800;
    } else if s < 145 {
      assert (132 * s + 189) / 378 == 50 == (715 * s + 1039) / 0x800;
    } else if s < 148 {
      assert (132 * s + 189) / 378 == 51 == (715 * s + 1039) / 0x800;
    } else if s < 151 {
      assert (132 * s + 189) / 378 == 52 == (715 * s + 1039) / 0x800;
    } else if s < 154 {
      assert (132 * s + 189) / 378 == 53 == (715 * s + 1039) / 0x800;
    } else if s < 157 {
      assert (132 * s + 189) / 378 == 54 == (715 * s + 1039) / 0x800;
    } else if s < 159 {
      assert (132 * s + 189) / 378 == 55 == (715 * s + 1039) / 0x800;
    } else if s < 162 {
      assert (132 * s + 189) / 378 == 56 == (715 * s + 1039) / 0x800;
    } else if s < 165 {
      assert (132 * s + 189) / 378 == 57 == (715 * s + 1039) / 0x800;
    } else if s < 168 {
      assert (132 * s + 189) / 378 == 58 == (715 * s + 1039) / 0x800;
    } else if s < 171 {
      assert (132 * s + 189) / 378 == 59 == (715 * s + 1039) / 0x800;
    } else if s < 174 {
      assert (132 * s + 189) / 378 == 60 == (715 * s + 1039) / 0x800;
    } else if s < 177 {
      assert (132 * s + 189) / 378 == 61 == (715 * s + 1039) / 0x800;
    } else if s < 179 {
      assert (132 * s + 189) / 378 == 62 == (715 * s + 1039) / 0x800;
    } else if s < 182 {
      assert (132 * s + 189) / 378 == 63 == (715 * s + 1039) / 0x800;
    } else if s < 185 {
      assert (132 * s + 189) / 378 == 64 == (715 * s + 1039) / 0x800;
    } else if s < 188 {
      assert (132 * s + 189) / 378 == 65 == (715 * s + 1039) / 0x800;
    } else {
      assert (132 * s + 189) / 378 == 66 == (715 * s + 1039) / 0x800;
    }
  }

  /** The constants of `OneThird6` compute `Rescale(s, 189, 255)`: both are `1 * s` plus a matching remainder. */
  lemma OneThird6Exact(s: nat)
    requires s <= 189
    ensures (s * 2763 + 1039) / 0x800 == Rescale(s, 189, 255)
  {
    DivSplit(2 * (s * 255) + 189, 378, 1 * s, 132 * s + 189);
    DivSplit(s * 2763 + 1039, 0x800, 1 * s, 715 * s + 1039);
    OneThird6Residue(s);
  }

  /** The green channel of `one_third_color_rgb8`: `s = 2a + b` of 6-bit values. */
  function OneThird6(s: nat): (r: u8)
    requires s <= 189
    ensures r == Rescale(s, 189, 255)
  {
    OneThird6Exact(s);
    (s * 2763 + 1039) / 0x800
  }

  lemma Mid5Residue(s: nat)
    requires s <= 62
    ensures (14 * s + 62) / 124 == (29 * s + 125) / 0x100
  {
    if s < 5 {
      assert (14 * s + 62) / 124 == 0 == (29 * s + 125) / 0x100;
    } else if s < 14 {
      assert (14 * s + 62) / 124 == 1 == (29 * s + 125) / 0x100;
    } else if s < 23 {
      assert (14 * s + 62) / 124 == 2 == (29 * s + 125) / 0x100;
    } else if s < 31 {
      assert (14 * s + 62) / 124 == 3 == (29 * s + 125) / 0x100;
    } else if s < 40 {
      assert (14 * s + 62) / 124 == 4 == (29 * s + 125) / 0x100;
    } else if s < 49 {
      assert (14 * s + 62) / 124 == 5 == (29 * s + 125) / 0x100;
    } else if s < 58 {
      assert (14 * s + 62) / 124 == 6 == (29 * s + 125) / 0x100;
    } else {
      assert (14 * s + 62) / 124 == 7 == (29 * s + 125) / 0x100;
    }
  }

  /** The constants of `Mid5` compute `Rescale(s, 62, 255)`: both are `4 * s` plus a matching remainder. */
  lemma Mid5Exact(s: nat)
    requires s <= 62
    ensures (s * 1053 + 125) / 0x100 == Rescale(s, 62, 255)
  {
    DivSplit(2 * (s * 255) + 62, 124, 4 * s, 14 * s + 62);
    DivSplit(s * 1053 + 125, 0x100, 4 * s, 29 * s + 125);
    Mid5Residue(s);
  }

  /** One channel of `mid_color_rgb8`: `s = a + b` of 5-bit values. */
  function Mid5(s: nat): (r: u8)
    requires s <= 62
    ensures r == Rescale(s, 62, 255)
  {
    Mid5Exact(s);
    assert s * 1053 + 125 < 0x1_0000;
    (s * 1053 + 125) / 0x100
  }

  lemma Mid6Residue(s: nat)
    requires s <= 126
    ensures (6 * s + 126) / 252 == (49 * s + 1019) / 0x800
  {
    if s < 21 {
      assert (6 * s + 126) / 252 == 0 == (49 * s + 1019) / 0x800;
    } else if s < 63 {
      assert (6 * s + 126) / 252 == 1 == (49 * s + 1019) / 0x800;
    } else if s < 105 {
      assert (6 * s + 126) / 252 == 2 == (49 * s + 1019) / 0x800;
    } else {
      assert (6 * s + 126) / 252 == 3 == (49 * s + 1019) / 0x800;
    }
  }

  /** The constants of `Mid6` compute `Rescale(s, 126, 255)`: both are `2 * s` plus a matching remainder. */
  lemma Mid6Exact(s: nat)
    requires s <= 126
    ensures (s * 4145 + 1019) / 0x800 == Rescale(s, 126, 255)
  {
    DivSplit(2 * (s * 255) + 126, 252, 2 * s, 6 * s + 126);
    DivSplit(s * 4145 + 1019, 0x800, 2 * s, 49 * s + 1019);
    Mid6Residue(s);
  }

  /** The green channel of `mid_color_rgb8`. */
  function Mid6(s: nat): (r: u8)
    requires s <= 126
    ensures r == Rescale(s, 126, 255)
  {
    Mid6Exact(s);
    (s * 4145 + 1019) / 0x800
  }

  /**
   * `one_third_color_rgb8`: the nearest RGB8 color to `self * 2/3 + color * 1/3`,
   * i.e. per channel the nearest byte to `(2a + b) * 255 / (3 * 31)` (63 for green).
   */
  function OneThirdColorRgb8(a: B5G6R5, b: B5G6R5): (rgb: seq<u8>)
    requires a.Valid() && b.Valid()
    ensures rgb == [Rescale(2 * a.r5 + b.r5, 93, 255),
                    Rescale(2 * a.g6 + b.g6, 189, 255),
                    Rescale(2 * a.b5 + b.b5, 93, 255)]
  {
    [OneThird5(a.r5 * 2 + b.r5),
     OneThird6(a.g6 * 2 + b.g6),
     OneThird5(a.b5 * 2 + b.b5)]
  }

  /** `mid_color_rgb8`: per channel the nearest byte to `(a + b) * 255 / (2 * 31)` (63 for green). */
  function MidColorRgb8(a: B5G6R5, b: B5G6R5): (rgb: seq<u8>)
    requires a.Valid() && b.Valid()
    ensures rgb == [Rescale(a.r5 + b.r5, 62, 255),
                    Rescale(a.g6 + b.g6, 126, 255),
                    Rescale(a.b5 + b.b5, 62, 255)]
  {
    [Mid5(a.r5 + b.r5), Mid6(a.g6 + b.g6), Mid5(a.b5 + b.b5)]
  }

  /** A common factor of the numerator and the divisor does not change a rounded quotient. */
  lemma RoundDivCancel(n: nat, d: nat, k: nat)
    requires d > 0 && k > 0
    ensures RoundDiv(k * n, k * d) == RoundDiv(n, d)
  {
    var q, r := (2 * n + d) / (2 * d), (2 * n + d) % (2 * d);
    assert 2 * (k * n) + k * d == k * (2 * n + d) == (2 * (k * d)) * q + k * r;
    MulMonotone(k, r + 1, k, 2 * d);
    DivBetween(2 * (k * n) + k * d, 2 * (k * d), q);
  }

  /** A 5-bit channel mixed with itself, either way, is that channel widened. */
  lemma MixOfEqual5(x: u16)
    requires x <= 31
    ensures OneThird5(x * 2 + x) == N5ToN8(x) && Mid5(x + x) == N5ToN8(x)
  {
    RoundDivCancel(x * 255, 31, 3);
    RoundDivCancel(x * 255, 31, 2);
  }

  /** A 6-bit channel mixed with itself, either way, is that channel widened. */
  lemma MixOfEqual6(x: u16)
    requires x <= 63
    ensures OneThird6(x * 2 + x) == N6ToN8(x) && Mid6(x + x) == N6ToN8(x)
  {
    RoundDivCancel(x * 255, 63, 3);
    RoundDivCancel(x * 255, 63, 2);
  }

  /** Each channel of a color mixed with itself two parts to one is that channel widened. */
  lemma OneThirdOfEqualChannels(c: B5G6R5)
    requires c.Valid()
    ensures OneThirdColorRgb8(c, c)[0] == B5G6R5ToN8(c)[0]
    ensures OneThirdColorRgb8(c, c)[1] == B5G6R5ToN8(c)[1]
    ensures OneThirdColorRgb8(c, c)[2] == B5G6R5ToN8(c)[2]
  {
    MixOfEqual5(c.r5);
    MixOfEqual6(c.g6);
    MixOfEqual5(c.b5);
  }

  /** Each channel of a color mixed with itself half and half is that channel widened. */
  lemma MidOfEqualChannels(c: B5G6R5)
    requires c.Valid()
    ensures MidColorRgb8(c, c)[0] == B5G6R5ToN8(c)[0]
    ensures MidColorRgb8(c, c)[1] == B5G6R5ToN8(c)[1]
    ensures MidColorRgb8(c, c)[2] == B5G6R5ToN8(c)[2]
  {
    MixOfEqual5(c.r5);
    MixOfEqual6(c.g6);
    MixOfEqual5(c.b5);
  }

  /** Mixing a color with itself gives that color widened to 8 bits. */
  lemma MixOfEqualColors(c: B5G6R5)
    requires c.Valid()
    ensures OneThirdColorRgb8(c, c) == B5G6R5ToN8(c)
    ensures MidColorRgb8(c, c) == B5G6R5ToN8(c)
  {
    OneThirdOfEqualChannels(c);
    MidOfEqualChannels(c);
  }

  // ---------------------------------------------------------------------------
  // Channel rearrangement on pixels held as short sequences of channel values.

  /** The `Norm` constants of a channel type. */
  datatype Norm<T> = Norm(zero: T, half: T, one: T)

  const NormU8: Norm<u8> := Norm(0, 128, 255)

  const NormU16: Norm<u16> := Norm(0, 32768, 65535)

  /** `NormConvert` from `u8` to `u16` maps 0 and 1.0 onto 0 and 1.0. */
  lemma NormConvertU8ToU16Endpoints()
    ensures N8ToN16(NormU8.zero) == NormU16.zero && N8ToN16(NormU8.one) == NormU16.one
  {
  }

  /** `NormConvert` from `u16` to `u8` maps 0, one half and 1.0 onto their `u8` counterparts. */
  lemma NormConvertU16ToU8Landmarks()
    ensures N16ToN8(NormU16.zero) == NormU8.zero
    ensures N16ToN8(NormU16.half) == NormU8.half
    ensures N16ToN8(NormU16.one) == NormU8.one
  {
    RescaleEndpoints(65535, 255);
    var h := N16ToN8(32768);
    assert h == 128;
  }

  /** `ToRgba`: RGB gains an opaque alpha, gray is replicated and gains an opaque alpha. */
  function ToRgba<T>(p: seq<T>, n: Norm<T>): (q: seq<T>)
    requires |p| == 1 || |p| == 3
    ensures |q| == 4 && q[3] == n.one
    ensures |p| == 3 ==> q[..3] == p
    ensures |p| == 1 ==> q[0] == p[0] && q[1] == p[0] && q[2] == p[0]
  {
    if |p| == 3 then [p[0], p[1], p[2], n.one] else [p[0], p[0], p[0], n.one]
  }

  /** `ToRgb`: RGBA drops its alpha, gray is replicated. */
  function ToRgb<T>(p: seq<T>): (q: seq<T>)
    requires |p| == 1 || |p| == 4
    ensures |q| == 3
    ensures |p| == 4 ==> q == p[..3]
    ensures |p| == 1 ==> q[0] == p[0] && q[1] == p[0] && q[2] == p[0]
  {
    if |p| == 4 then [p[0], p[1], p[2]] else [p[0], p[0], p[0]]
  }

  /** `SwapRB`: exchanges the first and third channel of an RGB or RGBA pixel. */
  function SwapRB<T>(p: seq<T>): (q: seq<T>)
    requires |p| == 3 || |p| == 4
    ensures |q| == |p| && q[0] == p[2] && q[2] == p[0]
    ensures forall i | 0 <= i < |p| && i != 0 && i != 2 :: q[i] == p[i]
  {
    if |p| == 3 then [p[2], p[1], p[0]] else [p[2], p[1], p[0], p[3]]
  }

  /** Swapping twice restores the pixel. */
  lemma SwapRBInvolution<T>(p: seq<T>)
    requires |p| == 3 || |p| == 4
    ensures SwapRB(SwapRB(p)) == p
  {
  }

  /** Adding alpha and dropping it again restores an RGB pixel; gray goes the same way either route. */
  lemma ToRgbAfterToRgba<T>(p: seq<T>, n: Norm<T>)
    requires |p| == 1 || |p| == 3
    ensures ToRgb(ToRgba(p, n)) == (if |p| == 3 then p else ToRgb(p))
  {
  }
}
