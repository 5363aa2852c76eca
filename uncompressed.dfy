/**
 * The encoder side of the uncompressed formats, `src/encode/uncompressed.rs`:
 * exactness flags, the encoder descriptors and first-match dispatch over a list
 * of them, the subsampling driver that pads a partial last block, and the
 * packing of quantised components into 16- and 32-bit words and macropixels.
 *
 * The float quantisers the source applies first (`n5::from_f32` and friends) are
 * not modelled: every packing function takes the already quantised components,
 * bounded by their bit width, as inputs.
 */
module Uncompressed {
  import opened Wrappers
  import opened Util
  import opened Format
  import Convert

  // ---------------------------------------------------------------------------
  // Exactness flags: a `u8` bit set.

  type Flags = bv8

  /** Every `u8` (and SNORM8) value is encoded without loss. */
  const EXACT_U8: Flags := 0x1
  /** Every `u16` value is encoded without loss; includes `EXACT_U8`. */
  const EXACT_U16: Flags := 0x3
  /** Every `f32` value is encoded without loss; includes `EXACT_U16`. */
  const EXACT_F32: Flags := 0x7

  /** `f.contains(g)`: every flag of `g` is set in `f`. */
  predicate FlagsContain(f: Flags, g: Flags) { f & g == g }

  /** `Flags::exact_for`: the exactness a lossless copy of `precision` provides. */
  function ExactFor(precision: Precision): (f: Flags)
    ensures FlagsContain(f, EXACT_U8)
    ensures FlagsContain(f, EXACT_U16) <==> precision != U8
    ensures FlagsContain(f, EXACT_F32) <==> precision == F32
  {
    match precision
    case U8 => EXACT_U8
    case U16 => EXACT_U16
    case F32 => EXACT_F32
  }

  /** The flag sets are nested: a wider precision's guarantee contains every narrower one. */
  lemma FlagsNested()
    ensures FlagsContain(EXACT_F32, EXACT_U16) && FlagsContain(EXACT_U16, EXACT_U8)
    ensures !FlagsContain(EXACT_U8, EXACT_U16) && !FlagsContain(EXACT_U16, EXACT_F32)
  {
  }

  /** `exact_for` never loses a lower-precision guarantee as the precision grows, and never claims one above. */
  lemma ExactForMonotone(p: Precision, q: Precision)
    ensures FlagsContain(ExactFor(q), ExactFor(p)) <==> PrecisionSize(p) <= PrecisionSize(q)
  {
    FlagsNested();
  }

  // ---------------------------------------------------------------------------
  // Encoders.

  datatype EncodeError =
    | UnsupportedColorFormat(color: ColorFormat)
      /** A failure of the writer; I/O is not modelled. */
    | Io

  /** The arguments of one encode call; the output bytes stand for the writer. */
  datatype Args = Args(data: seq<u8>, width: u32, color: ColorFormat)

  /**
   * `UncompressedEncoder`: the color formats it accepts (the source's bit set
   * `ColorFormatSet`), its exactness flags, and the function doing the work.
   */
  datatype UncompressedEncoder = UncompressedEncoder(
    colorFormats: set<ColorFormat>,
    flags: Flags,
    encode: Args -> Result<seq<u8>, EncodeError>)

  /** `UncompressedEncoder::copy`: accepts exactly `color` and is exact for its precision. */
  function Copy(color: ColorFormat, copyDirectly: Args -> Result<seq<u8>, EncodeError>): (e: UncompressedEncoder)
    ensures e.colorFormats == {color}
    ensures FlagsContain(e.flags, ExactFor(color.precision)) && FlagsContain(ExactFor(color.precision), e.flags)
    ensures e.encode == copyDirectly
  {
    UncompressedEncoder({color}, ExactFor(color.precision), copyDirectly)
  }

  /** `add_flags`: sets more flags and keeps everything else. */
  function AddFlags(e: UncompressedEncoder, flags: Flags): (e': UncompressedEncoder)
    ensures FlagsContain(e'.flags, e.flags) && FlagsContain(e'.flags, flags)
    ensures e'.colorFormats == e.colorFormats && e'.encode == e.encode
  {
    e.(flags := e.flags | flags)
  }

  /** `add_flags` sets no flag beyond the added ones: a new flag set `f` comes from `flags`. */
  lemma AddFlagsAddsNothingElse(e: UncompressedEncoder, flags: Flags, f: Flags)
    requires FlagsContain(AddFlags(e, flags).flags, f) && f & e.flags == 0
    ensures FlagsContain(flags, f)
  {
  }

  /** `Encoder::encode` for one encoder: unsupported colors are refused before the encode function runs. */
  function Encode(e: UncompressedEncoder, args: Args): (r: Result<seq<u8>, EncodeError>)
    ensures args.color !in e.colorFormats ==> r == Err(EncodeError.UnsupportedColorFormat(args.color))
    ensures args.color in e.colorFormats ==> r == e.encode(args)
  {
    if args.color !in e.colorFormats then Err(EncodeError.UnsupportedColorFormat(args.color))
    else e.encode(args)
  }

  /** The refusal does not depend on the encode function: it is never consulted. */
  lemma RefusalIgnoresEncodeFunction(e: UncompressedEncoder, g: Args -> Result<seq<u8>, EncodeError>, args: Args)
    requires args.color !in e.colorFormats
    ensures Encode(e, args) == Encode(e.(encode := g), args)
  {
  }

  /** The union of the color sets of a list of encoders. */
  function SupportedUnion(es: seq<UncompressedEncoder>): set<ColorFormat>
  {
    if |es| == 0 then {} else SupportedUnion(es[..|es| - 1]) + es[|es| - 1].colorFormats
  }

  /** A color is in the union iff some encoder of the list accepts it. */
  lemma {:induction false} InSupportedUnion(es: seq<UncompressedEncoder>, c: ColorFormat)
    ensures c in SupportedUnion(es) <==> exists i | 0 <= i < |es| :: c in es[i].colorFormats
  {
    if |es| > 0 {
      var init := es[..|es| - 1];
      InSupportedUnion(init, c);
      if c in SupportedUnion(init) {
        var i :| 0 <= i < |init| && c in init[i].colorFormats;
        assert es[i] == init[i];
      }
      if exists i | 0 <= i < |es| :: c in es[i].colorFormats {
        var i :| 0 <= i < |es| && c in es[i].colorFormats;
        if i < |es| - 1 {
          assert init[i] == es[i];
        }
      }
    }
  }

  /** `supported_color_formats` of an encoder list: the union, built up one encoder at a time. */
  method SupportedColorFormats(es: seq<UncompressedEncoder>) returns (s: set<ColorFormat>)
    ensures s == SupportedUnion(es)
    ensures forall c :: c in s <==> exists i | 0 <= i < |es| :: c in es[i].colorFormats
  {
    s := {};
    var i := 0;
    while i < |es|
      invariant 0 <= i <= |es|
      invariant s == SupportedUnion(es[..i])
    {
      assert es[..i + 1][..i] == es[..i];
      s := s + es[i].colorFormats;
      i := i + 1;
    }
    assert es[..|es|] == es;
    forall c
      ensures c in s <==> exists i | 0 <= i < |es| :: c in es[i].colorFormats
    {
      InSupportedUnion(es, c);
    }
  }

  /**
   * `Encoder::encode` for an encoder list: the first encoder accepting the color
   * does the work. The color is refused exactly when no encoder of the list
   * accepts it, i.e. when the union lacks it.
   */
  method EncodeWithList(es: seq<UncompressedEncoder>, args: Args) returns (r: Result<seq<u8>, EncodeError>)
    ensures args.color !in SupportedUnion(es) ==> r == Err(EncodeError.UnsupportedColorFormat(args.color))
    ensures args.color in SupportedUnion(es) ==>
      exists i | 0 <= i < |es| ::
        args.color in es[i].colorFormats &&
        (forall j | 0 <= j < i :: args.color !in es[j].colorFormats) &&
        r == es[i].encode(args)
  {
    InSupportedUnion(es, args.color);
    var i := 0;
    while i < |es|
      invariant 0 <= i <= |es|
      invariant forall j | 0 <= j < i :: args.color !in es[j].colorFormats
    {
      if args.color in es[i].colorFormats {
        r := Encode(es[i], args);
        return;
      }
      i := i + 1;
    }
    r := Err(EncodeError.UnsupportedColorFormat(args.color));
  }

  // ---------------------------------------------------------------------------
  // Subsampled formats: `w` pixels per encoded block.

  /** Whether block `i` holds at least one pixel: exactly the full blocks, then one partial block if pixels remain. */
  lemma BlockExists(n: nat, w: nat, i: nat)
    requires w > 0
    ensures i * w < n <==> i < n / w || (i == n / w && n % w != 0)
  {
    var q := n / w;
    assert q * w + n % w == n;
    if i < q {
      MulMonotone(i + 1, w, q, w);
    } else if i > q {
      MulMonotone(q + 1, w, i, w);
    }
  }

  /** The number of blocks holding a pixel is `ceil(n / w)`. */
  lemma BlockCount(n: nat, w: nat, i: nat)
    requires w > 0
    ensures i * w < n <==> i < DivCeil(n, w)
  {
    BlockExists(n, w, i);
  }

  /**
   * Block `i` of `data` as `process_subsample` hands it to the block function:
   * pixel `k` of the block is pixel `i * w + k` of the data, and past the end of
   * the data it is the last pixel again.
   */
  function PaddedBlock<P>(data: seq<P>, w: nat, i: nat): (b: seq<P>)
    requires w > 0 && i * w < |data|
    ensures |b| == w
    ensures forall k | 0 <= k < w :: b[k] == if i * w + k < |data| then data[i * w + k] else data[|data| - 1]
  {
    if i * w + w <= |data| then data[i * w..i * w + w]
    else data[i * w..] + Fill(data[|data| - 1], i * w + w - |data|)
  }

  /** A full block is a plain slice of the data. */
  lemma FullBlock<P>(data: seq<P>, w: nat, i: nat)
    requires w > 0 && i < |data| / w
    ensures i * w + w <= |data|
    ensures PaddedBlock(data, w, i) == data[i * w..i * w + w]
  {
    MulMonotone(i + 1, w, |data| / w, w);
  }

  /** The partial last block is the remaining pixels followed by copies of the last one. */
  lemma LastBlock<P>(data: seq<P>, w: nat)
    requires w > 0 && |data| % w != 0
    ensures (|data| / w) * w < |data|
    ensures PaddedBlock(data, w, |data| / w)
      == data[(|data| / w) * w..] + Fill(data[|data| - 1], w - (|data| - (|data| / w) * w))
  {
    var q := |data| / w;
    assert q * w + |data| % w == |data|;
    var b := data[q * w..] + Fill(data[|data| - 1], w - (|data| - q * w));
    assert |b| == w;
    forall k | 0 <= k < w
      ensures b[k] == PaddedBlock(data, w, q)[k]
    {
    }
  }

  /**
   * `process_subsample`: encodes every block of `w` pixels into `out`, in order,
   * stopping at the shorter of the two (the source zips them); a partial last
   * block is padded with copies of the last pixel and must fit into `out`.
   */
  method ProcessSubsample<P, B>(data: seq<P>, out: array<B>, w: nat, f: seq<P> -> B)
    requires w > 0
    requires |data| % w != 0 ==> |data| / w < out.Length
    modifies out
    ensures forall i | 0 <= i < out.Length ::
      out[i] == if i * w < |data| then f(PaddedBlock(data, w, i)) else old(out[i])
  {
    var full := |data| / w;
    var fullLen := full * w;
    var rest := |data| - fullLen;
    assert rest == |data| % w;
    var n := ProcessFullBlocks(data, out, w, f);
    if rest > 0 {
      LastBlock(data, w);
      var lastBlock := data[fullLen..] + Fill(data[|data| - 1], w - rest);
      assert lastBlock == PaddedBlock(data, w, full);
      out[full] := f(lastBlock);
    }
    forall k | n <= k < out.Length
      ensures out[k] == if k * w < |data| then f(PaddedBlock(data, w, k)) else old(out[k])
    {
      BlockExists(|data|, w, k);
    }
  }

  /** The full blocks of `process_subsample`, zipped with `out`: `n` blocks are encoded. */
  method ProcessFullBlocks<P, B>(data: seq<P>, out: array<B>, w: nat, f: seq<P> -> B) returns (n: nat)
    requires w > 0
    modifies out
    ensures n == Min(|data| / w, out.Length)
    ensures forall k | 0 <= k < n :: k * w < |data| && out[k] == f(PaddedBlock(data, w, k))
    ensures forall k | n <= k < out.Length :: out[k] == old(out[k])
  {
    var full := |data| / w;
    FullBlocks(data, w);
    ghost var blocks := seq(full, k requires 0 <= k < full => PaddedBlock(data, w, k));
    n := 0;
    while n < full && n < out.Length
      invariant 0 <= n <= full && n <= out.Length
      invariant forall k | 0 <= k < n :: out[k] == f(blocks[k])
      invariant forall k | n <= k < out.Length :: out[k] == old(out[k])
    {
      FullBlock(data, w, n);
      var block := data[n * w..n * w + w];
      assert block == blocks[n];
      out[n] := f(block);
      n := n + 1;
    }
  }

  /** Every full block holds pixels. */
  lemma FullBlocks<P>(data: seq<P>, w: nat)
    requires w > 0
    ensures forall k | 0 <= k < |data| / w :: k * w < |data|
  {
    forall k | 0 <= k < |data| / w
      ensures k * w < |data|
    {
      FullBlock(data, w, k);
    }
  }


  // ---------------------------------------------------------------------------
  // Packing quantised components into words. A shift `x << k` is `x * 2^k`; `|`
  // is `BitOr`, which on these disjoint fields is addition.

  /** Or-ing `lo < 2^k` and `c * 2^k` in either order is their sum. */
  lemma OrDisjoint(lo: nat, c: nat, k: nat)
    requires lo < Pow2(k)
    ensures BitOr(lo, c * Pow2(k)) == lo + c * Pow2(k)
    ensures BitOr(c * Pow2(k), lo) == lo + c * Pow2(k)
  {
    BitOrDisjoint(lo, c, k);
    BitOrCommutes(lo, c * Pow2(k));
  }

  /** The B5G6R5_UNORM closure: `b | g << 5 | r << 11`. */
  function PackB5G6R5(r: nat, g: nat, b: nat): (u: u16)
    requires r <= 31 && g <= 63 && b <= 31
    ensures u == b + g * 0x20 + r * 0x800
  {
    assert Pow2(5) == 0x20 && Pow2(11) == 0x800;
    OrDisjoint(b, g, 5);
    OrDisjoint(b + g * 0x20, r, 11);
    BitOr(BitOr(b, g * 0x20), r * 0x800)
  }

  /** `B5G6R5::from_u16` recovers the packed components… */
  lemma B5G6R5RoundTrip(r: nat, g: nat, b: nat)
    requires r <= 31 && g <= 63 && b <= 31
    ensures Convert.B5G6R5FromU16(PackB5G6R5(r, g, b)) == Convert.B5G6R5(r, g, b)
  {
    var u := PackB5G6R5(r, g, b);
    var h1 := g + r * 0x40;
    assert u == b + h1 * 0x20;
    assert u / 0x20 == h1 && h1 / 0x40 == r && u / 0x800 == r;
  }

  /** …and packing the components of any word gives the word back. */
  lemma B5G6R5WordRoundTrip(u: u16)
    ensures var c := Convert.B5G6R5FromU16(u); PackB5G6R5(c.r5, c.g6, c.b5) == u
  {
  }

  /** The B5G5R5A1_UNORM closure: `b | g << 5 | r << 10 | a << 15`. */
  function PackB5G5R5A1(r: nat, g: nat, b: nat, a: nat): (u: u16)
    requires r <= 31 && g <= 31 && b <= 31 && a <= 1
    ensures u == b + g * 0x20 + r * 0x400 + a * 0x8000
  {
    assert Pow2(5) == 0x20 && Pow2(10) == 0x400 && Pow2(15) == 0x8000;
    OrDisjoint(b, g, 5);
    OrDisjoint(b + g * 0x20, r, 10);
    OrDisjoint(b + g * 0x20 + r * 0x400, a, 15);
    BitOr(BitOr(BitOr(b, g * 0x20), r * 0x400), a * 0x8000)
  }

  lemma B5G5R5A1RoundTrip(r: nat, g: nat, b: nat, a: nat)
    requires r <= 31 && g <= 31 && b <= 31 && a <= 1
    ensures Convert.B5G5R5A1FromU16(PackB5G5R5A1(r, g, b, a)) == Convert.B5G5R5A1(r, g, b, a)
  {
    var u := PackB5G5R5A1(r, g, b, a);
    var h1 := g + r * 0x20 + a * 0x400;
    var h2 := r + a * 0x20;
    assert u == b + h1 * 0x20;
    assert u / 0x20 == h1 && h1 / 0x20 == h2 && h2 / 0x20 == a;
    assert u / 0x400 == h2 && u / 0x8000 == a;
  }

  lemma B5G5R5A1WordRoundTrip(u: u16)
    ensures var c := Convert.B5G5R5A1FromU16(u); PackB5G5R5A1(c.r5, c.g5, c.b5, c.a1) == u
  {
  }

  /**
   * Four 4-bit fields, lowest first: `f0 | f1 << 4 | f2 << 8 | f3 << 12`. B4G4R4A4
   * packs `(b, g, r, a)` this way and A4B4G4R4 packs `(a, b, g, r)`.
   */
  function Pack4444(f0: nat, f1: nat, f2: nat, f3: nat): (u: u16)
    requires f0 <= 15 && f1 <= 15 && f2 <= 15 && f3 <= 15
    ensures u == f0 + f1 * 0x10 + f2 * 0x100 + f3 * 0x1000
  {
    assert Pow2(4) == 0x10 && Pow2(8) == 0x100 && Pow2(12) == 0x1000;
    OrDisjoint(f0, f1, 4);
    OrDisjoint(f0 + f1 * 0x10, f2, 8);
    OrDisjoint(f0 + f1 * 0x10 + f2 * 0x100, f3, 12);
    BitOr(BitOr(BitOr(f0, f1 * 0x10), f2 * 0x100), f3 * 0x1000)
  }

  /** The four fields are disjoint: each is read back from its own nibble. */
  lemma Pack4444Fields(f0: nat, f1: nat, f2: nat, f3: nat)
    requires f0 <= 15 && f1 <= 15 && f2 <= 15 && f3 <= 15
    ensures var u := Pack4444(f0, f1, f2, f3);
      u % 0x10 == f0 && u / 0x10 % 0x10 == f1 && u / 0x100 % 0x10 == f2 && u / 0x1000 == f3
  {
    var u := Pack4444(f0, f1, f2, f3);
    var h1 := f1 + f2 * 0x10 + f3 * 0x100;
    var h2 := f2 + f3 * 0x10;
    assert u == f0 + h1 * 0x10;
    assert u / 0x10 == h1 && h1 / 0x10 == h2 && h2 / 0x10 == f3;
  }

  /**
   * Three 10-bit fields and a 2-bit one: `f3 << 30 | f2 << 20 | f1 << 10 | f0`.
   * R10G10B10A2_UNORM and R10G10B10_XR_BIAS_A2_UNORM pack `(r, g, b, a)` this
   * way and Y410 packs `(u, y, v, a)`.
   */
  function Pack1010102(f0: nat, f1: nat, f2: nat, f3: nat): (u: u32)
    requires f0 <= 1023 && f1 <= 1023 && f2 <= 1023 && f3 <= 3
    ensures u == f0 + f1 * 0x400 + f2 * 0x10_0000 + f3 * 0x4000_0000
  {
    assert Pow2(10) == 0x400 && Pow2(20) == 0x10_0000 && Pow2(30) == 0x4000_0000;
    var h2 := f2 + f3 * 0x400;
    var h1 := f1 + h2 * 0x400;
    OrDisjoint(f2 * 0x10_0000, f3, 30);
    var top := BitOr(f3 * 0x4000_0000, f2 * 0x10_0000);
    assert top == h2 * Pow2(20);
    OrDisjoint(f1 * 0x400, h2, 20);
    var mid := BitOr(top, f1 * 0x400);
    assert mid == h1 * Pow2(10);
    OrDisjoint(f0, h1, 10);
    BitOr(mid, f0)
  }

  lemma Pack1010102Fields(f0: nat, f1: nat, f2: nat, f3: nat)
    requires f0 <= 1023 && f1 <= 1023 && f2 <= 1023 && f3 <= 3
    ensures var u := Pack1010102(f0, f1, f2, f3);
      u % 0x400 == f0 && u / 0x400 % 0x400 == f1 && u / 0x10_0000 % 0x400 == f2 && u / 0x4000_0000 == f3
  {
    var u := Pack1010102(f0, f1, f2, f3);
    var h1 := f1 + f2 * 0x400 + f3 * 0x10_0000;
    var h2 := f2 + f3 * 0x400;
    assert u == f0 + h1 * 0x400;
    assert u / 0x400 == h1 && h1 / 0x400 == h2 && h2 / 0x400 == f3;
    assert u / 0x10_0000 == h2 && u / 0x4000_0000 == f3;
  }

  /** The R11G11B10_FLOAT closure: `b10 << 22 | g11 << 11 | r11`. */
  function PackR11G11B10(r11: nat, g11: nat, b10: nat): (u: u32)
    requires r11 <= 2047 && g11 <= 2047 && b10 <= 1023
    ensures u == r11 + g11 * 0x800 + b10 * 0x40_0000
  {
    assert Pow2(11) == 0x800 && Pow2(22) == 0x40_0000;
    var h := g11 + b10 * 0x800;
    OrDisjoint(g11 * 0x800, b10, 22);
    var top := BitOr(b10 * 0x40_0000, g11 * 0x800);
    assert top == h * Pow2(11);
    OrDisjoint(r11, h, 11);
    BitOr(top, r11)
  }

  lemma PackR11G11B10Fields(r11: nat, g11: nat, b10: nat)
    requires r11 <= 2047 && g11 <= 2047 && b10 <= 1023
    ensures var u := PackR11G11B10(r11, g11, b10);
      u % 0x800 == r11 && u / 0x800 % 0x800 == g11 && u / 0x40_0000 == b10
  {
    var u := PackR11G11B10(r11, g11, b10);
    var h := g11 + b10 * 0x800;
    assert u == r11 + h * 0x800;
    assert u / 0x800 == h && h / 0x800 == b10;
  }

  /** The AYUV closure's byte order `[v, u, y, a]`. */
  function AyuvLayout(y: u8, u: u8, v: u8, a: u8): (p: seq<u8>)
    ensures |p| == 4 && p[0] == v && p[1] == u && p[2] == y && p[3] == a
    ensures multiset(p) == multiset{y, u, v, a}
  {
    [v, u, y, a]
  }

  /** The Y416 closure's word order `[u, y, v, a]`. */
  function Y416Layout(y: u16, u: u16, v: u16, a: u16): (p: seq<u16>)
    ensures |p| == 4 && p[0] == u && p[1] == y && p[2] == v && p[3] == a
    ensures multiset(p) == multiset{y, u, v, a}
  {
    [u, y, v, a]
  }

  /**
   * Y416 stores its words in the field order of Y410: for values that fit Y410's fields,
   * field `k` of the Y410 word `Pack1010102(u, y, v, a)` is word `k` of the Y416 pixel.
   */
  lemma Y416FollowsY410Order(y: u16, u: u16, v: u16, a: u16)
    requires y <= 1023 && u <= 1023 && v <= 1023 && a <= 3
    ensures var w := Pack1010102(u, y, v, a); var p := Y416Layout(y, u, v, a);
      w % 0x400 == p[0] && w / 0x400 % 0x400 == p[1] && w / 0x10_0000 % 0x400 == p[2]
      && w / 0x4000_0000 == p[3]
  {
    Pack1010102Fields(u, y, v, a);
  }

  // ---------------------------------------------------------------------------
  // Two-pixel macropixels.

  /** `[a, b, c, d]` to `[b, a, d, c]`. */
  function SwapPairs<T>(p: seq<T>): (q: seq<T>)
    requires |p| == 4
    ensures |q| == 4 && q[0] == p[1] && q[1] == p[0] && q[2] == p[3] && q[3] == p[2]
  {
    [p[1], p[0], p[3], p[2]]
  }

  lemma SwapPairsInvolution<T>(p: seq<T>)
    requires |p| == 4
    ensures SwapPairs(SwapPairs(p)) == p
  {
  }

  /** `to_rgbg`: the pair's own greens, with red and blue quantised from the pair's averages. */
  function ToRgbg(g0: u8, g1: u8, rMean: u8, bMean: u8): (p: seq<u8>)
    ensures |p| == 4 && p[1] == g0 && p[3] == g1 && p[0] == rMean && p[2] == bMean
  {
    [rMean, g0, bMean, g1]
  }

  /** The G8R8_G8B8 closure reorders `to_rgbg`'s bytes as `[g0, r, g1, b]`. */
  function ToGrgb(g0: u8, g1: u8, rMean: u8, bMean: u8): (p: seq<u8>)
    ensures p == SwapPairs(ToRgbg(g0, g1, rMean, bMean))
    ensures p[0] == g0 && p[2] == g1
  {
    var q := ToRgbg(g0, g1, rMean, bMean);
    [q[1], q[0], q[3], q[2]]
  }

  /**
   * `pick_mid`: the mean of two channel values rounded down, computed in a wider
   * type so the sum cannot overflow.
   */
  function PickMid(a: nat, b: nat): (m: nat)
    ensures 2 * m <= a + b <= 2 * m + 1
    ensures Min(a, b) <= m <= Max(a, b)
  {
    (a + b) / 2
  }

  /**
   * `to_yuy2` and `to_y216`: `[y0, u, y1, v]` from the two pixels' `[y, u, v]`:
   * each pixel keeps its luma and the pair shares the mean chroma.
   */
  function ToYuy2(yuv1: seq<nat>, yuv2: seq<nat>): (p: seq<nat>)
    requires |yuv1| == 3 && |yuv2| == 3
    ensures |p| == 4 && p[0] == yuv1[0] && p[2] == yuv2[0]
    ensures p[1] == PickMid(yuv1[1], yuv2[1]) && p[3] == PickMid(yuv1[2], yuv2[2])
  {
    [yuv1[0], PickMid(yuv1[1], yuv2[1]), yuv2[0], PickMid(yuv1[2], yuv2[2])]
  }

  /** Every component of a macropixel lies within the range of the inputs. */
  lemma ToYuy2Bounded(yuv1: seq<nat>, yuv2: seq<nat>, max: nat)
    requires |yuv1| == 3 && |yuv2| == 3
    requires forall i | 0 <= i < 3 :: yuv1[i] <= max && yuv2[i] <= max
    ensures forall i | 0 <= i < 4 :: ToYuy2(yuv1, yuv2)[i] <= max
  {
    var p := ToYuy2(yuv1, yuv2);
    assert p[1] <= Max(yuv1[1], yuv2[1]) && p[3] <= Max(yuv1[2], yuv2[2]);
  }

  /** The UYVY closure reorders `to_yuy2`'s bytes as `[u, y0, v, y1]`. */
  function ToUyvy(yuv1: seq<nat>, yuv2: seq<nat>): (p: seq<nat>)
    requires |yuv1| == 3 && |yuv2| == 3
    ensures p == SwapPairs(ToYuy2(yuv1, yuv2))
    ensures p[1] == yuv1[0] && p[3] == yuv2[0]
  {
    var q := ToYuy2(yuv1, yuv2);
    [q[1], q[0], q[3], q[2]]
  }

  /**
   * The Y210 closure: `to_y216` with every 16-bit component masked by `0xFFC0`,
   * keeping the top 10 bits (for a `u16`, `c & 0xFFC0` is `c - c % 64`).
   */
  function ToY210(yuv1: seq<u16>, yuv2: seq<u16>): (p: seq<nat>)
    requires |yuv1| == 3 && |yuv2| == 3
    ensures |p| == 4
    ensures forall i | 0 <= i < 4 ::
      var c := ToYuy2(yuv1, yuv2)[i]; p[i] % 64 == 0 && p[i] <= c < p[i] + 64
  {
    var q := ToYuy2(yuv1, yuv2);
    seq(4, i requires 0 <= i < 4 => RoundDownToMultiple(q[i], 64))
  }

  // ---------------------------------------------------------------------------
  // Bit planes and byte-swapped lines.

  /** The bits `bits[..i]` read as a binary number, most significant first. */
  function BitsValue(bits: seq<nat>, i: nat): nat
    requires i <= |bits|
  {
    if i == 0 then 0 else 2 * BitsValue(bits, i - 1) + bits[i - 1]
  }

  lemma {:induction false} BitsValueBound(bits: seq<nat>, i: nat)
    requires i <= |bits| && forall k | 0 <= k < |bits| :: bits[k] <= 1
    ensures BitsValue(bits, i) < Pow2(i)
  {
    if i > 0 {
      BitsValueBound(bits, i - 1);
    }
  }

  /** Halving after dividing by `q` is dividing by `2 * q`. */
  lemma DivHalf(x: nat, q: nat)
    requires q > 0
    ensures x / (2 * q) == x / q / 2
  {
    var a, r := x / q, x % q;
    var h := a / 2;
    assert a == 2 * h + a % 2;
    assert x == h * (2 * q) + (a % 2 * q + r) by {
      assert x == a * q + r;
      assert a * q == h * (2 * q) + a % 2 * q;
    }
    assert a % 2 * q <= q by {
      MulMonotone(a % 2, q, 1, q);
    }
    Convert.DivBetween(x, 2 * q, h);
  }

  /** Dropping the last `n - j` bits of the first `n` leaves the first `j`. */
  lemma {:induction false} BitsPrefix(bits: seq<nat>, n: nat, j: nat)
    requires j <= n <= |bits| && forall k | 0 <= k < |bits| :: bits[k] <= 1
    ensures BitsValue(bits, n) / Pow2(n - j) == BitsValue(bits, j)
    decreases n - j
  {
    if j < n {
      BitsPrefix(bits, n, j + 1);
      DivHalf(BitsValue(bits, n), Pow2(n - j - 1));
      assert Pow2(n - j) == 2 * Pow2(n - j - 1);
    }
  }

  /** In an 8-bit plane, pixel `i` sits at bit `7 - i`. */
  lemma R1BitPlacement(bits: seq<nat>)
    requires |bits| == 8 && forall k | 0 <= k < 8 :: bits[k] <= 1
    ensures forall i | 0 <= i < 8 :: BitsValue(bits, 8) / Pow2(7 - i) % 2 == bits[i]
  {
    forall i | 0 <= i < 8
      ensures BitsValue(bits, 8) / Pow2(7 - i) % 2 == bits[i]
    {
      BitsPrefix(bits, 8, i + 1);
    }
  }

  /** Appending bit `b` to `c`, both scaled by `p`, where `q` is `2 * p`. */
  lemma AppendBitArith(c: nat, b: nat, p: nat, q: nat)
    requires b <= 1 && p > 0 && q == 2 * p
    ensures b * p < q && b * p + c * q == (2 * c + b) * p
  {
  }

  /** Or-ing bit `b` under `c` shifted up by `k + 1` appends `b` to `c`, shifted up by `k`. */
  lemma OrAppendBit(c: nat, b: nat, k: nat)
    requires b <= 1
    ensures BitOr(c * Pow2(k + 1), b * Pow2(k)) == (2 * c + b) * Pow2(k)
  {
    AppendBitArith(c, b, Pow2(k), Pow2(k + 1));
    OrDisjoint(b * Pow2(k), c, k + 1);
  }

  /** One step of the R1 loop: or-ing in bit `i` keeps the byte the first `i + 1` bits, shifted up. */
  lemma R1Step(bits: seq<nat>, i: nat)
    requires |bits| == 8 && forall k | 0 <= k < 8 :: bits[k] <= 1
    requires i < 8
    ensures BitOr(BitsValue(bits, i) * Pow2(8 - i), bits[i] * Pow2(7 - i)) == BitsValue(bits, i + 1) * Pow2(7 - i)
  {
    OrAppendBit(BitsValue(bits, i), bits[i], 7 - i);
  }

  /** `v < 2^n` shifted up by `m` stays below `2^(n + m)`. */
  lemma ShiftedBound(v: nat, n: nat, m: nat)
    requires v < Pow2(n)
    ensures v * Pow2(m) < Pow2(n + m)
  {
    MulMonotone(v + 1, Pow2(m), Pow2(n), Pow2(m));
    Pow2Add(n, m);
  }

  /** The first `i + 1` bits, shifted to the top of a byte, still fit in it. */
  lemma R1StepBound(bits: seq<nat>, i: nat)
    requires |bits| == 8 && forall k | 0 <= k < 8 :: bits[k] <= 1
    requires i < 8
    ensures BitsValue(bits, i + 1) * Pow2(7 - i) < 256
  {
    BitsValueBound(bits, i + 1);
    ShiftedBound(BitsValue(bits, i + 1), i + 1, 7 - i);
    assert Pow2(8) == 256;
  }

  /**
   * The R1_UNORM block function: or-s the quantised bit of pixel `i` of the
   * 8-pixel block into the byte at position `7 - i`.
   */
  method R1Pack(bits: seq<nat>) returns (out: u8)
    requires |bits| == 8 && forall k | 0 <= k < 8 :: bits[k] <= 1
    ensures out == BitsValue(bits, 8)
    ensures forall i | 0 <= i < 8 :: out / Pow2(7 - i) % 2 == bits[i]
  {
    out := 0;
    var i := 0;
    while i < 8
      invariant 0 <= i <= 8
      invariant out == BitsValue(bits, i) * Pow2(8 - i)
    {
      R1Step(bits, i);
      R1StepBound(bits, i);
      out := BitOr(out, bits[i] * Pow2(7 - i));
      i := i + 1;
    }
    R1BitPlacement(bits);
  }

  lemma {:induction false} Pow2Add(m: nat, n: nat)
    ensures Pow2(m) * Pow2(n) == Pow2(m + n)
  {
    if m > 0 {
      Pow2Add(m - 1, n);
    }
  }

  /**
   * The B8G8R8A8 and B8G8R8X8 line processors after their channel conversion:
   * for each 4-byte pixel, swap bytes 0 and 2 and, for B8G8R8X8, force byte 3 to
   * 0xFF.
   */
  method SwapRBLine(out: array<u8>, forceOpaque: bool)
    requires out.Length % 4 == 0
    modifies out
    ensures forall k | 0 <= k < out.Length / 4 ::
      out[4 * k..4 * k + 4] == SwapRBPixel(old(out[4 * k..4 * k + 4]), forceOpaque)
  {
    ghost var before := out[..];
    var p := 0;
    while 4 * p < out.Length
      invariant 0 <= 4 * p <= out.Length
      invariant forall i | 0 <= i < 4 * p :: out[i] == SwappedByte(before, i, forceOpaque)
      invariant forall i | 4 * p <= i < out.Length :: out[i] == before[i]
    {
      SwappedBytesOfPixel(before, 4 * p, forceOpaque);
      SwapRBAt(out, 4 * p, forceOpaque);
      p := p + 1;
    }
    SwappedLine(before, out[..], forceOpaque);
  }

  /** The four `SwappedByte`s of the pixel at byte `i`. */
  lemma SwappedBytesOfPixel(line: seq<u8>, i: nat, forceOpaque: bool)
    requires |line| % 4 == 0 && i % 4 == 0 && i + 4 <= |line|
    ensures SwappedByte(line, i, forceOpaque) == line[i + 2]
    ensures SwappedByte(line, i + 1, forceOpaque) == line[i + 1]
    ensures SwappedByte(line, i + 2, forceOpaque) == line[i]
    ensures SwappedByte(line, i + 3, forceOpaque) == if forceOpaque then 0xFF else line[i + 3]
  {
  }

  /** A line whose every byte is its `SwappedByte` holds the swapped pixels. */
  lemma SwappedLine(before: seq<u8>, after: seq<u8>, forceOpaque: bool)
    requires |after| == |before| && |before| % 4 == 0
    requires forall i | 0 <= i < |after| :: after[i] == SwappedByte(before, i, forceOpaque)
    ensures forall k | 0 <= k < |after| / 4 ::
      after[4 * k..4 * k + 4] == SwapRBPixel(before[4 * k..4 * k + 4], forceOpaque)
  {
    forall k | 0 <= k < |after| / 4
      ensures after[4 * k..4 * k + 4] == SwapRBPixel(before[4 * k..4 * k + 4], forceOpaque)
    {
      SwappedPixel(before, after, forceOpaque, 4 * k);
    }
  }

  lemma SwappedPixel(before: seq<u8>, after: seq<u8>, forceOpaque: bool, i: nat)
    requires |after| == |before| && |before| % 4 == 0 && i % 4 == 0 && i + 4 <= |before|
    requires forall j | 0 <= j < |after| :: after[j] == SwappedByte(before, j, forceOpaque)
    ensures after[i..i + 4] == SwapRBPixel(before[i..i + 4], forceOpaque)
  {
    assert after[i] == before[i + 2] && after[i + 1] == before[i + 1] && after[i + 2] == before[i];
    assert after[i + 3] == if forceOpaque then 0xFF else before[i + 3];
    assert after[i..i + 4] == [after[i], after[i + 1], after[i + 2], after[i + 3]];
  }

  /** The loop body of `SwapRBLine` on the pixel at byte `i`; the other bytes are kept. */
  method SwapRBAt(out: array<u8>, i: nat, forceOpaque: bool)
    requires i + 4 <= out.Length
    modifies out
    ensures out[i] == old(out[i + 2]) && out[i + 1] == old(out[i + 1]) && out[i + 2] == old(out[i])
    ensures out[i + 3] == if forceOpaque then 0xFF else old(out[i + 3])
    ensures forall k | 0 <= k < out.Length && (k < i || i + 4 <= k) :: out[k] == old(out[k])
  {
    out[i], out[i + 2] := out[i + 2], out[i];
    if forceOpaque {
      out[i + 3] := 0xFF;
    }
  }

  /** One pixel of `SwapRBLine`: red and blue exchanged, alpha set to forceOpaque for B8G8R8X8. */
  function SwapRBPixel(p: seq<u8>, forceOpaque: bool): (q: seq<u8>)
    requires |p| == 4
    ensures |q| == 4 && q[..3] == Convert.SwapRB(p)[..3]
    ensures q[3] == if forceOpaque then 0xFF else p[3]
  {
    var s := Convert.SwapRB(p);
    if forceOpaque then s[..3] + [0xFF] else s
  }

  /** Byte `i` of a swapped line, read from the line before the swap. */
  function SwappedByte(line: seq<u8>, i: nat, forceOpaque: bool): u8
    requires |line| % 4 == 0 && i < |line|
  {
    if i % 4 == 0 then line[i + 2]
    else if i % 4 == 2 then line[i - 2]
    else if i % 4 == 3 && forceOpaque then 0xFF
    else line[i]
  }
}
