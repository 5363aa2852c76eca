/**
 * Format metadata of `src/format.rs`: channels, precisions, color formats, surface
 * sizes, the decodable formats and the lookup of a decoder for a color format.
 */
module Format {
  import opened Wrappers
  import opened Util
  import Dxgi
  import FourCC

  /** The number and meaning of the color channels in a surface. */
  datatype Channels = Grayscale | Alpha | Rgb | Rgba

  /** The precision of the values in a decoded surface. */
  datatype Precision = U8 | U16 | F32

  datatype ColorFormat = ColorFormat(channels: Channels, precision: Precision)

  /** `Channels::count`. */
  function ChannelCount(c: Channels): (n: u8)
    ensures 1 <= n <= 4 && n != 2
    ensures n == 1 <==> c == Grayscale || c == Alpha
    ensures n == 3 <==> c == Rgb
    ensures n == 4 <==> c == Rgba
  {
    match c
    case Grayscale | Alpha => 1
    case Rgb => 3
    case Rgba => 4
  }

  /** `Precision::size`: the byte width of one value. */
  function PrecisionSize(p: Precision): (s: u8)
    ensures s == 1 || s == 2 || s == 4
    ensures s == 1 <==> p == U8
    ensures s == 2 <==> p == U16
    ensures s == 4 <==> p == F32
  {
    match p
    case U8 => 1
    case U16 => 2
    case F32 => 4
  }

  /** The declaration index of a variant; `bit_mask` is `1 << index`. */
  function ChannelsIndex(c: Channels): nat
  {
    match c
    case Grayscale => 0
    case Alpha => 1
    case Rgb => 2
    case Rgba => 3
  }

  function PrecisionIndex(p: Precision): nat
  {
    match p
    case U8 => 0
    case U16 => 1
    case F32 => 2
  }

  function ChannelsBitMask(c: Channels): (m: u8)
    ensures m == Pow2(ChannelsIndex(c))
  {
    match c
    case Grayscale => 1
    case Alpha => 2
    case Rgb => 4
    case Rgba => 8
  }

  function PrecisionBitMask(p: Precision): (m: u8)
    ensures m == Pow2(PrecisionIndex(p))
  {
    match p
    case U8 => 1
    case U16 => 2
    case F32 => 4
  }

  /** Every variant has its own single bit, so a `u8` bit set can hold any subset. */
  lemma BitMasksDistinct(c1: Channels, c2: Channels, p1: Precision, p2: Precision)
    ensures ChannelsBitMask(c1) == ChannelsBitMask(c2) <==> c1 == c2
    ensures PrecisionBitMask(p1) == PrecisionBitMask(p2) <==> p1 == p2
  {
  }

  /** `ColorFormat::bytes_per_pixel`: the channel count times the value size. */
  function BytesPerPixel(color: ColorFormat): (b: u8)
    ensures b in {1, 2, 3, 4, 6, 8, 12, 16}
    ensures b % PrecisionSize(color.precision) == 0
    ensures b / PrecisionSize(color.precision) == ChannelCount(color.channels)
  {
    ChannelCount(color.channels) * PrecisionSize(color.precision)
  }

  /** The width and height of a surface, in pixels. */
  datatype Size = Size(width: u32, height: u32)

  /** `Size::pixels`: the product is computed in `u64`, where it cannot overflow. */
  function Pixels(size: Size): (n: u64)
    ensures n == size.width * size.height
  {
    PixelsFit(size.width, size.height);
    size.width * size.height
  }

  lemma PixelsFit(w: u32, h: u32)
    ensures w * h <= U64_MAX
  {
    MulMonotone(w, h, U32_MAX, U32_MAX);
  }

  predicate IsEmpty(size: Size)
  {
    size.width == 0 || size.height == 0
  }

  /** A size is empty exactly when it has no pixels. */
  lemma IsEmptyIffNoPixels(size: Size)
    ensures IsEmpty(size) <==> Pixels(size) == 0
  {
    if size.width != 0 && size.height != 0 {
      MulMonotone(1, 1, size.width, size.height);
    }
  }

  /**
   * The decodable formats. The variant list is the union of the `DecodeFormat` enum
   * that `src/detect.rs` maps to and the `SupportedFormat` enum of `src/format.rs`.
   */
  datatype DecodeFormat =
    | R8G8B8_UNORM | B8G8R8_UNORM | R8G8B8A8_UNORM | R8G8B8A8_SNORM
    | B8G8R8A8_UNORM | B8G8R8X8_UNORM | B5G6R5_UNORM | B5G5R5A1_UNORM
    | B4G4R4A4_UNORM | A4B4G4R4_UNORM | R8_SNORM | R8_UNORM | R8G8_UNORM | R8G8_SNORM
    | A8_UNORM | R16_UNORM | R16_SNORM | R16G16_UNORM | R16G16_SNORM
    | R16G16B16A16_UNORM | R16G16B16A16_SNORM | R10G10B10A2_UNORM
    | R11G11B10_FLOAT | R9G9B9E5_SHAREDEXP | R16_FLOAT | R16G16_FLOAT
    | R16G16B16A16_FLOAT | R32_FLOAT | R32G32_FLOAT | R32G32B32_FLOAT
    | R32G32B32A32_FLOAT | R10G10B10_XR_BIAS_A2_UNORM | AYUV | Y410 | Y416
    | R8G8_B8G8_UNORM | G8R8_G8B8_UNORM | YUY2 | UYVY | Y210 | Y216 | R1_UNORM
    | BC1_UNORM | BC2_UNORM | BC2_UNORM_PREMULTIPLIED_ALPHA | BC3_UNORM
    | BC3_UNORM_PREMULTIPLIED_ALPHA | BC3_UNORM_RXGB | BC4_UNORM | BC4_SNORM
    | BC5_UNORM | BC5_SNORM | BC6H_UF16 | BC6H_SF16 | BC7_UNORM

  /** The errors of decoding; `LayoutError` stands for the errors of the data-layout code, `Io` for a failed read. */
  datatype DecodeError =
    | UnsupportedDxgiFormat(dxgi: Dxgi.Format)
    | UnsupportedFourCC(fourCC: FourCC.Code)
    | UnsupportedPixelFormat
    | UnsupportedColorFormat(format: DecodeFormat, color: ColorFormat, missingFeature: bool)
    | ArraySizeTooBig(arraySize: u32)
    | MemoryLimitExceeded
    | UnexpectedBufferSize(expected: nat)
    | RectOutOfBounds
    | RowPitchTooSmall(requiredMinimum: nat)
    | RectBufferTooSmall(requiredMinimum: nat)
    | LayoutError(code: nat)
    | Io

  /** A decoder of `src/format.rs`: the color format it produces and whether it is disabled. */
  datatype FormatDecoder = FormatDecoder(channels: Channels, precision: Precision, disabled: bool)

  /** The decoders of one format and the channels and precisions it declares supported. */
  datatype FormatDecoders = FormatDecoders(
    decoders: seq<FormatDecoder>,
    supportedChannels: set<Channels>,
    supportedPrecisions: set<Precision>)

  /**
   * The decoders of the three formats whose decoder set is one decoder that decodes
   * nothing and succeeds: BC6H_UF16 and BC6H_SF16 as Rgb F32, BC7_UNORM as Rgb U8.
   * Every other format has a real decoder set, which is not part of this function.
   */
  function NoopDecoders(f: DecodeFormat): (r: Option<FormatDecoders>)
    ensures r.Some? <==> f == BC6H_UF16 || f == BC6H_SF16 || f == BC7_UNORM
    ensures r.Some? ==> |r.value.decoders| == 1 && !r.value.decoders[0].disabled
    ensures r.Some? ==> r.value.decoders[0].channels == Rgb
    ensures r.Some? ==> r.value.decoders[0].precision == (if f == BC7_UNORM then U8 else F32)
  {
    match f
    case BC6H_UF16 | BC6H_SF16 => Some(SingleDecoder(Rgb, F32))
    case BC7_UNORM => Some(SingleDecoder(Rgb, U8))
    case _ => None
  }

  /** `DecoderSet::new(&[Decoder::new(c, p, ..)])`: one enabled decoder, its channels and precision. */
  function SingleDecoder(c: Channels, p: Precision): FormatDecoders
  {
    FormatDecoders([FormatDecoder(c, p, false)], {c}, {p})
  }

  /**
   * What a caller of a no-op format gets: its own color decodes (with the no-op decoder),
   * every other color is refused as absent, and `supports` holds exactly for its own color.
   */
  lemma NoopDecodersLookup(f: DecodeFormat, color: ColorFormat)
    requires NoopDecoders(f).Some?
    ensures var ds := NoopDecoders(f).value;
      var own := ColorFormat(Rgb, if f == BC7_UNORM then U8 else F32);
      (color == own ==> GetDecoder(f, ds, color) == Ok(ds.decoders[0]))
      && (color != own ==> GetDecoder(f, ds, color) == Err(UnsupportedColorFormat(f, color, false)))
      && (Supports(ds, color) <==> color == own)
  {
    var ds := NoopDecoders(f).value;
    assert ds.decoders[0] == FormatDecoder(Rgb, if f == BC7_UNORM then U8 else F32, false);
    assert FindDecoder(ds.decoders, color, 1) == None;
  }

  /** `supports(color)`: both the channels and the precision are declared supported. */
  predicate Supports(ds: FormatDecoders, color: ColorFormat)
  {
    color.channels in ds.supportedChannels && color.precision in ds.supportedPrecisions
  }

  /** The color formats made of one supported channel type and one supported precision. */
  function ProductColors(ds: FormatDecoders): set<ColorFormat>
  {
    set c, p | c in ds.supportedChannels && p in ds.supportedPrecisions :: ColorFormat(c, p)
  }

  /**
   * The documented promise of `supports`: the supported colors are all combinations of a
   * supported channel type and a supported precision, and nothing else.
   */
  lemma SupportsIsProduct(ds: FormatDecoders, color: ColorFormat)
    ensures Supports(ds, color) <==> color in ProductColors(ds)
  {
    if Supports(ds, color) {
      assert color == ColorFormat(color.channels, color.precision);
    }
  }

  predicate DecoderMatches(d: FormatDecoder, color: ColorFormat)
  {
    d.channels == color.channels && d.precision == color.precision
  }

  /** The index of the first decoder at or after `from` that produces `color`. */
  function FindDecoder(ds: seq<FormatDecoder>, color: ColorFormat, from: nat): (r: Option<nat>)
    requires from <= |ds|
    ensures r.Some? ==> (from <= r.value < |ds| && DecoderMatches(ds[r.value], color)
      && forall j | from <= j < r.value :: !DecoderMatches(ds[j], color))
    ensures r.None? ==> forall j | from <= j < |ds| :: !DecoderMatches(ds[j], color)
    decreases |ds| - from
  {
    if from == |ds| then None
    else if DecoderMatches(ds[from], color) then Some(from)
    else FindDecoder(ds, color, from + 1)
  }

  /**
   * `get_decoder`: the first decoder that produces `color`, unless it is disabled. The error
   * records whether a matching (disabled) decoder exists.
   */
  function GetDecoder(format: DecodeFormat, ds: FormatDecoders, color: ColorFormat)
    : (r: Result<FormatDecoder, DecodeError>)
    ensures r.Ok? <==> (exists i | 0 <= i < |ds.decoders| ::
      DecoderMatches(ds.decoders[i], color) && !ds.decoders[i].disabled
      && forall j | 0 <= j < i :: !DecoderMatches(ds.decoders[j], color))
    ensures r.Ok? ==> r.value in ds.decoders && DecoderMatches(r.value, color) && !r.value.disabled
    ensures r.Err? ==> r.error == UnsupportedColorFormat(format, color,
      exists i | 0 <= i < |ds.decoders| :: DecoderMatches(ds.decoders[i], color))
  {
    match FindDecoder(ds.decoders, color, 0)
    case Some(i) =>
      if !ds.decoders[i].disabled then Ok(ds.decoders[i])
      else Err(UnsupportedColorFormat(format, color, true))
    case None => Err(UnsupportedColorFormat(format, color, false))
  }
}
