/**
 * Format detection of `src/detect.rs`: the DXGI, FourCC and bit-mask tables that name the
 * format of a surface. `FromHeader` (`SupportedFormat::from_header` of `src/format.rs`) is
 * kept here, beside the three lookups it chooses between.
 */
module Detect {
  import opened Wrappers
  import opened Util
  import opened Header
  import opened Format
  import Dxgi
  import FourCC

  /** `special_cases`: premultiplied BC2 and BC3 are told apart only by the DX10 alpha mode. */
  function SpecialCases(dx10: Dx10Header): (r: Option<DecodeFormat>)
    ensures r.Some? <==> (dx10.alphaMode == Premultiplied
      && (dx10.dxgiFormat == Dxgi.BC2_UNORM || dx10.dxgiFormat == Dxgi.BC3_UNORM))
    ensures r.Some? ==> (r.value in {BC2_UNORM_PREMULTIPLIED_ALPHA, BC3_UNORM_PREMULTIPLIED_ALPHA}
      && (r.value == BC2_UNORM_PREMULTIPLIED_ALPHA <==> dx10.dxgiFormat == Dxgi.BC2_UNORM))
  {
    if dx10.alphaMode == Premultiplied then
      if dx10.dxgiFormat == Dxgi.BC2_UNORM then Some(BC2_UNORM_PREMULTIPLIED_ALPHA)
      else if dx10.dxgiFormat == Dxgi.BC3_UNORM then Some(BC3_UNORM_PREMULTIPLIED_ALPHA)
      else None
    else None
  }

  /** `dxgi_format_to_supported`. */
  function DxgiFormatToSupported(d: Dxgi.Format): (r: Option<DecodeFormat>)
    ensures r != Some(BC2_UNORM_PREMULTIPLIED_ALPHA) && r != Some(BC3_UNORM_PREMULTIPLIED_ALPHA)
    ensures r != Some(BC3_UNORM_RXGB) && r != Some(UYVY)
  {
    // uncompressed formats
    if d == Dxgi.R8G8B8A8_TYPELESS || d == Dxgi.R8G8B8A8_UNORM || d == Dxgi.R8G8B8A8_UNORM_SRGB then Some(R8G8B8A8_UNORM)
    else if d == Dxgi.R8G8B8A8_SNORM then Some(R8G8B8A8_SNORM)
    else if d == Dxgi.B8G8R8A8_TYPELESS || d == Dxgi.B8G8R8A8_UNORM || d == Dxgi.B8G8R8A8_UNORM_SRGB then Some(B8G8R8A8_UNORM)
    else if d == Dxgi.B8G8R8X8_TYPELESS || d == Dxgi.B8G8R8X8_UNORM || d == Dxgi.B8G8R8X8_UNORM_SRGB then Some(B8G8R8X8_UNORM)
    else if d == Dxgi.B5G6R5_UNORM then Some(B5G6R5_UNORM)
    else if d == Dxgi.B5G5R5A1_UNORM then Some(B5G5R5A1_UNORM)
    else if d == Dxgi.B4G4R4A4_UNORM then Some(B4G4R4A4_UNORM)
    else if d == Dxgi.A4B4G4R4_UNORM then Some(A4B4G4R4_UNORM)
    else if d == Dxgi.R8_TYPELESS || d == Dxgi.R8_UNORM then Some(R8_UNORM)
    else if d == Dxgi.R8_SNORM then Some(R8_SNORM)
    else if d == Dxgi.R8G8_UNORM then Some(R8G8_UNORM)
    else if d == Dxgi.R8G8_SNORM then Some(R8G8_SNORM)
    else if d == Dxgi.A8_UNORM then Some(A8_UNORM)
    else if d == Dxgi.R16_TYPELESS || d == Dxgi.R16_UNORM then Some(R16_UNORM)
    else if d == Dxgi.R16_SNORM then Some(R16_SNORM)
    else if d == Dxgi.R16_FLOAT then Some(R16_FLOAT)
    else if d == Dxgi.R16G16_TYPELESS || d == Dxgi.R16G16_UNORM then Some(R16G16_UNORM)
    else if d == Dxgi.R16G16_SNORM then Some(R16G16_SNORM)
    else if d == Dxgi.R16G16_FLOAT then Some(R16G16_FLOAT)
    else if d == Dxgi.R16G16B16A16_TYPELESS || d == Dxgi.R16G16B16A16_UNORM then Some(R16G16B16A16_UNORM)
    else if d == Dxgi.R16G16B16A16_SNORM then Some(R16G16B16A16_SNORM)
    else if d == Dxgi.R16G16B16A16_FLOAT then Some(R16G16B16A16_FLOAT)
    else if d == Dxgi.R10G10B10A2_TYPELESS || d == Dxgi.R10G10B10A2_UNORM then Some(R10G10B10A2_UNORM)
    else if d == Dxgi.R11G11B10_FLOAT then Some(R11G11B10_FLOAT)
    else if d == Dxgi.R9G9B9E5_SHAREDEXP then Some(R9G9B9E5_SHAREDEXP)
    else if d == Dxgi.R32_TYPELESS || d == Dxgi.R32_FLOAT then Some(R32_FLOAT)
    else if d == Dxgi.R32G32_TYPELESS || d == Dxgi.R32G32_FLOAT then Some(R32G32_FLOAT)
    else if d == Dxgi.R32G32B32_TYPELESS || d == Dxgi.R32G32B32_FLOAT then Some(R32G32B32_FLOAT)
    else if d == Dxgi.R32G32B32A32_TYPELESS || d == Dxgi.R32G32B32A32_FLOAT then Some(R32G32B32A32_FLOAT)
    else if d == Dxgi.R10G10B10_XR_BIAS_A2_UNORM then Some(R10G10B10_XR_BIAS_A2_UNORM)
    else if d == Dxgi.AYUV then Some(AYUV)
    else if d == Dxgi.Y410 then Some(Y410)
    else if d == Dxgi.Y416 then Some(Y416)
    // sub-sampled formats
    else if d == Dxgi.R8G8_B8G8_UNORM then Some(R8G8_B8G8_UNORM)
    else if d == Dxgi.G8R8_G8B8_UNORM then Some(G8R8_G8B8_UNORM)
    else if d == Dxgi.YUY2 then Some(YUY2)
    else if d == Dxgi.Y210 then Some(Y210)
    else if d == Dxgi.Y216 then Some(Y216)
    else if d == Dxgi.R1_UNORM then Some(R1_UNORM)
    // block compression formats
    else if d == Dxgi.BC1_TYPELESS || d == Dxgi.BC1_UNORM || d == Dxgi.BC1_UNORM_SRGB then Some(BC1_UNORM)
    else if d == Dxgi.BC2_TYPELESS || d == Dxgi.BC2_UNORM || d == Dxgi.BC2_UNORM_SRGB then Some(BC2_UNORM)
    else if d == Dxgi.BC3_TYPELESS || d == Dxgi.BC3_UNORM || d == Dxgi.BC3_UNORM_SRGB then Some(BC3_UNORM)
    else if d == Dxgi.BC4_TYPELESS || d == Dxgi.BC4_UNORM then Some(BC4_UNORM)
    else if d == Dxgi.BC4_SNORM then Some(BC4_SNORM)
    else if d == Dxgi.BC5_TYPELESS || d == Dxgi.BC5_UNORM then Some(BC5_UNORM)
    else if d == Dxgi.BC5_SNORM then Some(BC5_SNORM)
    else if d == Dxgi.BC6H_TYPELESS || d == Dxgi.BC6H_UF16 then Some(BC6H_UF16)
    else if d == Dxgi.BC6H_SF16 then Some(BC6H_SF16)
    else if d == Dxgi.BC7_TYPELESS || d == Dxgi.BC7_UNORM || d == Dxgi.BC7_UNORM_SRGB then Some(BC7_UNORM)
    else None
  }

  /** The TYPELESS, UNORM and UNORM_SRGB members of a DXGI family decode the same way. */
  lemma UncompressedFamiliesDecodeAlike(d: Dxgi.Format)
    ensures d == Dxgi.R8G8B8A8_TYPELESS || d == Dxgi.R8G8B8A8_UNORM || d == Dxgi.R8G8B8A8_UNORM_SRGB
      ==> DxgiFormatToSupported(d) == Some(R8G8B8A8_UNORM)
    ensures d == Dxgi.B8G8R8A8_TYPELESS || d == Dxgi.B8G8R8A8_UNORM || d == Dxgi.B8G8R8A8_UNORM_SRGB
      ==> DxgiFormatToSupported(d) == Some(B8G8R8A8_UNORM)
    ensures d == Dxgi.B8G8R8X8_TYPELESS || d == Dxgi.B8G8R8X8_UNORM || d == Dxgi.B8G8R8X8_UNORM_SRGB
      ==> DxgiFormatToSupported(d) == Some(B8G8R8X8_UNORM)
    ensures d == Dxgi.R8_TYPELESS || d == Dxgi.R8_UNORM ==> DxgiFormatToSupported(d) == Some(R8_UNORM)
    ensures d == Dxgi.R16_TYPELESS || d == Dxgi.R16_UNORM ==> DxgiFormatToSupported(d) == Some(R16_UNORM)
  {
  }

  lemma CompressedFamiliesDecodeAlike(d: Dxgi.Format)
    ensures d == Dxgi.BC1_TYPELESS || d == Dxgi.BC1_UNORM || d == Dxgi.BC1_UNORM_SRGB
      ==> DxgiFormatToSupported(d) == Some(BC1_UNORM)
    ensures d == Dxgi.BC2_TYPELESS || d == Dxgi.BC2_UNORM || d == Dxgi.BC2_UNORM_SRGB
      ==> DxgiFormatToSupported(d) == Some(BC2_UNORM)
    ensures d == Dxgi.BC3_TYPELESS || d == Dxgi.BC3_UNORM || d == Dxgi.BC3_UNORM_SRGB
      ==> DxgiFormatToSupported(d) == Some(BC3_UNORM)
    ensures d == Dxgi.BC7_TYPELESS || d == Dxgi.BC7_UNORM || d == Dxgi.BC7_UNORM_SRGB
      ==> DxgiFormatToSupported(d) == Some(BC7_UNORM)
    ensures d == Dxgi.BC6H_TYPELESS || d == Dxgi.BC6H_UF16 ==> DxgiFormatToSupported(d) == Some(BC6H_UF16)
  {
  }

  /** An sRGB format decodes exactly as its linear sibling does: sRGB changes no decoding. */
  lemma SrgbFormatsDecodable(d: Dxgi.Format)
    requires Dxgi.IsSrgbFormat(d)
    ensures DxgiFormatToSupported(d).Some?
    ensures DxgiFormatToSupported(d) == DxgiFormatToSupported(Dxgi.LinearSibling(d))
  {
  }

  /**
   * Formats outside the table have no decoder: among them the integer (UINT/SINT), depth and
   * planar video formats, which the DXGI numbering places between the listed ones.
   */
  lemma UnlistedDxgiUnsupported(d: Dxgi.Format)
    requires d == 0 || 3 <= d <= 4 || 7 <= d <= 8 || d == 12 || d == 14 || 17 <= d <= 22
      || d == 25 || d == 30 || d == 32 || d == 36 || d == 38 || d == 40 || 42 <= d <= 48
      || d == 50 || d == 52 || d == 55 || d == 57 || d == 59 || d == 62 || d == 64
      || 103 <= d <= 106 || 110 <= d <= 114 || 116 <= d <= 190 || d >= 192
    ensures DxgiFormatToSupported(d) == None
  {
  }

  /** `four_cc_to_dxgi`. */
  function FourCCToDxgi(f: FourCC.Code): (r: Option<Dxgi.Format>)
    ensures r.Some? ==> DxgiFormatToSupported(r.value).Some?
  {
    if f == FourCC.DXT1 then Some(Dxgi.BC1_UNORM)
    else if f == FourCC.DXT3 then Some(Dxgi.BC2_UNORM)
    else if f == FourCC.DXT5 then Some(Dxgi.BC3_UNORM)
    else if f == FourCC.ATI1 then Some(Dxgi.BC4_UNORM)
    else if f == FourCC.BC4U then Some(Dxgi.BC4_UNORM)
    else if f == FourCC.BC4S then Some(Dxgi.BC4_SNORM)
    else if f == FourCC.ATI2 then Some(Dxgi.BC5_UNORM)
    else if f == FourCC.BC5U then Some(Dxgi.BC5_UNORM)
    else if f == FourCC.BC5S then Some(Dxgi.BC5_SNORM)
    else if f == FourCC.RGBG then Some(Dxgi.R8G8_B8G8_UNORM)
    else if f == FourCC.GRGB then Some(Dxgi.G8R8_G8B8_UNORM)
    else if f == FourCC.YUY2 then Some(Dxgi.YUY2)
    else if f == FourCC.D3DFMT_A16B16G16R16 then Some(Dxgi.R16G16B16A16_UNORM)
    else if f == FourCC.D3DFMT_Q16W16V16U16 then Some(Dxgi.R16G16B16A16_SNORM)
    else if f == FourCC.D3DFMT_R16F then Some(Dxgi.R16_FLOAT)
    else if f == FourCC.D3DFMT_G16R16F then Some(Dxgi.R16G16_FLOAT)
    else if f == FourCC.D3DFMT_A16B16G16R16F then Some(Dxgi.R16G16B16A16_FLOAT)
    else if f == FourCC.D3DFMT_R32F then Some(Dxgi.R32_FLOAT)
    else if f == FourCC.D3DFMT_G32R32F then Some(Dxgi.R32G32_FLOAT)
    else if f == FourCC.D3DFMT_A32B32G32R32F then Some(Dxgi.R32G32B32A32_FLOAT)
    else None
  }

  /** `dxgi_to_four_cc`: the canonical FourCC of a DXGI format (BC4U/BC5U, not ATI1/ATI2). */
  function DxgiToFourCC(d: Dxgi.Format): Option<FourCC.Code>
  {
    if d == Dxgi.BC1_UNORM then Some(FourCC.DXT1)
    else if d == Dxgi.BC2_UNORM then Some(FourCC.DXT3)
    else if d == Dxgi.BC3_UNORM then Some(FourCC.DXT5)
    else if d == Dxgi.BC4_UNORM then Some(FourCC.BC4U)
    else if d == Dxgi.BC4_SNORM then Some(FourCC.BC4S)
    else if d == Dxgi.BC5_UNORM then Some(FourCC.BC5U)
    else if d == Dxgi.BC5_SNORM then Some(FourCC.BC5S)
    else if d == Dxgi.R8G8_B8G8_UNORM then Some(FourCC.RGBG)
    else if d == Dxgi.G8R8_G8B8_UNORM then Some(FourCC.GRGB)
    else if d == Dxgi.YUY2 then Some(FourCC.YUY2)
    else if d == Dxgi.R16G16B16A16_UNORM then Some(FourCC.D3DFMT_A16B16G16R16)
    else if d == Dxgi.R16G16B16A16_SNORM then Some(FourCC.D3DFMT_Q16W16V16U16)
    else if d == Dxgi.R16_FLOAT then Some(FourCC.D3DFMT_R16F)
    else if d == Dxgi.R16G16_FLOAT then Some(FourCC.D3DFMT_G16R16F)
    else if d == Dxgi.R16G16B16A16_FLOAT then Some(FourCC.D3DFMT_A16B16G16R16F)
    else if d == Dxgi.R32_FLOAT then Some(FourCC.D3DFMT_R32F)
    else if d == Dxgi.R32G32_FLOAT then Some(FourCC.D3DFMT_G32R32F)
    else if d == Dxgi.R32G32B32A32_FLOAT then Some(FourCC.D3DFMT_A32B32G32R32F)
    else None
  }

  /** DXGI to FourCC and back gives the DXGI format again. */
  lemma DxgiFourCCRoundTrip(d: Dxgi.Format)
    ensures DxgiToFourCC(d).Some? ==> FourCCToDxgi(DxgiToFourCC(d).value) == Some(d)
  {
  }

  /**
   * Every DXGI format a FourCC names has a canonical FourCC, which names the same format;
   * the aliases ATI1 and ATI2 are the only codes that are not canonical.
   */
  lemma FourCCDxgiRoundTrip(f: FourCC.Code)
    ensures FourCCToDxgi(f).Some? ==> (DxgiToFourCC(FourCCToDxgi(f).value).Some?
      && FourCCToDxgi(DxgiToFourCC(FourCCToDxgi(f).value).value) == FourCCToDxgi(f))
    ensures FourCCToDxgi(f).Some? && DxgiToFourCC(FourCCToDxgi(f).value) != Some(f) ==>
      f == FourCC.ATI1 || f == FourCC.ATI2
  {
  }

  /** `four_cc_to_supported`: through DXGI where possible, else the four codes DXGI has no name for. */
  function FourCCToSupported(f: FourCC.Code): (r: Option<DecodeFormat>)
  {
    match FourCCToDxgi(f)
    case Some(d) => DxgiFormatToSupported(d)
    case None =>
      if f == FourCC.DXT2 then Some(BC2_UNORM_PREMULTIPLIED_ALPHA)
      else if f == FourCC.DXT4 then Some(BC3_UNORM_PREMULTIPLIED_ALPHA)
      else if f == FourCC.RXGB then Some(BC3_UNORM_RXGB)
      else if f == FourCC.UYVY then Some(UYVY)
      else None
  }

  /** A FourCC with a DXGI equivalent decodes as that DXGI format, and always decodes. */
  lemma FourCCAgreesWithDxgi(f: FourCC.Code)
    requires FourCCToDxgi(f).Some?
    ensures FourCCToSupported(f) == DxgiFormatToSupported(FourCCToDxgi(f).value)
    ensures FourCCToSupported(f).Some?
  {
  }

  /** Only DXT2, DXT4, RXGB and UYVY are decoded without a DXGI equivalent. */
  lemma FourCCFallbackCodes(f: FourCC.Code)
    requires FourCCToDxgi(f).None?
    ensures FourCCToSupported(f).Some? <==>
      f == FourCC.DXT2 || f == FourCC.DXT4 || f == FourCC.RXGB || f == FourCC.UYVY
  {
  }

  /** `PFPattern::matches`: field-for-field equality on all six fields. */
  predicate Matches(pattern: MaskPixelFormat, pf: MaskPixelFormat)
  {
    pf.flags == pattern.flags
    && pf.rgbBitCount == pattern.rgbBitCount
    && pf.rBitMask == pattern.rBitMask
    && pf.gBitMask == pattern.gBitMask
    && pf.bBitMask == pattern.bBitMask
    && pf.aBitMask == pattern.aBitMask
  }

  /** Matching a pattern is the same as being equal to it. */
  lemma MatchesIsEquality(pattern: MaskPixelFormat, pf: MaskPixelFormat)
    ensures Matches(pattern, pf) <==> pattern == pf
  {
  }

  /** A row of `KNOWN_PIXEL_FORMATS`. */
  datatype KnownFormat = KnownFormat(pattern: MaskPixelFormat, dxgi: Option<Dxgi.Format>, format: DecodeFormat)

  function AlphaOnly(bitCount: u32, aMask: u32): MaskPixelFormat
  {
    MaskPixelFormat(ALPHA, bitCount, 0, 0, 0, aMask)
  }

  function Grayscale(bitCount: u32, rMask: u32): MaskPixelFormat
  {
    MaskPixelFormat(LUMINANCE, bitCount, rMask, 0, 0, 0)
  }

  function RgbPattern(bitCount: u32, rMask: u32, gMask: u32, bMask: u32): MaskPixelFormat
  {
    MaskPixelFormat(RGB, bitCount, rMask, gMask, bMask, 0)
  }

  function RgbaPattern(bitCount: u32, rMask: u32, gMask: u32, bMask: u32, aMask: u32): MaskPixelFormat
  {
    MaskPixelFormat(RGBA, bitCount, rMask, gMask, bMask, aMask)
  }

  function SnormPattern(bitCount: u32, rMask: u32, gMask: u32, bMask: u32, aMask: u32): MaskPixelFormat
  {
    MaskPixelFormat(BUMP_DUDV, bitCount, rMask, gMask, bMask, aMask)
  }

  /** `KNOWN_PIXEL_FORMATS`, in the order of the source. */
  const KnownPixelFormats: seq<KnownFormat> := [
    // alpha
    KnownFormat(AlphaOnly(8, 0xFF), Some(Dxgi.A8_UNORM), A8_UNORM),
    // grayscale
    KnownFormat(Grayscale(8, 0xFF), Some(Dxgi.R8_UNORM), R8_UNORM),
    KnownFormat(Grayscale(8, 0xFF).(flags := RGB_LUMINANCE), Some(Dxgi.R8_UNORM), R8_UNORM),
    KnownFormat(Grayscale(16, 0xFFFF), Some(Dxgi.R16_UNORM), R16_UNORM),
    // rgb
    KnownFormat(RgbPattern(16, 0xF800, 0x07E0, 0x001F), Some(Dxgi.B5G6R5_UNORM), B5G6R5_UNORM),
    KnownFormat(RgbPattern(32, 0xFF0000, 0xFF00, 0xFF), Some(Dxgi.B8G8R8X8_UNORM), B8G8R8X8_UNORM),
    KnownFormat(RgbPattern(32, 0xFFFF, 0xFFFF0000, 0), Some(Dxgi.R16G16_UNORM), R16G16_UNORM),
    KnownFormat(RgbPattern(16, 0xFF, 0xFF00, 0), Some(Dxgi.R8G8_UNORM), R8G8_UNORM),
    KnownFormat(RgbPattern(24, 0xFF0000, 0xFF00, 0xFF), None, B8G8R8_UNORM),
    KnownFormat(RgbPattern(24, 0xFF, 0xFF00, 0xFF0000), None, R8G8B8_UNORM),
    // rgba
    KnownFormat(RgbaPattern(16, 0xF00, 0xF0, 0xF, 0xF000), Some(Dxgi.B4G4R4A4_UNORM), B4G4R4A4_UNORM),
    KnownFormat(RgbaPattern(16, 0x7C00, 0x3E0, 0x1F, 0x8000), Some(Dxgi.B5G5R5A1_UNORM), B5G5R5A1_UNORM),
    KnownFormat(RgbaPattern(32, 0xFF0000, 0xFF00, 0xFF, 0xFF000000), Some(Dxgi.B8G8R8A8_UNORM), B8G8R8A8_UNORM),
    KnownFormat(RgbaPattern(32, 0xFF, 0xFF00, 0xFF0000, 0xFF000000), Some(Dxgi.R8G8B8A8_UNORM), R8G8B8A8_UNORM),
    KnownFormat(RgbaPattern(32, 0x3FF00000, 0xFFC00, 0x3FF, 0xC0000000), Some(Dxgi.R10G10B10A2_UNORM), R10G10B10A2_UNORM),
    // snorm
    KnownFormat(SnormPattern(32, 0xFF, 0xFF00, 0xFF0000, 0xFF000000), Some(Dxgi.R8G8B8A8_SNORM), R8G8B8A8_SNORM),
    KnownFormat(SnormPattern(16, 0xFF, 0xFF00, 0, 0), Some(Dxgi.R8G8_SNORM), R8G8_SNORM),
    KnownFormat(SnormPattern(32, 0xFFFF, 0xFFFF0000, 0, 0), Some(Dxgi.R16G16_SNORM), R16G16_SNORM),
    // special: LUMINANCE + ALPHAPIXELS is used for R8G8_UNORM
    KnownFormat(MaskPixelFormat(LUMINANCE_ALPHA, 16, 0xFF, 0, 0, 0xFF00), Some(Dxgi.R8G8_UNORM), R8G8_UNORM)
  ]

  /** The index of the first row at or after `from` whose pattern matches `pf`. */
  function FindPattern(rows: seq<KnownFormat>, pf: MaskPixelFormat, from: nat): (r: Option<nat>)
    requires from <= |rows|
    ensures r.Some? ==> (from <= r.value < |rows| && Matches(rows[r.value].pattern, pf)
      && forall j | from <= j < r.value :: !Matches(rows[j].pattern, pf))
    ensures r.None? ==> forall j | from <= j < |rows| :: !Matches(rows[j].pattern, pf)
    decreases |rows| - from
  {
    if from == |rows| then None
    else if Matches(rows[from].pattern, pf) then Some(from)
    else FindPattern(rows, pf, from + 1)
  }

  /** The index of the first row at or after `from` that names the DXGI format `d`. */
  function FindDxgi(rows: seq<KnownFormat>, d: Dxgi.Format, from: nat): (r: Option<nat>)
    requires from <= |rows|
    ensures r.Some? ==> (from <= r.value < |rows| && rows[r.value].dxgi == Some(d)
      && forall j | from <= j < r.value :: rows[j].dxgi != Some(d))
    ensures r.None? ==> forall j | from <= j < |rows| :: rows[j].dxgi != Some(d)
    decreases |rows| - from
  {
    if from == |rows| then None
    else if rows[from].dxgi == Some(d) then Some(from)
    else FindDxgi(rows, d, from + 1)
  }

  /** `pixel_format_to_supported`: the format of the first matching row. */
  function PixelFormatToSupported(pf: MaskPixelFormat): (r: Option<DecodeFormat>)
    ensures r.Some? <==> exists i | 0 <= i < |KnownPixelFormats| :: Matches(KnownPixelFormats[i].pattern, pf)
    ensures r.Some? ==> exists i | 0 <= i < |KnownPixelFormats| ::
      Matches(KnownPixelFormats[i].pattern, pf) && r.value == KnownPixelFormats[i].format
      && forall j | 0 <= j < i :: !Matches(KnownPixelFormats[j].pattern, pf)
  {
    match FindPattern(KnownPixelFormats, pf, 0)
    case Some(i) => Some(KnownPixelFormats[i].format)
    case None => None
  }

  /** `pixel_format_to_dxgi`: the DXGI format of the first matching row, if it has one. */
  function PixelFormatToDxgi(pf: MaskPixelFormat): (r: Option<Dxgi.Format>)
    ensures r.Some? ==> exists i | 0 <= i < |KnownPixelFormats| ::
      Matches(KnownPixelFormats[i].pattern, pf) && KnownPixelFormats[i].dxgi == r
      && forall j | 0 <= j < i :: !Matches(KnownPixelFormats[j].pattern, pf)
    ensures r.None? ==> forall i | 0 <= i < |KnownPixelFormats| ::
      Matches(KnownPixelFormats[i].pattern, pf)
      && (forall j | 0 <= j < i :: !Matches(KnownPixelFormats[j].pattern, pf))
      ==> KnownPixelFormats[i].dxgi.None?
  {
    match FindPattern(KnownPixelFormats, pf, 0)
    case Some(i) => KnownPixelFormats[i].dxgi
    case None => None
  }

  /** `dxgi_to_pixel_format`: the pattern of the first row naming `d`. */
  function DxgiToPixelFormat(d: Dxgi.Format): (r: Option<MaskPixelFormat>)
    ensures r.Some? <==> exists i | 0 <= i < |KnownPixelFormats| :: KnownPixelFormats[i].dxgi == Some(d)
    ensures r.Some? ==> exists i | 0 <= i < |KnownPixelFormats| ::
      KnownPixelFormats[i].dxgi == Some(d) && r.value == KnownPixelFormats[i].pattern
      && forall j | 0 <= j < i :: KnownPixelFormats[j].dxgi != Some(d)
  {
    match FindDxgi(KnownPixelFormats, d, 0)
    case Some(i) => Some(KnownPixelFormats[i].pattern)
    case None => None
  }

  predicate PatternsDistinct(rows: seq<KnownFormat>)
  {
    forall i, j | 0 <= i < j < |rows| :: rows[i].pattern != rows[j].pattern
  }

  /** No two rows of the table share a pattern. */
  lemma KnownPatternsDistinct()
    ensures PatternsDistinct(KnownPixelFormats)
  {
    LaterPatternsDiffer0();
    LaterPatternsDiffer1();
    LaterPatternsDiffer2();
  }

  /** Rows 0 to 4 of the table share no pattern with a later row. */
  lemma LaterPatternsDiffer0()
    ensures forall i, j | 0 <= i < 5 && i < j < |KnownPixelFormats| ::
      KnownPixelFormats[i].pattern != KnownPixelFormats[j].pattern
  {
    var t := KnownPixelFormats;
    forall i, j | 0 <= i < 5 && i < j < |t| ensures t[i].pattern != t[j].pattern {
      if i == 0 {} else if i == 1 {} else if i == 2 {} else if i == 3 {} else {}
    }
  }

  /** Rows 5 to 10 of the table share no pattern with a later row. */
  lemma LaterPatternsDiffer1()
    ensures forall i, j | 5 <= i < 11 && i < j < |KnownPixelFormats| ::
      KnownPixelFormats[i].pattern != KnownPixelFormats[j].pattern
  {
    var t := KnownPixelFormats;
    forall i, j | 5 <= i < 11 && i < j < |t| ensures t[i].pattern != t[j].pattern {
      if i == 5 {} else if i == 6 {} else if i == 7 {} else if i == 8 {} else if i == 9 {} else {}
    }
  }

  /** Rows 11 to 18 of the table share no pattern with a later row. */
  lemma LaterPatternsDiffer2()
    ensures forall i, j | 11 <= i < 19 && i < j < |KnownPixelFormats| ::
      KnownPixelFormats[i].pattern != KnownPixelFormats[j].pattern
  {
    var t := KnownPixelFormats;
    forall i, j | 11 <= i < 19 && i < j < |t| ensures t[i].pattern != t[j].pattern {
      if i == 11 {} else if i == 12 {} else if i == 13 {} else if i == 14 {} else if i == 15 {} else if i == 16 {} else if i == 17 {} else {}
    }
  }

  /** In a table of distinct patterns, a row's own pattern finds that row first. */
  lemma FindOwnPattern(rows: seq<KnownFormat>, i: nat)
    requires PatternsDistinct(rows) && i < |rows|
    ensures FindPattern(rows, rows[i].pattern, 0) == Some(i)
  {
  }

  /** The pattern written for a DXGI format reads back as that DXGI format. */
  lemma DxgiPixelFormatRoundTrip(d: Dxgi.Format)
    ensures DxgiToPixelFormat(d).Some? ==> PixelFormatToDxgi(DxgiToPixelFormat(d).value) == Some(d)
  {
    match FindDxgi(KnownPixelFormats, d, 0)
    case Some(i) =>
      KnownPatternsDistinct();
      FindOwnPattern(KnownPixelFormats, i);
    case None =>
  }

  /** Every row naming a DXGI format decodes as that DXGI format does. */
  lemma KnownPixelFormatsAgreeWithDxgi(i: nat)
    requires i < |KnownPixelFormats| && KnownPixelFormats[i].dxgi.Some?
    ensures DxgiFormatToSupported(KnownPixelFormats[i].dxgi.value) == Some(KnownPixelFormats[i].format)
  {
    var t := KnownPixelFormats;
    if i == 0 {} else if i == 1 {} else if i == 2 {} else if i == 3 {} else if i == 4 {}
    else if i == 5 {} else if i == 6 {} else if i == 7 {} else if i == 8 {} else if i == 9 {}
    else if i == 10 {} else if i == 11 {} else if i == 12 {} else if i == 13 {} else if i == 14 {}
    else if i == 15 {} else if i == 16 {} else if i == 17 {} else {}
  }

  /** A concrete identification: the 16-bit 5-6-5 RGB mask is B5G6R5_UNORM. */
  lemma ExampleMaskDetection()
    ensures PixelFormatToSupported(MaskPixelFormat(RGB, 16, 0xF800, 0x07E0, 0x001F, 0)) == Some(B5G6R5_UNORM)
  {
    var pf := MaskPixelFormat(RGB, 16, 0xF800, 0x07E0, 0x001F, 0);
    assert KnownPixelFormats[4].pattern == pf;
    KnownPatternsDistinct();
    FindOwnPattern(KnownPixelFormats, 4);
  }

  /** A concrete identification: FourCC DXT1 is BC1_UNORM. */
  lemma ExampleFourCCDetection()
    ensures FourCCToSupported(FourCC.DXT1) == Some(BC1_UNORM)
  {
  }

  /**
   * `SupportedFormat::from_header`: the DXGI format of a DX10 header if there is one, else the
   * FourCC code, else the bit masks; each path has its own error.
   */
  function FromHeader(h: Header): (r: Result<DecodeFormat, DecodeError>)
    ensures h.dxt10.Some? ==>
      (r.Ok? <==> DxgiFormatToSupported(h.dxt10.value.dxgiFormat).Some?)
      && (r.Ok? ==> Some(r.value) == DxgiFormatToSupported(h.dxt10.value.dxgiFormat))
      && (r.Err? ==> r.error == UnsupportedDxgiFormat(h.dxt10.value.dxgiFormat))
    ensures h.dxt10.None? && h.pixelFormat.fourCC.Some? ==>
      (r.Ok? <==> FourCCToSupported(h.pixelFormat.fourCC.value).Some?)
      && (r.Ok? ==> Some(r.value) == FourCCToSupported(h.pixelFormat.fourCC.value))
      && (r.Err? ==> r.error == UnsupportedFourCC(h.pixelFormat.fourCC.value))
    ensures h.dxt10.None? && h.pixelFormat.fourCC.None? ==>
      (r.Ok? <==> PixelFormatToSupported(h.pixelFormat.masks).Some?)
      && (r.Ok? ==> Some(r.value) == PixelFormatToSupported(h.pixelFormat.masks))
      && (r.Err? ==> r.error == UnsupportedPixelFormat)
  {
    if h.dxt10.Some? then
      match DxgiFormatToSupported(h.dxt10.value.dxgiFormat)
      case Some(f) => Ok(f)
      case None => Err(UnsupportedDxgiFormat(h.dxt10.value.dxgiFormat))
    else if h.pixelFormat.fourCC.Some? then
      match FourCCToSupported(h.pixelFormat.fourCC.value)
      case Some(f) => Ok(f)
      case None => Err(UnsupportedFourCC(h.pixelFormat.fourCC.value))
    else
      match PixelFormatToSupported(h.pixelFormat.masks)
      case Some(f) => Ok(f)
      case None => Err(UnsupportedPixelFormat)
  }

  /**
   * Rewriting a DX10 header as a legacy one, with the FourCC or the bit masks of its DXGI
   * format, does not change the detected format.
   */
  lemma LegacyHeaderDetectsAlike(h: Header)
    requires h.dxt10.Some?
    ensures var d := h.dxt10.value.dxgiFormat;
      DxgiToFourCC(d).Some? ==>
        FromHeader(h.(dxt10 := None, pixelFormat := h.pixelFormat.(fourCC := DxgiToFourCC(d)))) == FromHeader(h)
    ensures var d := h.dxt10.value.dxgiFormat;
      DxgiToPixelFormat(d).Some? ==>
        FromHeader(h.(dxt10 := None, pixelFormat := PixelFormat(None, DxgiToPixelFormat(d).value))) == FromHeader(h)
  {
    var d := h.dxt10.value.dxgiFormat;
    if DxgiToFourCC(d).Some? {
      DxgiFourCCRoundTrip(d);
      FourCCAgreesWithDxgi(DxgiToFourCC(d).value);
    }
    match FindDxgi(KnownPixelFormats, d, 0)
    case Some(i) =>
      KnownPatternsDistinct();
      FindOwnPattern(KnownPixelFormats, i);
      KnownPixelFormatsAgreeWithDxgi(i);
    case None =>
  }
}
