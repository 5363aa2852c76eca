/**
 * The parts of the DDS header the modelled code reads. The header module itself
 * (parsing, validation, `DataLayout`) is not part of this model; these types carry
 * only the fields and constants the detection, repair and decoding code relies on.
 */
module Header {
  import opened Wrappers
  import opened Util
  import Dxgi
  import FourCC

  /** DDS_PIXELFORMAT flag bits. */
  type PixelFormatFlags = u32

  const ALPHAPIXELS: PixelFormatFlags := 0x1
  const ALPHA: PixelFormatFlags := 0x2
  const FOURCC: PixelFormatFlags := 0x4
  const RGB: PixelFormatFlags := 0x40
  const LUMINANCE: PixelFormatFlags := 0x2_0000
  const BUMP_DUDV: PixelFormatFlags := 0x8_0000
  const RGBA: PixelFormatFlags := 0x41
  const LUMINANCE_ALPHA: PixelFormatFlags := 0x2_0001
  const RGB_LUMINANCE: PixelFormatFlags := 0x2_0040

  /** A legacy bit-mask pixel format. */
  datatype MaskPixelFormat = MaskPixelFormat(
    flags: PixelFormatFlags,
    rgbBitCount: u32,
    rBitMask: u32,
    gBitMask: u32,
    bBitMask: u32,
    aBitMask: u32)

  /** The legacy pixel format: an optional FourCC code, else a bit-mask description. */
  datatype PixelFormat = PixelFormat(fourCC: Option<FourCC.Code>, masks: MaskPixelFormat)

  datatype AlphaMode = Unknown | Straight | Premultiplied | Opaque | Custom

  datatype ResourceDimension = Texture1D | Texture2D | Texture3D

  /** The DX10 header extension; `textureCube` is the TEXTURE_CUBE bit of `misc_flag`. */
  datatype Dx10Header = Dx10Header(
    dxgiFormat: Dxgi.Format,
    resourceDimension: ResourceDimension,
    textureCube: bool,
    arraySize: u32,
    alphaMode: AlphaMode)

  /** The header fields of a DDS file; `mipmapCount` is a `NonZeroU32` in the source. */
  datatype Header = Header(
    width: u32,
    height: u32,
    depth: Option<u32>,
    mipmapCount: u32,
    pixelFormat: PixelFormat,
    dxt10: Option<Dx10Header>)

  predicate ValidHeader(h: Header)
  {
    h.mipmapCount >= 1
  }

  /** Byte lengths: the "DDS " magic, the header, the DX10 extension. */
  const MAGIC_LEN: nat := 4
  const HEADER_SIZE: nat := 124
  const HEADER_DXT10_SIZE: nat := 20
}
