/** FourCC codes of the legacy DDS pixel format. */
module FourCC {
  import opened Util

  /** Four ASCII characters packed little-endian into a `u32`. */
  type Code = u32

  const DXT1: Code := 0x3154_5844 // "DXT1"
  const DXT2: Code := 0x3254_5844 // "DXT2"
  const DXT3: Code := 0x3354_5844 // "DXT3"
  const DXT4: Code := 0x3454_5844 // "DXT4"
  const DXT5: Code := 0x3554_5844 // "DXT5"
  const ATI1: Code := 0x3149_5441 // "ATI1"
  const ATI2: Code := 0x3249_5441 // "ATI2"
  const BC4U: Code := 0x5534_4342 // "BC4U"
  const BC4S: Code := 0x5334_4342 // "BC4S"
  const BC5U: Code := 0x5535_4342 // "BC5U"
  const BC5S: Code := 0x5335_4342 // "BC5S"
  const RGBG: Code := 0x4742_4752 // "RGBG"
  const GRGB: Code := 0x4247_5247 // "GRGB"
  const YUY2: Code := 0x3259_5559 // "YUY2"
  const UYVY: Code := 0x5956_5955 // "UYVY"
  const RXGB: Code := 0x4247_5852 // "RXGB"

  /** D3DFORMAT numbers that some old writers store in the FourCC field. */
  const D3DFMT_A16B16G16R16: Code := 36
  const D3DFMT_Q16W16V16U16: Code := 110
  const D3DFMT_R16F: Code := 111
  const D3DFMT_G16R16F: Code := 112
  const D3DFMT_A16B16G16R16F: Code := 113
  const D3DFMT_R32F: Code := 114
  const D3DFMT_G32R32F: Code := 115
  const D3DFMT_A32B32G32R32F: Code := 116
}
