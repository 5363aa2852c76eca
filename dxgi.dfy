/** DXGI_FORMAT codes, numbered as in the DXGI_FORMAT enumeration of Direct3D. */
module Dxgi {
  import opened Util

  /** A DXGI_FORMAT value, numbered as in the DXGI_FORMAT enumeration of Direct3D. */
  type Format = u8

  const R32G32B32A32_TYPELESS: Format := 1
  const R32G32B32A32_FLOAT: Format := 2
  const R32G32B32_TYPELESS: Format := 5
  const R32G32B32_FLOAT: Format := 6
  const R16G16B16A16_TYPELESS: Format := 9
  const R16G16B16A16_FLOAT: Format := 10
  const R16G16B16A16_UNORM: Format := 11
  const R16G16B16A16_SNORM: Format := 13
  const R32G32_TYPELESS: Format := 15
  const R32G32_FLOAT: Format := 16
  const R10G10B10A2_TYPELESS: Format := 23
  const R10G10B10A2_UNORM: Format := 24
  const R11G11B10_FLOAT: Format := 26
  const R8G8B8A8_TYPELESS: Format := 27
  const R8G8B8A8_UNORM: Format := 28
  const R8G8B8A8_UNORM_SRGB: Format := 29
  const R8G8B8A8_SNORM: Format := 31
  const R16G16_TYPELESS: Format := 33
  const R16G16_FLOAT: Format := 34
  const R16G16_UNORM: Format := 35
  const R16G16_SNORM: Format := 37
  const R32_TYPELESS: Format := 39
  const R32_FLOAT: Format := 41
  const R8G8_UNORM: Format := 49
  const R8G8_SNORM: Format := 51
  const R16_TYPELESS: Format := 53
  const R16_FLOAT: Format := 54
  const R16_UNORM: Format := 56
  const R16_SNORM: Format := 58
  const R8_TYPELESS: Format := 60
  const R8_UNORM: Format := 61
  const R8_SNORM: Format := 63
  const A8_UNORM: Format := 65
  const R1_UNORM: Format := 66
  const R9G9B9E5_SHAREDEXP: Format := 67
  const R8G8_B8G8_UNORM: Format := 68
  const G8R8_G8B8_UNORM: Format := 69
  const BC1_TYPELESS: Format := 70
  const BC1_UNORM: Format := 71
  const BC1_UNORM_SRGB: Format := 72
  const BC2_TYPELESS: Format := 73
  const BC2_UNORM: Format := 74
  const BC2_UNORM_SRGB: Format := 75
  const BC3_TYPELESS: Format := 76
  const BC3_UNORM: Format := 77
  const BC3_UNORM_SRGB: Format := 78
  const BC4_TYPELESS: Format := 79
  const BC4_UNORM: Format := 80
  const BC4_SNORM: Format := 81
  const BC5_TYPELESS: Format := 82
  const BC5_UNORM: Format := 83
  const BC5_SNORM: Format := 84
  const B5G6R5_UNORM: Format := 85
  const B5G5R5A1_UNORM: Format := 86
  const B8G8R8A8_UNORM: Format := 87
  const B8G8R8X8_UNORM: Format := 88
  const R10G10B10_XR_BIAS_A2_UNORM: Format := 89
  const B8G8R8A8_TYPELESS: Format := 90
  const B8G8R8A8_UNORM_SRGB: Format := 91
  const B8G8R8X8_TYPELESS: Format := 92
  const B8G8R8X8_UNORM_SRGB: Format := 93
  const BC6H_TYPELESS: Format := 94
  const BC6H_UF16: Format := 95
  const BC6H_SF16: Format := 96
  const BC7_TYPELESS: Format := 97
  const BC7_UNORM: Format := 98
  const BC7_UNORM_SRGB: Format := 99
  const AYUV: Format := 100
  const Y410: Format := 101
  const Y416: Format := 102
  const YUY2: Format := 107
  const Y210: Format := 108
  const Y216: Format := 109
  const B4G4R4A4_UNORM: Format := 115
  const A4B4G4R4_UNORM: Format := 191

  /** The DXGI formats whose names end in `_SRGB`. */
  predicate IsSrgbFormat(d: Format)
  {
    d in {R8G8B8A8_UNORM_SRGB, BC1_UNORM_SRGB, BC2_UNORM_SRGB, BC3_UNORM_SRGB,
          B8G8R8A8_UNORM_SRGB, B8G8R8X8_UNORM_SRGB, BC7_UNORM_SRGB}
  }

  /** The linear `_UNORM` format an `_SRGB` format is the sRGB variant of. */
  function LinearSibling(d: Format): (l: Format)
    requires IsSrgbFormat(d)
    ensures !IsSrgbFormat(l)
  {
    if d == R8G8B8A8_UNORM_SRGB then R8G8B8A8_UNORM
    else if d == BC1_UNORM_SRGB then BC1_UNORM
    else if d == BC2_UNORM_SRGB then BC2_UNORM
    else if d == BC3_UNORM_SRGB then BC3_UNORM
    else if d == B8G8R8A8_UNORM_SRGB then B8G8R8A8_UNORM
    else if d == B8G8R8X8_UNORM_SRGB then B8G8R8X8_UNORM
    else BC7_UNORM
  }
}
