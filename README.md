# ddsd core, modelled in Dafny

`ddsd` reads and writes DDS texture files. A DDS file is a header followed by
the pixel data of one or more surfaces; the header names the pixel format
either through a DXGI format number (DX10 extension), a FourCC code, or a
legacy bit-mask description. This project models the integer and table-driven
core of the library and proves what it promises:

- **Pixel-value kernels** (`Convert`): unpacking of 5-6-5 and 5-5-5-1 words,
  UNORM widening from 1..16 bits to 8 and 16 bits through multiply-add-shift
  constants, SNORM normalisation (both -128 and -127 mean -1.0), the XR_BIAS
  clamp, the special values of the packed 11- and 10-bit floats, the
  endpoint-mix helpers of the block decoders, and the channel rearrangements
  `ToRgba`, `ToRgb`, `SwapRB`. Every widening is proved equal, on its whole
  domain, to the rounding oracle `Rescale(x, inMax, outMax)`, the nearest
  value to `x * outMax / inMax`.
- **Encoder packing and dispatch** (`Uncompressed`): exactness flags, the
  single encoder and the first-match encoder list, the padding of a partial
  last block of a subsampled format, the packing of quantised components into
  words (with round trips against the decoder's unpacking), the 2-pixel
  macropixel layouts, R1 bit packing and the B8G8R8A8/X8 line processor.
- **Format detection** (`Detect`) and **format metadata** (`Format`): the
  DXGI, FourCC and bit-mask tables, their round trips, the first-match linear
  search over `KNOWN_PIXEL_FORMATS`, channel counts, value sizes, bytes per
  pixel, and the decoder lookup of a format.
- **Channel adaptation** (`Adapt`) and the test oracle `convert_channels`
  (`TestUtil`): every channel conversion is the input read as RGBA and
  projected onto the target channels, for the decoder and the oracle alike;
  the in-place `fill` and chunked `map` over the output buffer.
- **Decoder selection** (`Decoder`): the memory budget of a decode call, the
  buffer, rect and row-pitch checks with saturating arithmetic, the
  well-formedness checks of decoder lists, and which decoder a decode call
  ends up running.
- **Header repair** (`Dds`): the sequence of fixes permissive reading tries
  on a header whose data length does not match the file, committing a fix
  only when it makes the layout match.
- **Helpers** (`Util`, `DecodeUtil`): `div_ceil`, `round_down_to_multiple`,
  mip sizes, the bit pattern of `two_powi`, in-place endianness swaps,
  `from_le`, the `ReadBuffer` bookkeeping and `for_each_pixel`.

Integers are unbounded in Dafny; the source's widths appear as subset types
(`u8`, `u16`, `u32`, `u64`) and every saturating or checked operation is
written out. `x >> k` is `x / 2^k`, and `|` on disjoint bit fields is proved
to be addition (`Util.BitOrDisjoint`). `usize` is taken to be 64 bits wide.
The platform's endianness (`cfg!(target_endian)`) is a `bigEndian` parameter.
A reader is a sequence of values still to be read; a failed read is the
`Io` error.

Modelling choices that follow the code:

- BC6H_UF16, BC6H_SF16 and BC7_UNORM get a decoder set of one decoder that
  decodes nothing and succeeds (`src/format.rs:446-448`): Rgb F32 for the
  two BC6H formats, Rgb U8 for BC7. `Format.NoopDecoders` and
  `Format.NoopDecodersLookup` model these three entries; the decoder sets of
  the other formats are modules outside this model.
- A bit-mask pixel format is detected by the first matching row of
  `KNOWN_PIXEL_FORMATS` (`src/detect.rs:189-195`);
  `Detect.PixelFormatToSupported` models that, and `Detect.KnownPatternsDistinct`
  shows that no two rows share a pattern anyway.
- The test oracle `convert_channels` views its data as whole pixels and
  unwraps that view (`tests/util.rs:421-423`), which panics unless the length
  is a multiple of the pixel size; `TestUtil.ConvertChannels` requires whole
  pixels.
- `src/detect.rs` returns a `DecodeFormat`, whose variants include formats
  (AYUV, Y410, ...) that the `SupportedFormat` enum of `src/format.rs` and
  `src/lib.rs` lacks; the two files come from different revisions. The model
  has one `Format.DecodeFormat` enum, the union of both.

## Model

| member | source | states |
|---|---|---|
| Util.DivCeil | src/util.rs:17-37 | `d` is the ceiling of `a / b`: `a <= d * b < a + b` |
| DecodeUtil.DivCeilUnique | src/util.rs:17-37 | the ceiling is the only count `d` with `a <= d * b < a + b` |
| Util.RoundDownToMultiple | src/util.rs:39-44 | the result is a multiple of `m`, at most `v`, and more than `v - m` |
| Util.MipmapSize | src/util.rs:61-68 | the mip size is `max(1, main >> level)` |
| Util.MipmapSizeNonIncreasing | src/util.rs:61-68 | mip sizes are at least 1 and never grow with the level |
| Util.TwoPowiBits | src/util.rs:72-79 | the pattern is a positive `f32` bit pattern with the sign bit clear; its fields are stated by `Util.TwoPowiBitsFields` |
| Util.TwoPowiBitsFields | src/util.rs:72-79 | for `-126 <= e <= 127` the pattern is positive, has biased exponent `e + 127` and a zero mantissa: the float `2^e` |
| Util.BitOrDisjoint | src/encode/uncompressed.rs:536-541 | or-ing a value below `2^k` with a multiple of `2^k` is their sum, the fact every packing closure relies on |
| Format.ChannelCount | src/format.rs:23-29 | the count is 1 exactly for Grayscale and Alpha, 3 exactly for Rgb and 4 exactly for Rgba |
| Format.PrecisionSize | src/format.rs:57-63 | a value takes 1 byte exactly for U8, 2 exactly for U16 and 4 exactly for F32 |
| Format.ChannelsBitMask | src/format.rs:31-37 | the mask is `1 << index` of the variant |
| Format.PrecisionBitMask | src/format.rs:65-71 | the mask is `1 << index` of the variant |
| Format.BitMasksDistinct | src/format.rs:31-37 | two variants have the same mask exactly when they are the same variant, for channels and for precisions |
| Format.BytesPerPixel | src/format.rs:90-92 | bytes per pixel is the channel count times the value size, one of 1, 2, 3, 4, 6, 8, 12, 16 |
| Format.Pixels | src/format.rs:369-371 | the pixel count is exactly `width * height` |
| Format.PixelsFit | src/format.rs:369-371 | the product of two `u32`s never overflows `u64` |
| Format.IsEmptyIffNoPixels | src/format.rs:366-371 | a size is empty exactly when it has no pixels |
| Format.NoopDecoders | src/format.rs:446-448 | exactly BC6H_UF16, BC6H_SF16 and BC7_UNORM have a single enabled decoder, producing Rgb F32 for the BC6H formats and Rgb U8 for BC7 |
| Format.NoopDecodersLookup | src/format.rs:233-255 | for those three formats `get_decoder` returns the decoder for their own color and, for any other color, the error saying no matching decoder exists; `supports` holds exactly for their own color |
| Format.SupportsIsProduct | src/format.rs:227-236 | the supported colors are exactly the set of all combinations of a supported channel type and a supported precision, as the doc of `supports` promises |
| Format.FindDecoder | src/format.rs:238-242 | the index found is the first matching decoder at or after `from`; none found means none matches |
| Format.GetDecoder | src/format.rs:238-255 | success exactly when some decoder matches and the first match is enabled; the error says whether a disabled match exists |
| Detect.SpecialCases | src/detect.rs:8-18 | a premultiplied variant exactly for premultiplied BC2_UNORM and BC3_UNORM, nothing otherwise |
| Detect.DxgiFormatToSupported | src/detect.rs:20-100 | the DXGI table never yields the formats only a DX10 alpha mode or a FourCC selects (the premultiplied BC2/BC3, BC3_UNORM_RXGB, UYVY); its families are stated by the lemmas below |
| Detect.UncompressedFamiliesDecodeAlike | src/detect.rs:20-100 | the TYPELESS, UNORM and UNORM_SRGB members of each uncompressed family decode as one format |
| Detect.CompressedFamiliesDecodeAlike | src/detect.rs:20-100 | the same for the BC families |
| Detect.SrgbFormatsDecodable | src/detect.rs:20-100 | every sRGB DXGI format is decodable, and decodes as the same format as its linear `_UNORM` sibling |
| Detect.UnlistedDxgiUnsupported | src/detect.rs:20-100 | DXGI formats outside the table decode as nothing |
| Detect.FourCCToDxgi | src/detect.rs:102-139 | every DXGI format a FourCC names is decodable |
| Detect.DxgiToFourCC | src/detect.rs:141-168 | the table of FourCCs per DXGI format; `Detect.DxgiFourCCRoundTrip` states that it inverts `four_cc_to_dxgi` |
| Detect.DxgiFourCCRoundTrip | src/detect.rs:102-168 | whenever a DXGI format has a FourCC, that FourCC maps back to the DXGI format |
| Detect.FourCCDxgiRoundTrip | src/detect.rs:102-168 | a FourCC with a DXGI equivalent maps back to a FourCC, which is itself unless it is one of the alias codes |
| Detect.FourCCAgreesWithDxgi | src/detect.rs:170-174 | a FourCC with a DXGI equivalent decodes as that DXGI format, and always decodes |
| Detect.FourCCToSupported | src/detect.rs:170-187 | through DXGI where a FourCC has a DXGI equivalent, else the four fallback codes; `Detect.FourCCAgreesWithDxgi` and `Detect.FourCCFallbackCodes` state both halves |
| Detect.FourCCFallbackCodes | src/detect.rs:176-187 | among FourCCs without a DXGI equivalent, exactly DXT2, DXT4, RXGB and UYVY decode |
| Detect.MatchesIsEquality | src/detect.rs:236-243 | a pattern matches a pixel format exactly when all six fields are equal |
| Detect.FindPattern | src/detect.rs:189-195 | the index found is the first matching row at or after `from`; none found means no row matches |
| Detect.PixelFormatToSupported | src/detect.rs:189-195 | a format is found exactly when some row matches, and it is the format of the first matching row |
| Detect.PixelFormatToDxgi | src/detect.rs:199-207 | a DXGI format found is the one of the first matching row; none is found only when no row matches or the first matching row has no DXGI format |
| Detect.DxgiToPixelFormat | src/detect.rs:209-222 | a pattern is found exactly when some row names the DXGI format, and it is the first such row's |
| Detect.KnownPatternsDistinct | src/detect.rs:249-407 | no two rows of `KNOWN_PIXEL_FORMATS` share a pattern |
| Detect.FindOwnPattern | src/detect.rs:249-407 | in a table of distinct patterns a row's pattern finds that row |
| Detect.DxgiPixelFormatRoundTrip | src/detect.rs:199-222 | the pattern written for a DXGI format reads back as that DXGI format |
| Detect.KnownPixelFormatsAgreeWithDxgi | src/detect.rs:249-407 | a row naming a DXGI format has the format that DXGI format decodes as |
| Detect.ExampleMaskDetection | src/detect.rs:327-331 | the 16-bit 5-6-5 RGB mask is detected as B5G6R5_UNORM |
| Detect.ExampleFourCCDetection | src/detect.rs:170-174 | FourCC DXT1 is detected as BC1_UNORM |
| Detect.FromHeader | src/format.rs:155-168 | a DX10 header is read by its DXGI format, else the FourCC, else the bit masks; the format returned is that table's entry, and each path fails with its own error exactly when its table has no entry |
| Detect.LegacyHeaderDetectsAlike | src/format.rs:155-168 | writing a DX10 header as a legacy one with the FourCC or mask of its DXGI format detects the same format |
| Convert.RescaleEndpoints | src/decode/convert.rs:1088-1115 | rescaling maps 0 to 0 and the input maximum to the output maximum |
| Convert.RescaleMonotone | src/decode/convert.rs:1088-1115 | rescaling never reorders two values |
| Convert.N1ToN8 | src/decode/convert.rs:125-132 | 1-bit UNORM to 8 bits is `Rescale(x, 1, 255)` |
| Convert.N1ToN16 | src/decode/convert.rs:134-141 | 1-bit UNORM to 16 bits is `Rescale(x, 1, 65535)` |
| Convert.N2ToN8 | src/decode/convert.rs:156-159 | `Rescale(x, 3, 255)` |
| Convert.N2ToN16 | src/decode/convert.rs:161-164 | `Rescale(x, 3, 65535)` |
| Convert.N4ToN8 | src/decode/convert.rs:177-180 | `Rescale(x, 15, 255)` |
| Convert.N4ToN16 | src/decode/convert.rs:182-185 | `Rescale(x, 15, 65535)` |
| Convert.N5ToN8 | src/decode/convert.rs:206-209 | the multiply-add-shift is `Rescale(x, 31, 255)` |
| Convert.N5ToN16 | src/decode/convert.rs:211-214 | `Rescale(x, 31, 65535)` |
| Convert.N6ToN8 | src/decode/convert.rs:235-238 | `Rescale(x, 63, 255)` |
| Convert.N6ToN16Exact | src/decode/convert.rs:240-243 | the 6-bit to 16-bit constants compute `Rescale(x, 63, 65535)` |
| Convert.N6ToN16 | src/decode/convert.rs:240-243 | `Rescale(x, 63, 65535)` |
| Convert.N8ToN16 | src/decode/convert.rs:264-266 | `x * 257` is `Rescale(x, 255, 65535)` |
| Convert.N10ToN8Exact | src/decode/convert.rs:284-287 | the 10-bit to 8-bit constants compute `Rescale(x, 1023, 255)` |
| Convert.N10ToN16Exact | src/decode/convert.rs:289-292 | the 10-bit to 16-bit constants compute `Rescale(x, 1023, 65535)` |
| Convert.N10ToN8 | src/decode/convert.rs:284-287 | `Rescale(x, 1023, 255)` |
| Convert.N10ToN16 | src/decode/convert.rs:289-292 | `Rescale(x, 1023, 65535)` |
| Convert.N16ToN8 | src/decode/convert.rs:313-315 | `Rescale(x, 65535, 255)` |
| Convert.N8N16RoundTrip | src/decode/convert.rs:264-266 | widening 8 bits to 16 and narrowing back is the identity |
| Convert.S8Norm | src/decode/convert.rs:337-342 | the signed value with -128 raised to -127, shifted into `0..254`; 0 exactly for 0x80 and 0x81 |
| Convert.S8ToN8 | src/decode/convert.rs:345-348 | `Rescale(S8Norm(x), 254, 255)` |
| Convert.S8ToN16 | src/decode/convert.rs:350-353 | `Rescale(S8Norm(x), 254, 65535)` |
| Convert.S16Norm | src/decode/convert.rs:377-380 | the 16-bit counterpart, in `0..65534`; 0 exactly for 0x8000 and 0x8001 |
| Convert.S16ToN8 | src/decode/convert.rs:383-386 | `Rescale(S16Norm(x), 65534, 255)` |
| Convert.S16ToN16 | src/decode/convert.rs:388-391 | `Rescale(S16Norm(x), 65534, 65535)` |
| Convert.S8ToN8Landmarks | src/decode/convert.rs:1170-1192 | -1.0 (both encodings) gives 0, 0 gives 128, 1.0 gives 255 |
| Convert.S8ToN16Landmarks | src/decode/convert.rs:1170-1192 | the same landmarks at 16 bits: 0, 32768, 65535 |
| Convert.S16Landmarks | src/decode/convert.rs:1170-1192 | the same landmarks for 16-bit SNORM input |
| Convert.Xr10Unbias | src/decode/convert.rs:429-436 | `x - 0x180` inside the bias window, 0 below it, 510 above it, with the 16-bit wrap of values from 0x8000 |
| Convert.Xr10ToN8 | src/decode/convert.rs:429-436 | `Rescale(Xr10Unbias(x), 510, 255)` |
| Convert.Xr10ToN16 | src/decode/convert.rs:438-445 | `Rescale(Xr10Unbias(x), 510, 65535)` |
| Convert.Xr10Saturation | src/decode/convert.rs:429-445 | at or below the bias the result is black; from the top of the window to 0x7FFF it is white |
| Convert.Fp11ToN8 | src/decode/convert.rs:609-624 | the integer branch is taken exactly for exponent 31: infinity is 255, NaN is 0 |
| Convert.Fp11ToN16 | src/decode/convert.rs:626-645 | integer branches exactly for exponents 0 and 31; denormals round `mant * 65535 / 2^20`; infinity is 65535, NaN 0 |
| Convert.Fp10ToN8 | src/decode/convert.rs:674-689 | as for 11 bits, with the 10-bit field layout |
| Convert.Fp10ToN16 | src/decode/convert.rs:691-710 | as for 11 bits; denormals round `mant * 65535 / 2^19` |
| Convert.DenormalsAreSmall | src/decode/convert.rs:626-645 | no denormal of either format reaches 5 of 65535 |
| Convert.B5G6R5FromU16 | src/decode/convert.rs:20-26 | the three fields are in range and partition the word: `r5 * 2^11 + g6 * 2^5 + b5 == u` |
| Convert.B5G5R5A1FromU16 | src/decode/convert.rs:85-92 | the four fields are in range and partition the word |
| Convert.B5G6R5ToN8 | src/decode/convert.rs:28-34 | each field rescaled from its width to 8 bits, in RGB order |
| Convert.B5G6R5ToN16 | src/decode/convert.rs:36-42 | each field rescaled to 16 bits, in RGB order |
| Convert.B5G5R5A1ToN8 | src/decode/convert.rs:94-101 | each field rescaled to 8 bits, in RGBA order |
| Convert.B5G5R5A1ToN16 | src/decode/convert.rs:103-110 | each field rescaled to 16 bits, in RGBA order |
| Convert.OneThird5 | src/decode/convert.rs:53-62 | `Rescale(2a + b, 93, 255)`: the nearest byte to the 2/3 : 1/3 mix of 5-bit values |
| Convert.OneThird6Exact | src/decode/convert.rs:53-62 | the green constants compute `Rescale(2a + b, 189, 255)` |
| Convert.OneThird6 | src/decode/convert.rs:53-62 | `Rescale(2a + b, 189, 255)` for 6-bit values |
| Convert.Mid5 | src/decode/convert.rs:64-73 | `Rescale(a + b, 62, 255)`: the nearest byte to the midpoint of 5-bit values |
| Convert.Mid6 | src/decode/convert.rs:64-73 | `Rescale(a + b, 126, 255)` for 6-bit values |
| Convert.OneThirdColorRgb8 | src/decode/convert.rs:53-62 | per channel the nearest byte to `(2a + b) * 255 / (3 * max)` |
| Convert.MidColorRgb8 | src/decode/convert.rs:64-73 | per channel the nearest byte to `(a + b) * 255 / (2 * max)` |
| Convert.MixOfEqualColors | src/decode/convert.rs:53-73 | mixing a color with itself gives that color widened to 8 bits |
| Convert.NormConvertU8ToU16Endpoints | src/decode/convert.rs:1028-1050 | converting `u8` to `u16` keeps 0 and 1.0 |
| Convert.NormConvertU16ToU8Landmarks | src/decode/convert.rs:1028-1070 | converting `u16` to `u8` keeps 0, one half and 1.0 |
| Convert.ToRgba | src/decode/convert.rs:942-962 | four values with an opaque alpha; RGB is kept, gray is replicated |
| Convert.ToRgb | src/decode/convert.rs:965-985 | three values; RGBA drops alpha, gray is replicated |
| Convert.SwapRB | src/decode/convert.rs:987-1004 | the first and third values exchanged, all others untouched |
| Convert.SwapRBInvolution | src/decode/convert.rs:987-1004 | swapping twice restores the pixel |
| Convert.ToRgbAfterToRgba | src/decode/convert.rs:942-985 | adding alpha and dropping it restores an RGB pixel; gray ends the same either route |
| Uncompressed.ExactFor | src/encode/uncompressed.rs:36-44 | every precision is exact for `u8`; the `u16` guarantee exactly for U16 and F32; the `f32` guarantee exactly for F32 |
| Uncompressed.FlagsNested | src/encode/uncompressed.rs:20-32 | EXACT_F32 contains EXACT_U16, which contains EXACT_U8, and not the other way |
| Uncompressed.ExactForMonotone | src/encode/uncompressed.rs:36-44 | one precision's guarantee contains another's exactly when its values are at least as wide |
| Uncompressed.Copy | src/encode/uncompressed.rs:52-60 | a copy encoder accepts exactly its color, is exactly as exact as its precision, and encodes with the copy function |
| Uncompressed.AddFlags | src/encode/uncompressed.rs:62-65 | the new flags contain the old and the added ones; the accepted color formats and the encode function are kept |
| Uncompressed.AddFlagsAddsNothingElse | src/encode/uncompressed.rs:62-65 | a new flag outside the old ones is one of the added ones |
| Uncompressed.Encode | src/encode/uncompressed.rs:72-84 | an unsupported color is refused with its own error, else the encode function's result is returned |
| Uncompressed.RefusalIgnoresEncodeFunction | src/encode/uncompressed.rs:79-83 | a refusal does not depend on the encode function at all |
| Uncompressed.InSupportedUnion | src/encode/uncompressed.rs:87-93 | a color is in the union exactly when some encoder accepts it |
| Uncompressed.SupportedColorFormats | src/encode/uncompressed.rs:87-93 | the loop builds exactly the union of the encoders' sets |
| Uncompressed.EncodeWithList | src/encode/uncompressed.rs:95-108 | the first accepting encoder does the work; the color is refused exactly when the union lacks it |
| Uncompressed.BlockExists | src/encode/uncompressed.rs:116-133 | a block holds a pixel exactly when it is a full block or the one partial block |
| Uncompressed.BlockCount | src/encode/uncompressed.rs:116-133 | `ceil(n / w)` blocks hold a pixel |
| Uncompressed.PaddedBlock | src/encode/uncompressed.rs:116-133 | pixel `k` of block `i` is data pixel `i * w + k`, or the last pixel past the end |
| Uncompressed.FullBlock | src/encode/uncompressed.rs:116-122 | a full block is a plain slice of the data |
| Uncompressed.LastBlock | src/encode/uncompressed.rs:125-133 | the partial block is the remaining pixels followed by copies of the last |
| Uncompressed.ProcessSubsample | src/encode/uncompressed.rs:111-134 | output block `i` is the encoded padded block `i` for every block holding a pixel; later outputs are untouched |
| Uncompressed.ProcessFullBlocks | src/encode/uncompressed.rs:120-122 | the zip encodes `min(full blocks, outputs)` blocks, in order |
| Uncompressed.PackB5G6R5 | src/encode/uncompressed.rs:536-541 | the packed word is `b + g * 2^5 + r * 2^11` and fits 16 bits |
| Uncompressed.B5G6R5RoundTrip | src/encode/uncompressed.rs:536-541 | the decoder's unpacking recovers the packed components |
| Uncompressed.B5G6R5WordRoundTrip | src/decode/convert.rs:20-26 | packing the components of any word gives the word |
| Uncompressed.PackB5G5R5A1 | src/encode/uncompressed.rs:543-549 | `b + g * 2^5 + r * 2^10 + a * 2^15` |
| Uncompressed.B5G5R5A1RoundTrip | src/encode/uncompressed.rs:543-549 | the decoder's unpacking recovers the packed components |
| Uncompressed.B5G5R5A1WordRoundTrip | src/decode/convert.rs:85-92 | packing the components of any word gives the word |
| Uncompressed.Pack4444 | src/encode/uncompressed.rs:551-565 | four nibbles, lowest first |
| Uncompressed.Pack4444Fields | src/encode/uncompressed.rs:551-565 | each component is read back from its own nibble |
| Uncompressed.Pack1010102 | src/encode/uncompressed.rs:618-624 | three 10-bit fields and a 2-bit field, lowest first (also the XR_BIAS and Y410 layouts) |
| Uncompressed.Pack1010102Fields | src/encode/uncompressed.rs:669-687 | each component is read back from its own field |
| Uncompressed.PackR11G11B10 | src/encode/uncompressed.rs:626-631 | `r11 + g11 * 2^11 + b10 * 2^22` |
| Uncompressed.PackR11G11B10Fields | src/encode/uncompressed.rs:626-631 | each component is read back from its own field |
| Uncompressed.AyuvLayout | src/encode/uncompressed.rs:677-681 | the bytes are `v, u, y, a` in that order: a permutation of the components with alpha last |
| Uncompressed.Y416Layout | src/encode/uncompressed.rs:689-694 | the words are `u, y, v, a` in that order: a permutation of the components with alpha last |
| Uncompressed.Y416FollowsY410Order | src/encode/uncompressed.rs:683-694 | Y416 stores its components in the field order of the Y410 word: each 10-bit field of Y410 is the Y416 word at the same position |
| Uncompressed.SwapPairsInvolution | src/encode/uncompressed.rs:707-733 | the pair swap relating RGBG to GRGB and YUY2 to UYVY undoes itself |
| Uncompressed.ToRgbg | src/encode/uncompressed.rs:696-702 | the two greens are the pair's own, red and blue the means |
| Uncompressed.ToGrgb | src/encode/uncompressed.rs:707-711 | the RGBG bytes with each pair swapped |
| Uncompressed.PickMid | src/encode/uncompressed.rs:718-722 | the floor average: between the two values |
| Uncompressed.ToYuy2 | src/encode/uncompressed.rs:713-726 | `[y0, u, y1, v]` with the chroma the floor averages |
| Uncompressed.ToYuy2Bounded | src/encode/uncompressed.rs:713-726 | no component leaves the range of the inputs |
| Uncompressed.ToUyvy | src/encode/uncompressed.rs:730-733 | the YUY2 bytes with each pair swapped |
| Uncompressed.ToY210 | src/encode/uncompressed.rs:735-752 | the Y216 components with the low 6 bits cleared |
| Uncompressed.R1BitPlacement | src/encode/uncompressed.rs:757-763 | in the byte of an 8-pixel block, pixel `i` is bit `7 - i` |
| Uncompressed.R1Pack | src/encode/uncompressed.rs:757-763 | the loop of or-s produces that byte |
| Uncompressed.SwapRBLine | src/encode/uncompressed.rs:486-530 | every pixel of the line has red and blue exchanged, and for B8G8R8X8 alpha forced to 0xFF |
| Uncompressed.SwapRBAt | src/encode/uncompressed.rs:520-521 | one pixel: bytes 0 and 2 exchanged, byte 3 forced to 0xFF for B8G8R8X8, every other byte kept |
| Uncompressed.SwapRBPixel | src/encode/uncompressed.rs:517-522 | one pixel: the decoders' `SwapRB`, alpha forced when asked |
| Adapt.AlphaToRgba | src/decode/adapt.rs:123-125 | the RGBA reading of an alpha pixel |
| Adapt.GrayscaleToRgb | src/decode/adapt.rs:126-128 | the decoders' `ToRgb` of a gray pixel |
| Adapt.GrayscaleToRgba | src/decode/adapt.rs:129-131 | the RGBA reading of a gray pixel |
| Adapt.RgbToRgba | src/decode/adapt.rs:135-137 | the RGBA reading of an RGB pixel |
| Adapt.RgbToGrayscale | src/decode/adapt.rs:132-134 | one channel, the red one |
| Adapt.RgbaToGrayscale | src/decode/adapt.rs:138-140 | the gray projection of an RGBA pixel |
| Adapt.RgbaToAlpha | src/decode/adapt.rs:141-143 | the alpha projection of an RGBA pixel |
| Adapt.RgbaToRgb | src/decode/adapt.rs:144-146 | the RGB projection of an RGBA pixel |
| Adapt.RgbRoundTrip | src/decode/adapt.rs:135-146 | `rgba_to_rgb` after `rgb_to_rgba` is the identity |
| Adapt.AlphaRoundTrip | src/decode/adapt.rs:123-143 | `rgba_to_alpha` after `alpha_to_rgba` is the identity |
| Adapt.GrayscaleRoundTrip | src/decode/adapt.rs:126-140 | taking the red channel of a replicated gray value gives it back |
| Adapt.AgreesWithConvert | src/decode/adapt.rs:126-146 | the widening and narrowing maps agree with the decoders' `ToRgba`/`ToRgb` |
| Adapt.AsRgba | src/decode/adapt.rs:123-137 | gray is replicated, alpha alone is black, a pixel without alpha is opaque |
| Adapt.ProjectAsRgba | src/decode/adapt.rs:123-146 | projecting the RGBA reading back onto a pixel's own channels restores it |
| Adapt.AdaptFor | src/decode/adapt.rs:17-50 | a map is chosen only for the eight mapped pairs, with its own channels |
| Adapt.Adapt | src/decode/adapt.rs:5-16 | identical channels go direct whatever the precision; the rest is `adapt_for` |
| Adapt.AdaptForCases | src/decode/adapt.rs:25-39 | direct exactly for identical channels; to alpha fills 1.0; from alpha to gray or RGB fills 0 |
| Adapt.AdaptForIsRgbaView | src/decode/adapt.rs:17-50 | for every pair the output pixel is the input read as RGBA and projected onto the target |
| Adapt.DecodePixels | src/decode/adapt.rs:101-105 | the process function decodes each pixel of a chunk |
| Adapt.FillPixels | src/decode/adapt.rs:73-78 | every output value becomes the fill value |
| Adapt.DirectPixels | src/decode/adapt.rs:69-71 | every output pixel is its decoded input pixel |
| Adapt.MapPixels | src/decode/adapt.rs:80-119 | chunk by chunk, every output pixel `k` is `f` of decoded pixel `k` |
| Adapt.AdaptPixels | src/decode/adapt.rs:5-119 | after adaptation every output pixel is its input pixel read as RGBA and projected |
| DecodeUtil.SwapBytePairs | src/decode/util.rs:146-155 | the bytes of every pair exchanged |
| DecodeUtil.SwapBytePairsInvolution | src/decode/util.rs:146-155 | swapping twice restores the buffer |
| DecodeUtil.ReverseByteQuads | src/decode/util.rs:156-166 | every 4-byte group reversed |
| DecodeUtil.ReverseByteQuadsInvolution | src/decode/util.rs:156-166 | reversing twice restores the buffer |
| DecodeUtil.LeToNativeEndian16 | src/decode/util.rs:146-155 | big-endian swaps every byte pair in place, little-endian changes nothing |
| DecodeUtil.LeToNativeEndian32 | src/decode/util.rs:156-166 | big-endian reverses every 4-byte group in place, little-endian changes nothing |
| DecodeUtil.ReverseQuad | src/decode/util.rs:162-163 | one group: its four bytes in reverse order, every other byte kept |
| DecodeUtil.FromLe16 | src/decode/util.rs:46-52 | `u16::from_le`; `DecodeUtil.FromLe16ReadsLittleEndian` and `DecodeUtil.FromLe16Involution` state its properties |
| DecodeUtil.FromLe32 | src/decode/util.rs:53-59 | `u32::from_le`; `DecodeUtil.FromLe32ReadsLittleEndian` states its property |
| DecodeUtil.FromLe16ReadsLittleEndian | src/decode/util.rs:46-52 | on either platform `from_le` of the loaded `u16` is the little-endian value of the bytes |
| DecodeUtil.FromLe32ReadsLittleEndian | src/decode/util.rs:53-66 | the same for `u32` (and the bits of `f32`) |
| DecodeUtil.FromLe16Involution | src/decode/util.rs:46-52 | `from_le` undoes itself |
| DecodeUtil.ReadBuffer.constructor | src/decode/util.rs:77-89 | `bufPixels = min(65536 / pixel size, pixels)`, and all pixels are still to be read |
| DecodeUtil.ReadBuffer.Read | src/decode/util.rs:91-101 | takes `min(bufPixels, pixelsLeft)` off `pixelsLeft` and returns that many pixels, or the `Io` error when the input is short; a non-empty count is the next chunk of `ChunkSizes` |
| DecodeUtil.ChunkSizesCover | src/decode/util.rs:20-30 | the chunks read are `ceil(pixels / bufPixels)` non-empty chunks of at most a buffer each, summing to `pixels` |
| DecodeUtil.ForEachPixel | src/decode/util.rs:6-32 | success exactly when the input holds enough pixels; then output pixel `i` is `process_pixel(from_le(input pixel i))` |
| DecodeUtil.ReadChunks | src/decode/util.rs:21-31 | the same, for the loop over the output chunks; after a successful loop the chunks read are all of `ChunkSizes(pixels, bufPixels)` |
| DecodeUtil.ProcessChunk | src/decode/util.rs:24-28 | the processed pixels of one chunk extend the written prefix of the output |
| Decoder.SaturatingMul | src/decode/decoder.rs:61-64 | the product, or `usize::MAX` when it overflows |
| Decoder.DecodeContext.constructor | src/decode/decoder.rs:14-20 | the whole limit is still available and nothing is reserved |
| Decoder.DecodeContext.ReserveBytes | src/decode/decoder.rs:22-29 | fails with MemoryLimitExceeded, changing nothing, exactly when fewer bytes are left; otherwise the limit drops by exactly `bytes` |
| Decoder.DecodeContext.Alloc | src/decode/decoder.rs:30-33 | reserves `len * size` bytes first; on success returns `len` default values |
| Decoder.DecodeContext.AllocCapacity | src/decode/decoder.rs:34-37 | the same reservation, then an empty vector |
| Decoder.RequiredBytes | src/decode/decoder.rs:61-64 | pixels times bytes per pixel, saturated |
| Decoder.CheckArgs | src/decode/decoder.rs:56-75 | accepted exactly when the buffer has the required length, else UnexpectedBufferSize with that length |
| Decoder.CheckArgsExact | src/decode/decoder.rs:56-75 | below `usize::MAX`, accepted exactly when the length is pixels times bytes per pixel |
| Decoder.CheckArgsEmpty | src/decode/decoder.rs:56-75 | an empty image accepts exactly the empty buffer |
| Decoder.CheckRectArgs | src/decode/decoder.rs:90-123 | rect out of bounds, then row pitch below `width * bpp`, then buffer below `pitch * height` (saturated); the first failure is reported |
| Decoder.CheckRectArgsRowsFit | src/decode/decoder.rs:90-123 | with the rect accepted, every row of the rect lies inside the buffer |
| Decoder.FindFirst | src/decode/decoder.rs:210-221 | the first index at or after `from` whose element satisfies the test; none means no element does |
| Decoder.FromPrecision | src/decode/decoder.rs:153-164 | the colors of all channel types in one precision |
| Decoder.NewWithAllChannels | src/decode/decoder.rs:153-164 | the decoder produces its native color and only colors of its precision |
| Decoder.CheckDirectSet | src/decode/decoder.rs:194-204 | the union loop and the assertions accept exactly a non-empty list that together supports every color |
| Decoder.GetDirectDecoder | src/decode/decoder.rs:210-221 | the first decoder native to the color, else the first that supports it |
| Decoder.GetDirectDecoderProduces | src/decode/decoder.rs:210-221 | the chosen decoder can produce the color |
| Decoder.GetDirectDecoderNative | src/decode/decoder.rs:206-221 | the set's native color is decoded by its first decoder |
| Decoder.NewUncompressedDecoder | src/decode/decoder.rs:176-187 | a decoded pixel has the size of the native color |
| Decoder.PrecisionCount | src/decode/decoder.rs:262-270 | a set of precisions has `Precision::COUNT` members exactly when it holds all three |
| Decoder.Verify | src/decode/decoder.rs:244-272 | no failure exactly for a valid list; an empty list, a repeated color and a missing precision are told apart in the order checked |
| Decoder.GetClosestProcessFn | src/decode/decoder.rs:278-294 | the first decoder of exactly the color, else the first of its precision; always of the requested precision |
| Decoder.GetClosestProcessFnNative | src/decode/decoder.rs:278-294 | in a verified list each native color picks its own decoder |
| Decoder.NewDecoderSet | src/decode/decoder.rs:341-346 | a valid set of the direct decoders, with no specialized function |
| Decoder.NewUncompressedSet | src/decode/decoder.rs:347-352 | a valid set of the uncompressed decoders, with no specialized function |
| Decoder.AddSpecialized | src/decode/decoder.rs:353-367 | requires no specialized function yet; keeps the decoders and validity |
| Decoder.NativeColor | src/decode/decoder.rs:369-374 | the native color of the first decoder of the list |
| Decoder.ListDispatch | src/decode/decoder.rs:296-323 | a direct list runs `get_decoder`'s choice; an uncompressed list runs `get_closest_process_fn`'s choice, a decoder of the requested precision |
| Decoder.Decode | src/decode/decoder.rs:376-410 | the buffer is checked first; an empty image runs nothing; the specialized function runs exactly for its color; otherwise the list decides |
| Decoder.DecodeEmptyRunsNothing | src/decode/decoder.rs:384-395 | an empty image succeeds for an empty buffer and fails for any other, never running a decoder |
| Decoder.DecodeRect | src/decode/decoder.rs:413-444 | the rect arguments are checked first; an empty rect runs nothing; the specialized function never runs |
| Dds.DefaultOptions | src/lib.rs:99-108 | magic bytes checked, at most 4096 array elements, strict, no file length |
| Dds.ExpectedDataLen | src/lib.rs:184-194 | the file length minus magic, header and DX10 extension, exactly when that does not underflow |
| Dds.BitLength | src/lib.rs:264-268 | the number of bits of `x`: `2^(n-1) <= x < 2^n` |
| Dds.SaturatingAddU32 | src/lib.rs:273 | the sum, or `u32::MAX` on overflow |
| Dds.MipmapGuesses | src/lib.rs:263-274 | `[1, full chain for the largest dimension, mipmap - 1, mipmap + 1 saturated]` |
| Dds.NonZero | src/lib.rs:275 | exactly the non-zero guesses; a single value is kept exactly when it is non-zero |
| Dds.NonZeroAppend | src/lib.rs:275 | filtering a concatenation is the concatenation of the filtered parts, so the guesses keep their order and multiplicity |
| Dds.MipmapCandidates | src/lib.rs:275-277 | the header with each guessed mipmap count, in order |
| Dds.FirstMatch | src/lib.rs:275-285 | the first candidate whose layout has the expected length; none means none has |
| Dds.FirstMatchAt | src/lib.rs:275-285 | a matching candidate with no match before it is the one found |
| Dds.CreateLayoutAndFixHeader | src/lib.rs:196-289 | the header settled on is `FixHeader`'s, and the layout returned is that header's |
| Dds.CandidatesAfterCubeFix | src/lib.rs:244-288 | with the cube fix failed or not applicable, the mipmap guesses decide |
| Dds.TryMipmapGuesses | src/lib.rs:275-288 | the loop finds the first matching mipmap guess |
| Dds.MipmapCandidatesRepairOnly | src/lib.rs:275-277 | a mipmap candidate changes only the mipmap count, to one of the guesses |
| Dds.CandidateRepairsOnly | src/lib.rs:244-288 | every candidate fix (cube fix or mipmap guess) still changes only the array size and the mipmap count, which stays non-zero |
| Dds.FixHeaderRepairsOnly | src/lib.rs:196-289 | only the array size and mipmap count change; the mipmap count stays non-zero; the result is the original, the array-size fix, or a header with exactly the expected length |
| Dds.FixHeaderKeepsConsistentHeader | src/lib.rs:203-216 | without a known length, or with a matching header, nothing changes |
| Dds.FixHeaderZeroArraySize | src/lib.rs:225-239 | an array size of 0 with data expected becomes 1 even when nothing matches |
| Dds.FixHeaderPrefersCubeFix | src/lib.rs:244-259 | a matching cube fix is taken before any mipmap guess |
| Dds.FromHeaderWith | src/lib.rs:135-159 | an array size over the limit fails first; then detection errors propagate; then the result is the layout of the header (repaired by `FixHeader` in permissive mode, untouched otherwise) read as the detected format: success exactly when that layout succeeds, with that header, format and length, else that layout's error |
| Dds.IsSrgb | src/lib.rs:175-181 | sRGB exactly for a DX10 header with an sRGB DXGI format |
| TestUtil.Stride | tests/util.rs:71-73 | width times channel count times value size |
| TestUtil.StrideTilesData | tests/util.rs:71-73 | rows of one stride tile the data of a well-formed image exactly |
| TestUtil.ToU16 | tests/util.rs:107-113 | each value `x` becomes `Rescale(x, 255, 65535)`, shape unchanged |
| TestUtil.PngChannelsLossless | tests/util.rs:248-255 | an alpha image written as RGBA and read back loses nothing |
| TestUtil.ConvertPixel | tests/util.rs:433-455 | the twelve closures give pixels of the target's channel count |
| TestUtil.ConvertPixelIsAdaptation | tests/util.rs:433-455 | each closure is the decoder's `adapt_for` outcome, and the pixel read as RGBA and projected |
| TestUtil.ToPngCompatibleChannels | tests/util.rs:248-255 | Alpha becomes Rgba, every other type is kept, with its own PNG color type |
| TestUtil.ChunksFlatten | tests/util.rs:28-35 | viewing flattened pixels as pixels again gives the same pixels |
| TestUtil.ConvertPixels | tests/util.rs:413-431 | one output pixel per input pixel, each the converted input pixel |
| TestUtil.ConvertChannels | tests/util.rs:405-457 | same channels copy the data; otherwise the output has `(len / N) * M` values and pixel `i` is input pixel `i` read as RGBA and projected |

## Left out

- Floating point: the `f32` conversions (`nK::f32`, `f32_exact`, `fp16`, `bc6h_uf16`, the normal-exponent paths of `fp11`/`fp10`, `rgb9995f`), the YUV matrices and every `from_f32` quantiser. `Convert.Fp11ToN8` and its siblings return `None` for the float path. The packing functions take already-quantised components.
- Block-compression codecs, and the decode functions of the decoder tables: they are not part of this model. A decoder is its colors, and `Decoder.Dispatch` says which one a decode call runs, not what it writes.
- I/O: readers and writers, `read_u32_le_array`, `io_skip_exact`, header parsing and the writes of the encoders. A reader is the sequence of values still to be read.
- The encoders' chunk loops (`uncompressed_universal*`, `uncompressed_untyped`, `simple_color_convert`) and `copy_directly`: they stream through `f32` buffers.
- `DataLayout` is not part of this model. A layout is its data length, and `DataLayout::from_header_with` is the function parameter `layoutOf`.
- `Header`, `Dx10Header` and the pixel-format flags come from a file that is not part of this model; `Header` holds only the fields the core reads.
- `ColorFormatSet` and `TinySet` are modelled as `set`s, and the `u8` bit set of `verify` as a `set<ColorFormat>`.
- `Rect` and `ColorFormat::key` are not shown in the source; `Decoder.Rect` is a position and a size.
- `AlignedBuffer`, the `BUFFER_PIXELS` stack buffer and the `bytemuck` casts carry no meaning beyond the pixel order, which the model keeps; buffers are sequences of pixels rather than bytes.
- Decoder.DecodeContext.Alloc: requires `len * size` to fit in `usize`, where a debug build panics and a release build wraps.
- Decoder.DecodeContext.AllocCapacity: the capacity of the returned vector is not represented.
- Decoder.DecodeRect: the row pitch is validated but the rows written through it are not modelled.
- Adapt.MapPixels: requires a non-empty output, because `map` divides by the pixel count; `DecodeUtil.ForEachPixel` likewise, because its chunk size would be 0.
- TestUtil.ConvertChannels: requires whole pixels when the channels differ, because the source unwraps its pixel view.
- TestUtil.ConvertPixels: `Default::default()` is represented by the `Norm` zero.
- Convert.Xr10Unbias: a debug build panics on the 16-bit overflow of `x as i16 - 0x180`; the model follows the release build's wrap-around.
- The `DirectDecoderSet`/`UncompressedDecoderSet` `decode` and `decode_rect` functions are modelled as the dispatch of `Decoder.ListDispatch` only.
