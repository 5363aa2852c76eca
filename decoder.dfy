/**
 * Decoder selection and argument validation of `src/decode/decoder.rs`: the memory budget of
 * a decode call, the checks of the output buffer, the rect and the row pitch, the two kinds of
 * decoder lists with their lookups and their well-formedness check, and the control flow of
 * `DecoderSet::decode` and `DecoderSet::decode_rect`. The decode functions themselves, and
 * the reader they consume, are not part of this module: a decoder is represented by the
 * colors it produces, and a dispatch by the decoder it selects.
 */
module Decoder {
  import opened Wrappers
  import opened Util
  import opened Format

  /** `usize` is taken to be 64 bits wide. */
  const USIZE_MAX: u64 := U64_MAX

  /** `usize::saturating_mul` (and `u64::saturating_mul`): the product, capped at the maximum. */
  function SaturatingMul(a: nat, b: nat): (r: u64)
    ensures a * b <= USIZE_MAX ==> r == a * b
    ensures a * b > USIZE_MAX ==> r == USIZE_MAX
  {
    if a * b <= USIZE_MAX then a * b else USIZE_MAX
  }

  /**
   * The budget of one decode call. `memoryLimit` is what may still be allocated; the ghost
   * fields record the budget the context started with and what has been reserved since.
   */
  class DecodeContext {
    var color: ColorFormat
    var size: Size
    var memoryLimit: u64
    ghost var budget: nat
    ghost var reserved: nat

    /** Nothing is ever reserved beyond the starting budget. */
    ghost predicate Valid()
      reads this
    {
      memoryLimit + reserved == budget
    }

    constructor(color: ColorFormat, size: Size, memoryLimit: u64)
      ensures this.color == color && this.size == size && this.memoryLimit == memoryLimit
      ensures budget == memoryLimit && reserved == 0
      ensures Valid()
    {
      this.color := color;
      this.size := size;
      this.memoryLimit := memoryLimit;
      budget := memoryLimit;
      reserved := 0;
    }

    /**
     * `reserve_bytes`: fails, changing nothing, when fewer than `bytes` bytes are left;
     * otherwise takes exactly `bytes` bytes off the limit.
     */
    method ReserveBytes(bytes: u64) returns (r: Result<(), DecodeError>)
      requires Valid()
      modifies this
      ensures Valid() && budget == old(budget)
      ensures color == old(color) && size == old(size)
      ensures r.Err? <==> old(memoryLimit) < bytes
      ensures r.Err? ==>
        r.error == MemoryLimitExceeded && memoryLimit == old(memoryLimit) && reserved == old(reserved)
      ensures r.Ok? ==> memoryLimit == old(memoryLimit) - bytes && reserved == old(reserved) + bytes
    {
      if memoryLimit < bytes {
        return Err(MemoryLimitExceeded);
      }
      memoryLimit := memoryLimit - bytes;
      reserved := reserved + bytes;
      return Ok(());
    }

    /**
     * `alloc`: reserves `len * elemSize` bytes first, so a failed reservation allocates
     * nothing; on success the buffer holds `len` default values.
     */
    method Alloc<T>(len: u64, elemSize: nat, default: T) returns (r: Result<seq<T>, DecodeError>)
      requires Valid()
      requires len * elemSize <= USIZE_MAX
      modifies this
      ensures Valid() && budget == old(budget)
      ensures color == old(color) && size == old(size)
      ensures r.Err? <==> old(memoryLimit) < len * elemSize
      ensures r.Err? ==> r.error == MemoryLimitExceeded && memoryLimit == old(memoryLimit)
      ensures r.Ok? ==>
        r.value == Fill(default, len) && memoryLimit == old(memoryLimit) - len * elemSize
    {
      var reservation := ReserveBytes(len * elemSize);
      if reservation.Err? {
        return Err(reservation.error);
      }
      return Ok(Fill(default, len));
    }

    /**
     * `alloc_capacity`: the same reservation, then an empty vector; its capacity is not
     * represented.
     */
    method AllocCapacity<T>(len: u64, elemSize: nat) returns (r: Result<seq<T>, DecodeError>)
      requires Valid()
      requires len * elemSize <= USIZE_MAX
      modifies this
      ensures Valid() && budget == old(budget)
      ensures color == old(color) && size == old(size)
      ensures r.Err? <==> old(memoryLimit) < len * elemSize
      ensures r.Err? ==> r.error == MemoryLimitExceeded && memoryLimit == old(memoryLimit)
      ensures r.Ok? ==> r.value == [] && memoryLimit == old(memoryLimit) - len * elemSize
    {
      var reservation := ReserveBytes(len * elemSize);
      if reservation.Err? {
        return Err(reservation.error);
      }
      return Ok([]);
    }
  }

  /** The bytes a full image of `size` pixels in `color` takes, saturated to `usize::MAX`. */
  function RequiredBytes(size: Size, color: ColorFormat): (n: u64)
    ensures Pixels(size) * BytesPerPixel(color) <= USIZE_MAX ==> n == Pixels(size) * BytesPerPixel(color)
    ensures Pixels(size) * BytesPerPixel(color) > USIZE_MAX ==> n == USIZE_MAX
  {
    SaturatingMul(Pixels(size), BytesPerPixel(color))
  }

  /** `Args::new`: the output buffer must have exactly the required length. */
  function CheckArgs(outputLen: nat, color: ColorFormat, size: Size): (r: Result<(), DecodeError>)
    ensures r.Ok? <==> outputLen == RequiredBytes(size, color)
    ensures r.Err? ==> r.error == UnexpectedBufferSize(RequiredBytes(size, color))
  {
    var required := RequiredBytes(size, color);
    if outputLen != required then Err(UnexpectedBufferSize(required)) else Ok(())
  }

  /**
   * Short of a buffer of exactly `usize::MAX` bytes, which no slice can have, an accepted
   * buffer holds exactly one encoded-to-decoded pixel per pixel of the image.
   */
  lemma CheckArgsExact(outputLen: nat, color: ColorFormat, size: Size)
    requires outputLen < USIZE_MAX
    ensures CheckArgs(outputLen, color, size).Ok? <==> outputLen == Pixels(size) * BytesPerPixel(color)
  {
  }

  /** An empty image is accepted with, and only with, an empty buffer. */
  lemma CheckArgsEmpty(outputLen: nat, color: ColorFormat, size: Size)
    requires IsEmpty(size)
    ensures CheckArgs(outputLen, color, size).Ok? <==> outputLen == 0
  {
    IsEmptyIffNoPixels(size);
  }

  /** A rectangle of pixels, at offset (`x`, `y`) of an image. */
  datatype Rect = Rect(x: u32, y: u32, width: u32, height: u32)

  function RectSize(rect: Rect): Size
  {
    Size(rect.width, rect.height)
  }

  /** `Rect::is_within_bounds`: the rect lies entirely inside an image of the given size. */
  predicate IsWithinBounds(rect: Rect, size: Size)
  {
    rect.x + rect.width <= size.width && rect.y + rect.height <= size.height
  }

  /**
   * `RArgs::new`: the rect must be inside the image, a row of the output must be wide
   * enough for a row of the rect, and the buffer must hold `height` rows. The first
   * failing check is reported.
   */
  function CheckRectArgs(outputLen: nat, rowPitch: u64, rect: Rect, color: ColorFormat, size: Size)
    : (r: Result<(), DecodeError>)
    ensures !IsWithinBounds(rect, size) ==> r == Err(RectOutOfBounds)
    ensures IsWithinBounds(rect, size) && rowPitch < rect.width * BytesPerPixel(color) ==>
      r == Err(RowPitchTooSmall(rect.width * BytesPerPixel(color)))
    ensures IsWithinBounds(rect, size) && rowPitch >= rect.width * BytesPerPixel(color) ==>
      (r.Ok? <==> outputLen >= SaturatingMul(rowPitch, rect.height))
    ensures IsWithinBounds(rect, size) && rowPitch >= rect.width * BytesPerPixel(color) && r.Err? ==>
      r.error == RectBufferTooSmall(SaturatingMul(rowPitch, rect.height))
  {
    if !IsWithinBounds(rect, size) then Err(RectOutOfBounds)
    else
      var minRowPitch := SaturatingMul(rect.width, BytesPerPixel(color));
      assert minRowPitch == rect.width * BytesPerPixel(color) by {
        MulMonotone(rect.width, BytesPerPixel(color), U32_MAX, 16);
      }
      if rowPitch < minRowPitch then Err(RowPitchTooSmall(minRowPitch))
      else
        var required := SaturatingMul(rowPitch, rect.height);
        if outputLen < required then Err(RectBufferTooSmall(required))
        else Ok(())
  }

  /**
   * With the rect arguments accepted (and short of a `usize::MAX`-byte buffer), every row of
   * the rect, at its row pitch, lies inside the output buffer.
   */
  lemma CheckRectArgsRowsFit(outputLen: nat, rowPitch: u64, rect: Rect, color: ColorFormat, size: Size,
                             row: nat)
    requires outputLen < USIZE_MAX
    requires CheckRectArgs(outputLen, rowPitch, rect, color, size).Ok?
    requires row < rect.height
    ensures row * rowPitch + rect.width * BytesPerPixel(color) <= outputLen
  {
    var required := SaturatingMul(rowPitch, rect.height);
    assert rowPitch * rect.height <= outputLen;
    assert row * rowPitch + rowPitch == (row + 1) * rowPitch;
    MulMonotone(row + 1, rowPitch, rect.height, rowPitch);
  }

  /** The first index at or after `from` whose element satisfies `p`: `Iterator::find`. */
  function FindFirst<X>(xs: seq<X>, p: X -> bool, from: nat): (r: Option<nat>)
    requires from <= |xs|
    ensures r.Some? ==>
      from <= r.value < |xs| && p(xs[r.value]) && forall j | from <= j < r.value :: !p(xs[j])
    ensures r.None? <==> forall j | from <= j < |xs| :: !p(xs[j])
    decreases |xs| - from
  {
    if from == |xs| then None
    else if p(xs[from]) then Some(from)
    else FindFirst(xs, p, from + 1)
  }

  /** Every channel type in one precision: `ColorFormatSet::from_precision`. */
  function FromPrecision(p: Precision): (s: set<ColorFormat>)
    ensures forall c | c in s :: c.precision == p
  {
    {ColorFormat(Grayscale, p), ColorFormat(Alpha, p), ColorFormat(Rgb, p), ColorFormat(Rgba, p)}
  }

  /** ... and every color of that precision is in it. */
  lemma InFromPrecision(c: ColorFormat)
    ensures c in FromPrecision(c.precision)
  {
    match c.channels {
      case Grayscale =>
      case Alpha =>
      case Rgb =>
      case Rgba =>
    }
  }

  /** All twelve color formats: `ColorFormatSet::ALL`. */
  function AllColors(): set<ColorFormat>
  {
    FromPrecision(U8) + FromPrecision(U16) + FromPrecision(F32)
  }

  lemma InAllColors(c: ColorFormat)
    ensures c in AllColors()
  {
    InFromPrecision(c);
    match c.precision {
      case U8 =>
      case U16 =>
      case F32 =>
    }
  }

  /** A decoder with its own decode functions: the color it decodes to natively and the colors it can produce. */
  datatype DirectDecoder = DirectDecoder(nativeColor: ColorFormat, supportedColors: set<ColorFormat>)

  /** `DirectDecoder::new_with_all_channels`: every channel type in the native precision. */
  function NewWithAllChannels(color: ColorFormat): (d: DirectDecoder)
    ensures d.nativeColor == color && d.nativeColor in d.supportedColors
    ensures forall c | c in d.supportedColors :: c.precision == color.precision
  {
    InFromPrecision(color);
    DirectDecoder(color, FromPrecision(color.precision))
  }

  /** Some decoder of the list produces `color`. */
  predicate SupportedBySome(decoders: seq<DirectDecoder>, color: ColorFormat)
  {
    exists i | 0 <= i < |decoders| :: color in decoders[i].supportedColors
  }

  /** What `DirectDecoderSet::new` asserts: a non-empty list that together supports every color. */
  predicate ValidDirectSet(decoders: seq<DirectDecoder>)
  {
    |decoders| > 0 && forall c | c in AllColors() :: SupportedBySome(decoders, c)
  }

  /**
   * The `const_for` loop of `DirectDecoderSet::new`: the union of the supported colors of
   * all decoders, then the two assertions made about the list.
   */
  method CheckDirectSet(decoders: seq<DirectDecoder>) returns (valid: bool)
    ensures valid <==> ValidDirectSet(decoders)
  {
    if |decoders| == 0 {
      return false;
    }
    var supported: set<ColorFormat> := {};
    var i := 0;
    while i < |decoders|
      invariant 0 <= i <= |decoders|
      invariant forall c: ColorFormat :: c in supported <==>
        exists j | 0 <= j < i :: c in decoders[j].supportedColors
    {
      supported := supported + decoders[i].supportedColors;
      i := i + 1;
    }
    valid := AllColors() <= supported;
    if !valid {
      var c :| c in AllColors() && c !in supported;
      assert !SupportedBySome(decoders, c);
    }
  }

  predicate IsNative(color: ColorFormat, d: DirectDecoder)
  {
    d.nativeColor == color
  }

  predicate Produces(color: ColorFormat, d: DirectDecoder)
  {
    color in d.supportedColors
  }

  /**
   * `DirectDecoderSet::get_decoder`: the first decoder whose native color is `color`, and
   * failing that the first one that can produce it. A valid set always has one.
   */
  function GetDirectDecoder(decoders: seq<DirectDecoder>, color: ColorFormat): (i: nat)
    requires ValidDirectSet(decoders)
    ensures i < |decoders|
    ensures (exists j | 0 <= j < |decoders| :: decoders[j].nativeColor == color) ==>
      decoders[i].nativeColor == color && forall j | 0 <= j < i :: decoders[j].nativeColor != color
    ensures (forall j | 0 <= j < |decoders| :: decoders[j].nativeColor != color) ==>
      color in decoders[i].supportedColors
      && forall j | 0 <= j < i :: color !in decoders[j].supportedColors
  {
    match FindFirst(decoders, d => IsNative(color, d), 0)
    case Some(i) => i
    case None =>
      InAllColors(color);
      assert SupportedBySome(decoders, color);
      var found := FindFirst(decoders, d => Produces(color, d), 0);
      assert found.Some? by {
        var j :| 0 <= j < |decoders| && color in decoders[j].supportedColors;
        assert Produces(color, decoders[j]);
      }
      found.value
  }

  /** Each decoder can produce its own native color, as `new_with_all_channels` builds them. */
  predicate ProducesNative(decoders: seq<DirectDecoder>)
  {
    forall i | 0 <= i < |decoders| :: decoders[i].nativeColor in decoders[i].supportedColors
  }

  /** The decoder chosen for a color can always produce that color. */
  lemma GetDirectDecoderProduces(decoders: seq<DirectDecoder>, color: ColorFormat)
    requires ValidDirectSet(decoders) && ProducesNative(decoders)
    ensures color in decoders[GetDirectDecoder(decoders, color)].supportedColors
  {
  }

  /** Decoding to the set's native color, the color of its first decoder, uses that decoder. */
  lemma GetDirectDecoderNative(decoders: seq<DirectDecoder>)
    requires ValidDirectSet(decoders)
    ensures GetDirectDecoder(decoders, decoders[0].nativeColor) == 0
  {
  }

  /**
   * An uncompressed decoder: one per-pixel process function (not represented), its native
   * color and the byte sizes of an encoded and of a decoded pixel.
   */
  datatype UncompressedDecoder = UncompressedDecoder(nativeColor: ColorFormat, encodedSize: u8, decodedSize: u8)

  /**
   * `UncompressedDecoder::new`, which asserts that a decoded pixel has the native color's
   * size.
   */
  function NewUncompressedDecoder(color: ColorFormat, encodedSize: u8, decodedSize: u8)
    : (d: UncompressedDecoder)
    requires decodedSize == BytesPerPixel(color)
    ensures d.nativeColor == color && d.decodedSize == BytesPerPixel(color)
    ensures d.encodedSize == encodedSize
  {
    UncompressedDecoder(color, encodedSize, decodedSize)
  }

  /** No two decoders share a native color (a channel-precision combination). */
  predicate DistinctColors(decoders: seq<UncompressedDecoder>)
  {
    forall i, j | 0 <= i < j < |decoders| :: decoders[i].nativeColor != decoders[j].nativeColor
  }

  predicate HasPrecision(decoders: seq<UncompressedDecoder>, p: Precision)
  {
    exists i | 0 <= i < |decoders| :: decoders[i].nativeColor.precision == p
  }

  /** Every precision is the native precision of some decoder. */
  predicate HasEveryPrecision(decoders: seq<UncompressedDecoder>)
  {
    HasPrecision(decoders, U8) && HasPrecision(decoders, U16) && HasPrecision(decoders, F32)
  }

  predicate ValidUncompressedSet(decoders: seq<UncompressedDecoder>)
  {
    |decoders| > 0 && DistinctColors(decoders) && HasEveryPrecision(decoders)
  }

  /** The three panics of `UncompressedDecoderSet::verify`, in the order it checks for them. */
  datatype VerifyFailure = EmptyList | RepeatedColor | MissingPrecision

  /** `Precision::COUNT`. */
  const PRECISION_COUNT := 3

  /** A set of precisions has all `Precision::COUNT` members exactly when it holds every precision. */
  lemma PrecisionCount(s: set<Precision>)
    ensures |s| == PRECISION_COUNT <==> U8 in s && U16 in s && F32 in s
  {
    var all := {U8, U16, F32};
    forall p | p in s
      ensures p in all
    {
      match p {
        case U8 =>
        case U16 =>
        case F32 =>
      }
    }
    if U8 in s && U16 in s && F32 in s {
      assert s == all;
    } else {
      var missing :| missing in all && missing !in s;
      var rest := all - {missing};
      assert |rest| == 2;
      assert s <= rest;
      SubsetCard(s, rest);
    }
  }

  lemma SubsetCard<X>(a: set<X>, b: set<X>)
    requires a <= b
    ensures |a| <= |b|
  {
    assert b == a + (b - a);
  }

  /**
   * `UncompressedDecoderSet::verify`: the first loop records each native color in a bit set
   * and stops at a repeat, the second records the native precisions and counts them. Bit
   * sets are represented as sets.
   */
  method Verify(decoders: seq<UncompressedDecoder>) returns (r: Option<VerifyFailure>)
    ensures r == None <==> ValidUncompressedSet(decoders)
    ensures r == Some(EmptyList) <==> |decoders| == 0
    ensures r == Some(RepeatedColor) <==> |decoders| > 0 && !DistinctColors(decoders)
    ensures r == Some(MissingPrecision) <==>
      |decoders| > 0 && DistinctColors(decoders) && !HasEveryPrecision(decoders)
  {
    if |decoders| == 0 {
      return Some(EmptyList);
    }

    var colors: set<ColorFormat> := {};
    var i := 0;
    while i < |decoders|
      invariant 0 <= i <= |decoders|
      invariant colors == set j | 0 <= j < i :: decoders[j].nativeColor
      invariant DistinctColors(decoders[..i])
    {
      var color := decoders[i].nativeColor;
      if color in colors {
        var j :| 0 <= j < i && decoders[j].nativeColor == color;
        assert !DistinctColors(decoders);
        return Some(RepeatedColor);
      }
      colors := colors + {color};
      i := i + 1;
    }
    assert decoders[..i] == decoders;

    var precisions: set<Precision> := {};
    i := 0;
    while i < |decoders|
      invariant 0 <= i <= |decoders|
      invariant precisions == set j | 0 <= j < i :: decoders[j].nativeColor.precision
    {
      precisions := precisions + {decoders[i].nativeColor.precision};
      i := i + 1;
    }
    PrecisionCount(precisions);
    if |precisions| != PRECISION_COUNT {
      return Some(MissingPrecision);
    }
    return None;
  }

  predicate IsNativeUncompressed(color: ColorFormat, d: UncompressedDecoder)
  {
    d.nativeColor == color
  }

  predicate SamePrecision(color: ColorFormat, d: UncompressedDecoder)
  {
    d.nativeColor.precision == color.precision
  }

  /**
   * `get_closest_process_fn`: the first decoder with exactly the requested color, and
   * failing that the first with the requested precision. With every precision present the
   * second search cannot fail, so the chosen decoder always has the requested precision.
   */
  function GetClosestProcessFn(decoders: seq<UncompressedDecoder>, color: ColorFormat): (i: nat)
    requires HasEveryPrecision(decoders)
    ensures i < |decoders|
    ensures decoders[i].nativeColor.precision == color.precision
    ensures (exists j | 0 <= j < |decoders| :: decoders[j].nativeColor == color) ==>
      decoders[i].nativeColor == color && forall j | 0 <= j < i :: decoders[j].nativeColor != color
    ensures (forall j | 0 <= j < |decoders| :: decoders[j].nativeColor != color) ==>
      forall j | 0 <= j < i :: decoders[j].nativeColor.precision != color.precision
  {
    match FindFirst(decoders, d => IsNativeUncompressed(color, d), 0)
    case Some(i) => i
    case None =>
      var found := FindFirst(decoders, d => SamePrecision(color, d), 0);
      assert found.Some? by {
        assert HasPrecision(decoders, color.precision);
        var j :| 0 <= j < |decoders| && decoders[j].nativeColor.precision == color.precision;
        assert SamePrecision(color, decoders[j]);
      }
      found.value
  }

  /** In a valid set each color is decoded by the decoder native to it, when there is one. */
  lemma GetClosestProcessFnNative(decoders: seq<UncompressedDecoder>, i: nat)
    requires ValidUncompressedSet(decoders) && i < |decoders|
    ensures GetClosestProcessFn(decoders, decoders[i].nativeColor) == i
  {
  }

  /** The two kinds of decoder lists. */
  datatype Inner = List(direct: seq<DirectDecoder>) | Uncompressed(uncompressed: seq<UncompressedDecoder>)

  /**
   * The decoders of one format and, optionally, the color of a specialized full-image
   * decode function (the function itself is not represented).
   */
  datatype DecoderSet = DecoderSet(decoders: Inner, optimized: Option<ColorFormat>)

  /** A set whose lists satisfy what their constructors check. */
  predicate ValidDecoderSet(set_: DecoderSet)
  {
    match set_.decoders
    case List(ds) => ValidDirectSet(ds)
    case Uncompressed(ds) => ValidUncompressedSet(ds)
  }

  /** `DecoderSet::new`, the assertions of `DirectDecoderSet::new` as its precondition. */
  function NewDecoderSet(decoders: seq<DirectDecoder>): (s: DecoderSet)
    requires ValidDirectSet(decoders)
    ensures ValidDecoderSet(s) && s.optimized.None? && s.decoders == List(decoders)
  {
    DecoderSet(List(decoders), None)
  }

  /** `DecoderSet::new_uncompressed`, with the checks of `verify` as its precondition. */
  function NewUncompressedSet(decoders: seq<UncompressedDecoder>): (s: DecoderSet)
    requires ValidUncompressedSet(decoders)
    ensures ValidDecoderSet(s) && s.optimized.None? && s.decoders == Uncompressed(decoders)
  {
    DecoderSet(Uncompressed(decoders), None)
  }

  /**
   * `add_specialized`: at most one specialized function per set; the decoders are kept and
   * validity is preserved.
   */
  function AddSpecialized(set_: DecoderSet, channels: Channels, precision: Precision): (s: DecoderSet)
    requires set_.optimized.None?
    ensures s.decoders == set_.decoders
    ensures s.optimized == Some(ColorFormat(channels, precision))
    ensures ValidDecoderSet(set_) ==> ValidDecoderSet(s)
  {
    DecoderSet(set_.decoders, Some(ColorFormat(channels, precision)))
  }

  /** `native_color`: the native color of the first decoder of the list. */
  function NativeColor(set_: DecoderSet): (c: ColorFormat)
    requires ValidDecoderSet(set_)
    ensures set_.decoders.List? ==> c == set_.decoders.direct[0].nativeColor
    ensures set_.decoders.Uncompressed? ==> c == set_.decoders.uncompressed[0].nativeColor
  {
    match set_.decoders
    case List(ds) => ds[0].nativeColor
    case Uncompressed(ds) => ds[0].nativeColor
  }

  /** What a decode call ends up running. */
  datatype Dispatch =
    | NothingToDo
    | Specialized
    | DirectFn(index: nat)
    | ProcessFn(decoder: UncompressedDecoder)

  /** The list decoder a color is dispatched to. */
  function ListDispatch(set_: DecoderSet, color: ColorFormat): (d: Dispatch)
    requires ValidDecoderSet(set_)
    ensures set_.decoders.List? ==> d == DirectFn(GetDirectDecoder(set_.decoders.direct, color))
    ensures set_.decoders.Uncompressed? ==>
      d == ProcessFn(set_.decoders.uncompressed[GetClosestProcessFn(set_.decoders.uncompressed, color)])
    ensures set_.decoders.Uncompressed? ==>
      d.ProcessFn? && d.decoder in set_.decoders.uncompressed && d.decoder.nativeColor.precision == color.precision
  {
    match set_.decoders
    case List(ds) => DirectFn(GetDirectDecoder(ds, color))
    case Uncompressed(ds) => ProcessFn(ds[GetClosestProcessFn(ds, color)])
  }

  /**
   * `DecoderSet::decode`: the buffer is validated first; an empty image then runs nothing;
   * the specialized function runs only for exactly its color; otherwise the list decides.
   */
  function Decode(set_: DecoderSet, color: ColorFormat, size: Size, outputLen: nat)
    : (r: Result<Dispatch, DecodeError>)
    requires ValidDecoderSet(set_)
    ensures r.Err? <==> CheckArgs(outputLen, color, size).Err?
    ensures r.Err? ==> r.error == UnexpectedBufferSize(RequiredBytes(size, color))
    ensures r == Ok(NothingToDo) <==> r.Ok? && IsEmpty(size)
    ensures r == Ok(Specialized) <==> r.Ok? && !IsEmpty(size) && set_.optimized == Some(color)
    ensures r.Ok? && !IsEmpty(size) && set_.optimized != Some(color) ==>
      r.value == ListDispatch(set_, color)
  {
    var args := CheckArgs(outputLen, color, size);
    if args.Err? then Err(args.error)
    else if IsEmpty(size) then Ok(NothingToDo)
    else if set_.optimized == Some(color) then Ok(Specialized)
    else Ok(ListDispatch(set_, color))
  }

  /** An empty image never reaches a decoder, whatever the buffer. */
  lemma DecodeEmptyRunsNothing(set_: DecoderSet, color: ColorFormat, size: Size, outputLen: nat)
    requires ValidDecoderSet(set_) && IsEmpty(size)
    ensures Decode(set_, color, size, outputLen) ==
      if outputLen == 0 then Ok(NothingToDo) else Err(UnexpectedBufferSize(0))
  {
    IsEmptyIffNoPixels(size);
  }

  /**
   * `DecoderSet::decode_rect`: the rect arguments are validated first; an empty rect runs
   * nothing; the specialized full-image function is never used.
   */
  function DecodeRect(set_: DecoderSet, color: ColorFormat, size: Size, rect: Rect, outputLen: nat,
                      rowPitch: u64): (r: Result<Dispatch, DecodeError>)
    requires ValidDecoderSet(set_)
    ensures r.Err? <==> CheckRectArgs(outputLen, rowPitch, rect, color, size).Err?
    ensures r.Err? ==> r.error == CheckRectArgs(outputLen, rowPitch, rect, color, size).error
    ensures r == Ok(NothingToDo) <==> r.Ok? && IsEmpty(RectSize(rect))
    ensures r != Ok(Specialized)
    ensures r.Ok? && !IsEmpty(RectSize(rect)) ==> r.value == ListDispatch(set_, color)
  {
    var args := CheckRectArgs(outputLen, rowPitch, rect, color, size);
    if args.Err? then Err(args.error)
    else if IsEmpty(RectSize(rect)) then Ok(NothingToDo)
    else Ok(ListDispatch(set_, color))
  }
}
