/**
 * Channel adaptation of `src/decode/adapt.rs`. A surface decodes natively to
 * one set of channels; when the caller asks for other channels, each decoded
 * pixel is mapped to the requested ones, or, where the native pixel carries
 * nothing the target keeps, the whole output is filled with one value.
 *
 * Channel values have a generic type `T` (the precision: `u8`, `u16` or `f32`
 * in the source) whose 0, one half and 1.0 are given by a `Convert.Norm<T>`.
 * A pixel is a sequence of channel values.
 */
module Adapt {
  import opened Util
  import opened Format
  import Convert

  // ---------------------------------------------------------------------------
  // The eight per-pixel channel functions. Each widening one is the RGBA reading
  // of its pixel (`AsRgba` below) or the decoders' own `ToRgb`; each narrowing one
  // projects an RGBA pixel onto its target channels (`Project`).

  function AlphaToRgba<T>(p: seq<T>, n: Convert.Norm<T>): (q: seq<T>)
    requires |p| == 1
    ensures q == AsRgba(Alpha, p, n)
  {
    [n.zero, n.zero, n.zero, p[0]]
  }

  function GrayscaleToRgb<T>(p: seq<T>): (q: seq<T>)
    requires |p| == 1
    ensures q == Convert.ToRgb(p)
  {
    [p[0], p[0], p[0]]
  }

  function GrayscaleToRgba<T>(p: seq<T>, n: Convert.Norm<T>): (q: seq<T>)
    requires |p| == 1
    ensures q == AsRgba(Grayscale, p, n)
  {
    [p[0], p[0], p[0], n.one]
  }

  function RgbToGrayscale<T>(p: seq<T>): (q: seq<T>)
    requires |p| == 3
    ensures |q| == 1 && q[0] == p[0]
  {
    [p[0]]
  }

  function RgbToRgba<T>(p: seq<T>, n: Convert.Norm<T>): (q: seq<T>)
    requires |p| == 3
    ensures q == AsRgba(Rgb, p, n)
  {
    [p[0], p[1], p[2], n.one]
  }

  function RgbaToGrayscale<T>(p: seq<T>): (q: seq<T>)
    requires |p| == 4
    ensures q == Project(Grayscale, p)
  {
    [p[0]]
  }

  function RgbaToAlpha<T>(p: seq<T>): (q: seq<T>)
    requires |p| == 4
    ensures q == Project(Alpha, p)
  {
    [p[3]]
  }

  function RgbaToRgb<T>(p: seq<T>): (q: seq<T>)
    requires |p| == 4
    ensures q == Project(Rgb, p)
  {
    [p[0], p[1], p[2]]
  }

  /** Adding an opaque alpha to an RGB pixel and dropping it again gives the pixel back. */
  lemma RgbRoundTrip<T>(p: seq<T>, n: Convert.Norm<T>)
    requires |p| == 3
    ensures RgbaToRgb(RgbToRgba(p, n)) == p
  {
    assert RgbaToRgb(RgbToRgba(p, n)) == [p[0], p[1], p[2]];
  }

  /** Widening an alpha-only pixel to RGBA and reading its alpha gives the pixel back. */
  lemma AlphaRoundTrip<T>(p: seq<T>, n: Convert.Norm<T>)
    requires |p| == 1
    ensures RgbaToAlpha(AlphaToRgba(p, n)) == p
  {
    assert RgbaToAlpha(AlphaToRgba(p, n)) == [p[0]];
  }

  /** Replicating a gray value and taking the red channel gives the gray value back. */
  lemma GrayscaleRoundTrip<T>(p: seq<T>, n: Convert.Norm<T>)
    requires |p| == 1
    ensures RgbToGrayscale(GrayscaleToRgb(p)) == p
    ensures RgbaToGrayscale(GrayscaleToRgba(p, n)) == p
  {
    assert RgbToGrayscale(GrayscaleToRgb(p)) == [p[0]];
  }

  /** The widening maps agree with the decoders' own `ToRgba`/`ToRgb` channel conversions. */
  lemma AgreesWithConvert<T>(p: seq<T>, n: Convert.Norm<T>)
    ensures |p| == 1 ==> GrayscaleToRgba(p, n) == Convert.ToRgba(p, n) && GrayscaleToRgb(p) == Convert.ToRgb(p)
    ensures |p| == 3 ==> RgbToRgba(p, n) == Convert.ToRgba(p, n)
    ensures |p| == 4 ==> RgbaToRgb(p) == Convert.ToRgb(p)
  {
  }

  // ---------------------------------------------------------------------------
  // Reference: every conversion goes through an RGBA view of the pixel.

  /**
   * The RGBA reading of a pixel: gray is replicated into the color channels,
   * an alpha-only pixel is black, and a pixel without alpha is opaque.
   */
  function AsRgba<T>(c: Channels, p: seq<T>, n: Convert.Norm<T>): (q: seq<T>)
    requires |p| == ChannelCount(c)
    ensures |q| == 4
    ensures c != Alpha ==> q[0] == p[0]
    ensures c == Alpha ==> q[..3] == [n.zero, n.zero, n.zero] && q[3] == p[0]
    ensures c == Grayscale || c == Rgb ==> q[3] == n.one
  {
    match c
    case Grayscale => [p[0], p[0], p[0], n.one]
    case Alpha => [n.zero, n.zero, n.zero, p[0]]
    case Rgb => [p[0], p[1], p[2], n.one]
    case Rgba => p
  }

  /** The channels `c` of an RGBA pixel: gray is its red channel. */
  function Project<T>(c: Channels, q: seq<T>): (p: seq<T>)
    requires |q| == 4
    ensures |p| == ChannelCount(c)
  {
    match c
    case Grayscale => [q[0]]
    case Alpha => [q[3]]
    case Rgb => q[..3]
    case Rgba => q
  }

  /** Reading a pixel as RGBA loses nothing: projecting back to its own channels restores it. */
  lemma ProjectAsRgba<T>(c: Channels, p: seq<T>, n: Convert.Norm<T>)
    requires |p| == ChannelCount(c)
    ensures Project(c, AsRgba(c, p, n)) == p
  {
    match c
    case Grayscale => assert Project(c, AsRgba(c, p, n)) == [p[0]];
    case Alpha => assert Project(c, AsRgba(c, p, n)) == [p[0]];
    case Rgb => assert Project(c, AsRgba(c, p, n)) == [p[0], p[1], p[2]];
    case Rgba =>
  }

  // ---------------------------------------------------------------------------
  // Dispatch.

  /** What an adapter is told to do: decode directly, fill with one value, or map each pixel. */
  datatype Adaptation<T> = Direct | Fill(value: T) | Map(from: Channels, to: Channels)

  /** The eight channel pairs that are mapped pixel by pixel. */
  predicate IsMapPair(from: Channels, to: Channels)
  {
    from != to && !(to == Alpha && from != Rgba) && !(from == Alpha && to != Rgba)
  }

  /** The per-pixel function `adapt_for` hands to `map` for a mapped pair. */
  function MapPixel<T>(from: Channels, to: Channels, p: seq<T>, n: Convert.Norm<T>): (q: seq<T>)
    requires IsMapPair(from, to) && |p| == ChannelCount(from)
    ensures |q| == ChannelCount(to)
  {
    match (from, to)
    case (Grayscale, Rgb) => GrayscaleToRgb(p)
    case (Grayscale, Rgba) => GrayscaleToRgba(p, n)
    case (Alpha, Rgba) => AlphaToRgba(p, n)
    case (Rgb, Grayscale) => RgbToGrayscale(p)
    case (Rgb, Rgba) => RgbToRgba(p, n)
    case (Rgba, Grayscale) => RgbaToGrayscale(p)
    case (Rgba, Alpha) => RgbaToAlpha(p)
    case (Rgba, Rgb) => RgbaToRgb(p)
  }

  /** `adapt_for`: the match over every (from, to) pair of channels. */
  function AdaptFor<T>(from: Channels, to: Channels, n: Convert.Norm<T>): (a: Adaptation<T>)
    ensures a.Map? ==> a.from == from && a.to == to && IsMapPair(from, to)
  {
    match (from, to)
    case (Grayscale, Grayscale) => Direct
    case (Alpha, Alpha) => Direct
    case (Rgb, Rgb) => Direct
    case (Rgba, Rgba) => Direct
    case (Grayscale, Alpha) => Fill(n.one)
    case (Rgb, Alpha) => Fill(n.one)
    case (Alpha, Grayscale) => Fill(n.zero)
    case (Alpha, Rgb) => Fill(n.zero)
    case (Grayscale, Rgb) => Map(from, to)
    case (Grayscale, Rgba) => Map(from, to)
    case (Alpha, Rgba) => Map(from, to)
    case (Rgb, Grayscale) => Map(from, to)
    case (Rgb, Rgba) => Map(from, to)
    case (Rgba, Grayscale) => Map(from, to)
    case (Rgba, Alpha) => Map(from, to)
    case (Rgba, Rgb) => Map(from, to)
  }

  /** `adapt`: identical channels go direct whatever the precision, the rest is `adapt_for`. */
  function Adapt<T>(from: Channels, to: Channels, n: Convert.Norm<T>): (a: Adaptation<T>)
    ensures a == AdaptFor(from, to, n)
  {
    if from == to then Direct else AdaptFor(from, to, n)
  }

  /**
   * Which pairs go direct and which are filled: identity pairs go direct, a
   * target of alpha alone is filled with 1.0, and an alpha-only source read as
   * gray or RGB is filled with 0.
   */
  lemma AdaptForCases<T>(from: Channels, to: Channels, n: Convert.Norm<T>)
    ensures AdaptFor(from, to, n) == Direct <==> from == to
    ensures from != to && to == Alpha && from != Rgba ==> AdaptFor(from, to, n) == Fill(n.one)
    ensures from != to && from == Alpha && to != Rgba ==> AdaptFor(from, to, n) == Fill(n.zero)
    ensures AdaptFor(from, to, n).Map? <==> IsMapPair(from, to)
  {
  }

  /** The output pixel an adaptation produces from an input pixel with channels `from`. */
  function Outcome<T>(a: Adaptation<T>, from: Channels, to: Channels, p: seq<T>, n: Convert.Norm<T>): seq<T>
    requires |p| == ChannelCount(from)
    requires a == AdaptFor(from, to, n)
  {
    match a
    case Direct => p
    case Fill(v) => Util.Fill(v, ChannelCount(to))
    case Map(f, t) => MapPixel(f, t, p, n)
  }

  /**
   * The dispatch is right for every pair: whatever `adapt_for` chooses, the
   * output pixel is the input read as RGBA and projected onto the target
   * channels.
   */
  lemma AdaptForIsRgbaView<T>(from: Channels, to: Channels, p: seq<T>, n: Convert.Norm<T>)
    requires |p| == ChannelCount(from)
    ensures Outcome(AdaptFor(from, to, n), from, to, p, n) == Project(to, AsRgba(from, p, n))
  {
    var out := Outcome(AdaptFor(from, to, n), from, to, p, n);
    var ref := Project(to, AsRgba(from, p, n));
    if from == to {
      ProjectAsRgba(from, p, n);
    } else {
      assert |out| == |ref|;
      forall i | 0 <= i < |ref|
        ensures out[i] == ref[i]
      {
      }
    }
  }

  // ---------------------------------------------------------------------------
  // `UncompressedAdapter`: the adapter that writes the decoded buffer.

  /** `BUFFER_PIXELS`: `map` converts at most this many pixels per chunk. */
  const BUFFER_PIXELS: nat := 64

  /**
   * The pixels a process function decodes from a chunk of encoded pixels: each
   * pixel is decoded on its own by `decodePixel`.
   */
  function DecodePixels<E, Q>(chunk: seq<E>, decodePixel: E -> Q): (qs: seq<Q>)
    ensures |qs| == |chunk|
    ensures forall j | 0 <= j < |qs| :: qs[j] == decodePixel(chunk[j])
  {
    seq(|chunk|, j requires 0 <= j < |chunk| => decodePixel(chunk[j]))
  }

  /** `UncompressedAdapter::fill`: every output value becomes `value`. */
  method FillPixels<V>(decoded: array<V>, value: V)
    modifies decoded
    ensures forall i | 0 <= i < decoded.Length :: decoded[i] == value
  {
    var i := 0;
    while i < decoded.Length
      invariant 0 <= i <= decoded.Length
      invariant forall k | 0 <= k < i :: decoded[k] == value
    {
      decoded[i] := value;
      i := i + 1;
    }
  }

  /** `UncompressedAdapter::direct`: the process function decodes straight into the output. */
  method DirectPixels<E, P>(encoded: seq<E>, decoded: array<P>, decodePixel: E -> P)
    requires |encoded| == decoded.Length
    modifies decoded
    ensures forall k | 0 <= k < decoded.Length :: decoded[k] == decodePixel(encoded[k])
  {
    var all := DecodePixels(encoded, decodePixel);
    var i := 0;
    while i < decoded.Length
      invariant 0 <= i <= decoded.Length
      invariant forall k | 0 <= k < i :: decoded[k] == decodePixel(encoded[k])
    {
      decoded[i] := all[i];
      i := i + 1;
    }
  }

  /**
   * `UncompressedAdapter::map`: the encoded pixels are decoded in chunks of
   * `BUFFER_PIXELS` into a scratch buffer, and each decoded pixel is mapped by
   * `f` into the output. The encoded and the output chunks are zipped, so
   * output pixel `k` comes from encoded pixel `k`.
   */
  method MapPixels<E, Q, P>(encoded: seq<E>, decoded: array<P>, decodePixel: E -> Q, f: Q --> P)
    requires decoded.Length > 0 && |encoded| == decoded.Length
    requires forall e :: f.requires(decodePixel(e))
    modifies decoded
    ensures forall k | 0 <= k < decoded.Length :: decoded[k] == f(decodePixel(encoded[k]))
  {
    var pixels := decoded.Length;
    var start := 0;
    while start < pixels
      invariant 0 <= start <= pixels
      invariant forall k | 0 <= k < start :: decoded[k] == f(decodePixel(encoded[k]))
    {
      var len := Min(BUFFER_PIXELS, pixels - start);
      var buffer := DecodePixels(encoded[start..start + len], decodePixel);
      var j := 0;
      while j < len
        invariant 0 <= j <= len
        invariant forall k | 0 <= k < start + j :: decoded[k] == f(decodePixel(encoded[k]))
      {
        decoded[start + j] := f(buffer[j]);
        j := j + 1;
      }
      start := start + len;
    }
  }

  /**
   * `adapt` run on an `UncompressedAdapter`: the output holds pixels with the
   * target channels, and output pixel `k` is encoded pixel `k`, decoded in its
   * native channels and then read as RGBA and projected onto the target.
   */
  method AdaptPixels<E, T>(encoded: seq<E>, decoded: array<seq<T>>, from: Channels, to: Channels,
                           n: Convert.Norm<T>, decodePixel: E -> seq<T>)
    requires decoded.Length > 0 && |encoded| == decoded.Length
    requires forall e :: |decodePixel(e)| == ChannelCount(from)
    modifies decoded
    ensures forall k | 0 <= k < decoded.Length ::
      decoded[k] == Project(to, AsRgba(from, decodePixel(encoded[k]), n))
  {
    var a := Adapt(from, to, n);
    match a {
      case Direct =>
        DirectPixels(encoded, decoded, decodePixel);
      case Fill(v) =>
        FillPixels(decoded, Util.Fill(v, ChannelCount(to)));
      case Map(f, t) =>
        MapPixels(encoded, decoded, decodePixel, p requires |p| == ChannelCount(f) => MapPixel(f, t, p, n));
    }
    forall k | 0 <= k < decoded.Length
      ensures decoded[k] == Project(to, AsRgba(from, decodePixel(encoded[k]), n))
    {
      AdaptForIsRgbaView(from, to, decodePixel(encoded[k]), n);
    }
  }
}
