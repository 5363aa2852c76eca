/**
 * The test oracle of `tests/util.rs`: images as flat channel data, the reference channel
 * conversion the decoder's channel adaptation is checked against, the channels a PNG
 * snapshot is written in, the row stride, and the widening of 8-bit images to 16 bits.
 */
module TestUtil {
  import opened Util
  import opened Format
  import Convert
  import Adapt

  /** An image: `width * height` pixels of `channels`, stored channel value by channel value. */
  datatype Image<T> = Image(data: seq<T>, channels: Channels, size: Size)

  predicate WellFormed<T>(img: Image<T>)
  {
    |img.data| == img.size.width * img.size.height * ChannelCount(img.channels)
  }

  /** `Image::stride`: the bytes of one row, for channel values of `valueSize` bytes. */
  function Stride<T>(img: Image<T>, valueSize: nat): (s: nat)
    ensures s == img.size.width * ChannelCount(img.channels) * valueSize
  {
    img.size.width * ChannelCount(img.channels) * valueSize
  }

  /** Rows of `stride` bytes tile the data of a well-formed image exactly. */
  lemma StrideTilesData<T>(img: Image<T>, valueSize: nat)
    requires WellFormed(img)
    ensures Stride(img, valueSize) * img.size.height == |img.data| * valueSize
  {
    var w, h, c := img.size.width, img.size.height, ChannelCount(img.channels);
    assert (w * c * valueSize) * h == (w * h * c) * valueSize;
  }

  /** `Image::to_u16`: each 8-bit value `x` becomes `x * 257`. */
  function ToU16(img: Image<u8>): (r: Image<u16>)
    ensures r.channels == img.channels && r.size == img.size && |r.data| == |img.data|
    ensures forall i | 0 <= i < |r.data| :: r.data[i] == Convert.Rescale(img.data[i], 255, 65535)
  {
    var data: seq<u16> := seq(|img.data|, i requires 0 <= i < |img.data| => (img.data[i] as int) * 257);
    assert forall i | 0 <= i < |data| :: data[i] == Convert.N8ToN16(img.data[i]);
    Image(data, img.channels, img.size)
  }

  /** The PNG color types a snapshot can be written in. */
  datatype PngColorType = PngGrayscale | PngRgb | PngRgba

  /**
   * `to_png_compatible_channels`: PNG has no alpha-only color type, so an alpha image is
   * written as RGBA; the other channel types are kept, with their own color type.
   */
  function ToPngCompatibleChannels(c: Channels): (r: (Channels, PngColorType))
    ensures c == Alpha ==> r.0 == Rgba
    ensures c != Alpha ==> r.0 == c
    ensures r.1 == (match r.0 case Grayscale => PngGrayscale case Rgb => PngRgb case _ => PngRgba)
  {
    match c
    case Grayscale => (Grayscale, PngGrayscale)
    case Alpha => (Rgba, PngRgba)
    case Rgb => (Rgb, PngRgb)
    case Rgba => (Rgba, PngRgba)
  }

  /** The closure `convert_channels` maps each pixel with, for two different channel types. */
  function ConvertPixel<T>(from: Channels, to: Channels, p: seq<T>, n: Convert.Norm<T>): (q: seq<T>)
    requires from != to && |p| == ChannelCount(from)
    ensures |q| == ChannelCount(to)
  {
    match (from, to)
    case (Grayscale, Alpha) => [n.one]
    case (Grayscale, Rgb) => [p[0], p[0], p[0]]
    case (Grayscale, Rgba) => [p[0], p[0], p[0], n.one]
    case (Alpha, Grayscale) => [n.zero]
    case (Alpha, Rgb) => [n.zero, n.zero, n.zero]
    case (Alpha, Rgba) => [n.zero, n.zero, n.zero, p[0]]
    case (Rgb, Grayscale) => [p[0]]
    case (Rgb, Alpha) => [n.one]
    case (Rgb, Rgba) => [p[0], p[1], p[2], n.one]
    case (Rgba, Grayscale) => [p[0]]
    case (Rgba, Alpha) => [p[3]]
    case (Rgba, Rgb) => [p[0], p[1], p[2]]
  }

  /**
   * The test oracle and the decoder agree on every pair: what `adapt_for` does to a pixel
   * is what the oracle does, and both are the pixel read as RGBA and projected.
   */
  lemma ConvertPixelIsAdaptation<T>(from: Channels, to: Channels, p: seq<T>, n: Convert.Norm<T>)
    requires from != to && |p| == ChannelCount(from)
    ensures ConvertPixel(from, to, p, n) == Adapt.Project(to, Adapt.AsRgba(from, p, n))
    ensures ConvertPixel(from, to, p, n) == Adapt.Outcome(Adapt.AdaptFor(from, to, n), from, to, p, n)
  {
    Adapt.AdaptForIsRgbaView(from, to, p, n);
    var q := ConvertPixel(from, to, p, n);
    var ref := Adapt.Project(to, Adapt.AsRgba(from, p, n));
    assert |q| == |ref|;
    forall i | 0 <= i < |ref|
      ensures q[i] == ref[i]
    {
    }
  }

  /** An alpha image converted for PNG and back loses nothing; other images are not converted. */
  lemma PngChannelsLossless<T>(p: seq<T>, n: Convert.Norm<T>)
    requires |p| == 1
    ensures ConvertPixel(Rgba, Alpha, ConvertPixel(Alpha, ToPngCompatibleChannels(Alpha).0, p, n), n) == p
  {
  }

  /** `a * m / m == a`, with no remainder. */
  lemma MulDivCancel(a: nat, m: nat)
    requires m > 0
    ensures (a * m) / m == a && (a * m) % m == 0
  {
    Convert.DivBetween(a * m, m, a);
  }

  /** Pixel `i` of flat data with `n` values per pixel. */
  function PixelAt<T>(data: seq<T>, n: nat, i: nat): (p: seq<T>)
    requires n > 0 && i < |data| / n
    ensures |p| == n
  {
    MulMonotone(i + 1, n, |data| / n, n);
    data[i * n..i * n + n]
  }

  /** The flat data split into consecutive pixels of `n` values: the `cast_slice` view. */
  function Chunks<T>(data: seq<T>, n: nat): (ps: seq<seq<T>>)
    requires n > 0 && |data| % n == 0
    ensures |ps| == |data| / n
    ensures forall i | 0 <= i < |ps| :: ps[i] == PixelAt(data, n, i)
  {
    seq(|data| / n, i requires 0 <= i < |data| / n => PixelAt(data, n, i))
  }

  /** The pixels laid out one after another: the flat buffer behind a `cast_slice_mut` view. */
  function Flatten<T>(ps: seq<seq<T>>): seq<T>
  {
    if |ps| == 0 then [] else ps[0] + Flatten(ps[1..])
  }

  lemma {:induction false} FlattenLength<T>(ps: seq<seq<T>>, m: nat)
    requires m > 0 && forall i | 0 <= i < |ps| :: |ps[i]| == m
    ensures |Flatten(ps)| == |ps| * m
    ensures |Flatten(ps)| / m == |ps| && |Flatten(ps)| % m == 0
  {
    if |ps| > 0 {
      FlattenLength(ps[1..], m);
      assert |Flatten(ps)| == m + (|ps| - 1) * m;
    }
    MulDivCancel(|ps|, m);
  }

  /** Behind a first pixel of `m` values, pixel `i` is pixel `i - 1` of the rest. */
  lemma PixelAfterHead<T>(head: seq<T>, rest: seq<T>, m: nat, i: nat)
    requires m > 0 && |head| == m && 0 < i && i - 1 < |rest| / m
    ensures i < |head + rest| / m
    ensures PixelAt(head + rest, m, i) == PixelAt(rest, m, i - 1)
  {
    var j := (i - 1) * m;
    assert i * m == j + m;
    MulMonotone(i, m, |rest| / m, m);
    assert (|rest| / m) * m <= |rest|;
    assert |head + rest| >= (i + 1) * m;
    Convert.DivMonotone((i + 1) * m, |head + rest|, m);
    MulDivCancel(i + 1, m);
    var whole := head + rest;
    assert whole[j + m..j + m + m] == rest[j..j + m];
  }

  /** Pixel `i` of flattened pixels of `m` values is pixel `i` itself. */
  lemma {:induction false} FlattenPixel<T>(ps: seq<seq<T>>, m: nat, i: nat)
    requires m > 0 && forall j | 0 <= j < |ps| :: |ps[j]| == m
    requires i < |ps|
    ensures |Flatten(ps)| / m == |ps|
    ensures PixelAt(Flatten(ps), m, i) == ps[i]
  {
    FlattenLength(ps, m);
    if i > 0 {
      FlattenLength(ps[1..], m);
      FlattenPixel(ps[1..], m, i - 1);
      PixelAfterHead(ps[0], Flatten(ps[1..]), m, i);
    }
  }

  /** Viewing flattened pixels of `m` values as pixels again gives back the same pixels. */
  lemma ChunksFlatten<T>(ps: seq<seq<T>>, m: nat)
    requires m > 0 && forall i | 0 <= i < |ps| :: |ps[i]| == m
    ensures |Flatten(ps)| == |ps| * m && |Flatten(ps)| % m == 0
    ensures Chunks(Flatten(ps), m) == ps
  {
    FlattenLength(ps, m);
    var cs := Chunks(Flatten(ps), m);
    forall i | 0 <= i < |ps|
      ensures cs[i] == ps[i]
    {
      FlattenPixel(ps, m, i);
    }
  }

  /**
   * The inner `convert` of `convert_channels`: one output pixel per input pixel, each the
   * converted input pixel, written through a pixel view of a zero-initialized buffer.
   */
  method ConvertPixels<T>(data: seq<T>, from: Channels, to: Channels, n: Convert.Norm<T>)
    returns (result: seq<T>)
    requires from != to && |data| % ChannelCount(from) == 0
    ensures |result| == |data| / ChannelCount(from) * ChannelCount(to)
    ensures Chunks(result, ChannelCount(to)) ==
      seq(|data| / ChannelCount(from), i requires 0 <= i < |data| / ChannelCount(from) =>
        ConvertPixel(from, to, Chunks(data, ChannelCount(from))[i], n))
  {
    var inSize, outSize := ChannelCount(from) as nat, ChannelCount(to) as nat;
    var pixels := |data| / inSize;
    var input := Chunks(data, inSize);
    // `Default::default()` is the zero of every channel type
    var output := new seq<T>[pixels](_ => Fill(n.zero, outSize));
    for i := 0 to pixels
      invariant forall j | 0 <= j < pixels :: |output[j]| == outSize
      invariant forall j | 0 <= j < i :: output[j] == ConvertPixel(from, to, input[j], n)
    {
      output[i] := ConvertPixel(from, to, input[i], n);
    }
    result := Flatten(output[..]);
    ConvertedChunks(data, from, to, n, output[..]);
  }

  /** Pixels converted one by one and flattened read back, pixel by pixel, as the converted pixels. */
  lemma ConvertedChunks<T>(data: seq<T>, from: Channels, to: Channels, n: Convert.Norm<T>, ps: seq<seq<T>>)
    requires from != to && |data| % ChannelCount(from) == 0
    requires |ps| == |data| / ChannelCount(from)
    requires forall j | 0 <= j < |ps| :: ps[j] == ConvertPixel(from, to, Chunks(data, ChannelCount(from))[j], n)
    ensures |Flatten(ps)| == |data| / ChannelCount(from) * ChannelCount(to)
    ensures Chunks(Flatten(ps), ChannelCount(to)) ==
      seq(|data| / ChannelCount(from), i requires 0 <= i < |data| / ChannelCount(from) =>
        ConvertPixel(from, to, Chunks(data, ChannelCount(from))[i], n))
  {
    ChunksFlatten(ps, ChannelCount(to));
  }

  /**
   * `convert_channels`: identical channel types copy the data; otherwise every pixel is
   * converted. The source unwraps a pixel view of the data, which requires whole pixels.
   */
  method ConvertChannels<T>(data: seq<T>, from: Channels, to: Channels, n: Convert.Norm<T>)
    returns (result: seq<T>)
    requires from != to ==> |data| % ChannelCount(from) == 0
    ensures from == to ==> result == data
    ensures from != to ==> |result| == |data| / ChannelCount(from) * ChannelCount(to)
    ensures from != to ==> forall i | 0 <= i < |data| / ChannelCount(from) ::
      Chunks(result, ChannelCount(to))[i]
        == Adapt.Project(to, Adapt.AsRgba(from, Chunks(data, ChannelCount(from))[i], n))
  {
    if from == to {
      return data;
    }
    result := ConvertPixels(data, from, to, n);
    forall i | 0 <= i < |data| / ChannelCount(from)
      ensures Chunks(result, ChannelCount(to))[i]
        == Adapt.Project(to, Adapt.AsRgba(from, Chunks(data, ChannelCount(from))[i], n))
    {
      ConvertPixelIsAdaptation(from, to, Chunks(data, ChannelCount(from))[i], n);
    }
  }
}
