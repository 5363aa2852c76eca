/**
 * The buffer helpers of `src/decode/util.rs`: little-endian to native byte
 * order in place, the read buffer that reads a surface in bounded chunks, and
 * the per-pixel loop that decodes a surface with them.
 *
 * The platform's byte order (`cfg!(target_endian)`) is the parameter
 * `bigEndian`. A reader is the sequence of raw pixels it still holds; the read
 * fails when it holds fewer than asked for.
 */
module DecodeUtil {
  import opened Wrappers
  import opened Util
  import opened Format

  // ---------------------------------------------------------------------------
  // Byte order of buffers.

  /** Every pair of bytes exchanged: the little-endian `u16`s of `s` in big-endian order. */
  function SwapBytePairs(s: seq<u8>): (r: seq<u8>)
    requires |s| % 2 == 0
    ensures |r| == |s|
    ensures forall k | 0 <= k < |s| / 2 :: r[2 * k] == s[2 * k + 1] && r[2 * k + 1] == s[2 * k]
  {
    seq(|s|, i requires 0 <= i < |s| => if i % 2 == 0 then s[i + 1] else s[i - 1])
  }

  /** Swapping the bytes of every pair twice restores the buffer. */
  lemma SwapBytePairsInvolution(s: seq<u8>)
    requires |s| % 2 == 0
    ensures SwapBytePairs(SwapBytePairs(s)) == s
  {
    var r := SwapBytePairs(SwapBytePairs(s));
    forall i | 0 <= i < |s|
      ensures r[i] == s[i]
    {
      if i % 2 == 0 {
        assert SwapBytePairs(s)[i + 1] == s[i];
      } else {
        assert SwapBytePairs(s)[i - 1] == s[i];
      }
    }
  }

  /** Every 4-byte group reversed: the little-endian `u32`s of `s` in big-endian order. */
  function ReverseByteQuads(s: seq<u8>): (r: seq<u8>)
    requires |s| % 4 == 0
    ensures |r| == |s|
    ensures forall k | 0 <= k && 4 * k + 4 <= |s| ::
      r[4 * k] == s[4 * k + 3] && r[4 * k + 1] == s[4 * k + 2]
      && r[4 * k + 2] == s[4 * k + 1] && r[4 * k + 3] == s[4 * k]
  {
    seq(|s|, i requires 0 <= i < |s| => s[i - i % 4 + (3 - i % 4)])
  }

  /** Reversing every 4-byte group twice restores the buffer. */
  lemma ReverseByteQuadsInvolution(s: seq<u8>)
    requires |s| % 4 == 0
    ensures ReverseByteQuads(ReverseByteQuads(s)) == s
  {
    var r := ReverseByteQuads(ReverseByteQuads(s));
    forall i | 0 <= i < |s|
      ensures r[i] == s[i]
    {
      var j := i - i % 4 + (3 - i % 4);
      assert j % 4 == 3 - i % 4;
      assert j - j % 4 + (3 - j % 4) == i;
    }
  }

  /**
   * `le_to_native_endian_16`: on a big-endian platform the bytes of every
   * `u16` are swapped in place; on a little-endian one nothing changes.
   */
  method LeToNativeEndian16(buf: array<u8>, bigEndian: bool)
    requires buf.Length % 2 == 0
    modifies buf
    ensures buf[..] == if bigEndian then SwapBytePairs(old(buf[..])) else old(buf[..])
  {
    if bigEndian {
      ghost var before := buf[..];
      var i := 0;
      while i < buf.Length
        invariant 0 <= i <= buf.Length && i % 2 == 0
        invariant forall k | 0 <= k < i :: buf[k] == SwapBytePairs(before)[k]
        invariant forall k | i <= k < buf.Length :: buf[k] == before[k]
      {
        buf[i], buf[i + 1] := buf[i + 1], buf[i];
        i := i + 2;
      }
      assert buf[..] == SwapBytePairs(before);
    }
  }

  /** One step of `le_to_native_endian_32`: bytes `i` and `i + 3` swapped, then `i + 1` and `i + 2`. */
  method ReverseQuad(buf: array<u8>, i: nat)
    requires i + 4 <= buf.Length
    modifies buf
    ensures forall k | i <= k < i + 4 :: buf[k] == old(buf[2 * i + 3 - k])
    ensures forall k | 0 <= k < buf.Length && (k < i || i + 4 <= k) :: buf[k] == old(buf[k])
  {
    buf[i], buf[i + 3] := buf[i + 3], buf[i];
    buf[i + 1], buf[i + 2] := buf[i + 2], buf[i + 1];
  }

  /**
   * `le_to_native_endian_32`: on a big-endian platform every 4-byte group is
   * reversed in place (bytes 0 and 3 swapped, then 1 and 2); on a
   * little-endian one nothing changes.
   */
  method LeToNativeEndian32(buf: array<u8>, bigEndian: bool)
    requires buf.Length % 4 == 0
    modifies buf
    ensures buf[..] == if bigEndian then ReverseByteQuads(old(buf[..])) else old(buf[..])
  {
    if bigEndian {
      ghost var before := buf[..];
      var g := 0;
      while 4 * g < buf.Length
        invariant 0 <= 4 * g <= buf.Length
        invariant forall k | 0 <= k < 4 * g :: buf[k] == ReversedByte(before, k)
        invariant forall k | 4 * g <= k < buf.Length :: buf[k] == before[k]
      {
        ReversedBytesOfQuad(before, 4 * g);
        ReverseQuad(buf, 4 * g);
        g := g + 1;
      }
      ReversedBytes(before, buf[..]);
    }
  }

  /** Byte `i` of a buffer with every 4-byte group reversed, read from the buffer before. */
  function ReversedByte(s: seq<u8>, i: nat): u8
    requires |s| % 4 == 0 && i < |s|
  {
    if i % 4 == 0 then s[i + 3]
    else if i % 4 == 1 then s[i + 1]
    else if i % 4 == 2 then s[i - 1]
    else s[i - 3]
  }

  /** The four `ReversedByte`s of the group at byte `i`. */
  lemma ReversedBytesOfQuad(s: seq<u8>, i: nat)
    requires |s| % 4 == 0 && i % 4 == 0 && i + 4 <= |s|
    ensures forall k | i <= k < i + 4 :: ReversedByte(s, k) == s[2 * i + 3 - k]
  {
  }

  /** A buffer whose every byte is its `ReversedByte` is `ReverseByteQuads` of the buffer before. */
  lemma ReversedBytes(before: seq<u8>, after: seq<u8>)
    requires |after| == |before| && |before| % 4 == 0
    requires forall k | 0 <= k < |after| :: after[k] == ReversedByte(before, k)
    ensures after == ReverseByteQuads(before)
  {
    var r := ReverseByteQuads(before);
    forall k | 0 <= k < |after|
      ensures after[k] == r[k]
    {
    }
  }

  // ---------------------------------------------------------------------------
  // `FromLe`: a raw channel value, loaded in native byte order, read as little-endian.

  /** The `u16` a platform loads from two bytes in memory. */
  function NativeU16(b: seq<u8>, bigEndian: bool): u16
    requires |b| == 2
  {
    var b0, b1: int := b[0], b[1];
    if bigEndian then b0 * 0x100 + b1 else b0 + b1 * 0x100
  }

  /** The `u32` a platform loads from four bytes in memory. */
  function NativeU32(b: seq<u8>, bigEndian: bool): u32
    requires |b| == 4
  {
    var b0, b1, b2, b3: int := b[0], b[1], b[2], b[3];
    if bigEndian then b0 * 0x100_0000 + b1 * 0x1_0000 + b2 * 0x100 + b3
    else b0 + b1 * 0x100 + b2 * 0x1_0000 + b3 * 0x100_0000
  }

  /** `u16::from_le`: the identity on little-endian platforms, a byte swap on big-endian ones. */
  function FromLe16(raw: u16, bigEndian: bool): (v: u16)
  {
    if bigEndian then raw % 0x100 * 0x100 + raw / 0x100 else raw
  }

  /** `u32::from_le`: the identity on little-endian platforms, a byte reversal on big-endian ones. */
  function FromLe32(raw: u32, bigEndian: bool): (v: u32)
  {
    if bigEndian then
      raw % 0x100 * 0x100_0000 + raw / 0x100 % 0x100 * 0x1_0000 + raw / 0x1_0000 % 0x100 * 0x100 + raw / 0x100_0000
    else raw
  }

  /** Whatever the platform, `from_le` of the loaded value is the little-endian value of the bytes. */
  lemma FromLe16ReadsLittleEndian(b: seq<u8>, bigEndian: bool)
    requires |b| == 2
    ensures FromLe16(NativeU16(b, bigEndian), bigEndian) == b[0] as int + b[1] as int * 0x100
  {
  }

  /** Whatever the platform, `from_le` of the loaded value is the little-endian value of the bytes. */
  lemma FromLe32ReadsLittleEndian(b: seq<u8>, bigEndian: bool)
    requires |b| == 4
    ensures FromLe32(NativeU32(b, bigEndian), bigEndian)
      == b[0] as int + b[1] as int * 0x100 + b[2] as int * 0x1_0000 + b[3] as int * 0x100_0000
  {
    if bigEndian {
      var b0, b1, b2, b3: nat := b[0], b[1], b[2], b[3];
      var x: nat := NativeU32(b, true);
      var h1 := b0 * 0x1_0000 + b1 * 0x100 + b2;
      var h2 := b0 * 0x100 + b1;
      DivModOf(x, h1, b3, 0x100);
      DivModOf(h1, h2, b2, 0x100);
      DivModOf(x, h2, b2 * 0x100 + b3, 0x1_0000);
      DivModOf(h2, b0, b1, 0x100);
      DivModOf(x, b0, b1 * 0x1_0000 + b2 * 0x100 + b3, 0x100_0000);
    }
  }

  /** On a big-endian platform `from_le` undoes itself. */
  lemma FromLe16Involution(raw: u16, bigEndian: bool)
    ensures FromLe16(FromLe16(raw, bigEndian), bigEndian) == raw
  {
  }

  // ---------------------------------------------------------------------------
  // `ReadBuffer` and `for_each_pixel`.

  /** `ReadBuffer::TARGET`: the read buffer aims at 64 KiB. */
  const TARGET: nat := 64 * 1024

  /**
   * `ReadBuffer<T>`: a buffer of `bufPixels` raw pixels that reads a surface of
   * `pixels` pixels chunk by chunk; `pixelsLeft` counts the pixels not yet read.
   */
  class ReadBuffer<T> {
    var buf: seq<T>
    var bufPixels: nat
    var pixelsLeft: nat
    /** The pixels of the surface, and the sizes of the chunks taken off it so far. */
    ghost var pixels: nat
    ghost var chunks: seq<nat>

    /** The chunks taken are the first ones of `ChunkSizes`, the rest account for `pixelsLeft`. */
    ghost predicate Valid()
      reads this
    {
      |buf| == bufPixels && (bufPixels > 0 ==> ChunksRead(chunks, pixelsLeft, pixels, bufPixels))
    }

    /** `ReadBuffer::new`: as many pixels as fit in `TARGET` bytes, but no more than the surface has. */
    constructor(pixels: nat, pixelSize: nat, default: T)
      requires pixelSize > 0
      ensures Valid()
      ensures bufPixels == Min(TARGET / pixelSize, pixels)
      ensures pixelsLeft == pixels && this.pixels == pixels && chunks == []
      ensures buf == Fill(default, bufPixels)
    {
      var n := Min(TARGET / pixelSize, pixels);
      bufPixels := n;
      pixelsLeft := pixels;
      buf := Fill(default, n);
      this.pixels := pixels;
      chunks := [];
    }

    /**
     * `ReadBuffer::read`: reads the next `min(bufPixels, pixelsLeft)` pixels
     * from `input` into the front of the buffer and returns them. The count is
     * taken off `pixelsLeft` before the read, so it is gone even when the read
     * fails. A non-empty count is the next chunk of `ChunkSizes`.
     */
    method Read(input: seq<T>) returns (row: Result<seq<T>, DecodeError>, rest: seq<T>)
      requires Valid()
      modifies this
      ensures Valid()
      ensures var n := Min(old(bufPixels), old(pixelsLeft));
        bufPixels == old(bufPixels) && pixelsLeft == old(pixelsLeft) - n && pixels == old(pixels)
        && chunks == (if n > 0 then old(chunks) + [n] else old(chunks))
        && (n <= |input| ==> row == Ok(input[..n]) && rest == input[n..] && buf == input[..n] + old(buf)[n..])
        && (n > |input| ==> row == Err(Io) && rest == input && buf == old(buf))
    {
      var n := Min(bufPixels, pixelsLeft);
      if n > 0 {
        ChunkSizesStep(chunks, pixelsLeft, pixels, bufPixels);
        chunks := chunks + [n];
      }
      pixelsLeft := pixelsLeft - n;
      if n <= |input| {
        buf := input[..n] + buf[n..];
        row, rest := Ok(input[..n]), input[n..];
      } else {
        row, rest := Err(Io), input;
      }
    }
  }

  /** The chunks `Read` hands out: a full buffer at a time, then what is left. */
  function ChunkSizes(pixels: nat, bufPixels: nat): seq<nat>
    requires bufPixels > 0
    decreases pixels
  {
    if pixels == 0 then []
    else
      var n := Min(bufPixels, pixels);
      [n] + ChunkSizes(pixels - n, bufPixels)
  }

  /** `done` are the chunks read so far of a surface of `total` pixels, `left` of them still unread. */
  predicate ChunksRead(done: seq<nat>, left: nat, total: nat, bufPixels: nat)
    requires bufPixels > 0
  {
    done + ChunkSizes(left, bufPixels) == ChunkSizes(total, bufPixels)
  }

  /** Reading one more chunk moves it from the chunks left to the chunks read. */
  lemma ChunkSizesStep(done: seq<nat>, left: nat, total: nat, bufPixels: nat)
    requires left > 0 && bufPixels > 0 && ChunksRead(done, left, total, bufPixels)
    ensures ChunksRead(done + [Min(bufPixels, left)], left - Min(bufPixels, left), total, bufPixels)
  {
    var n := Min(bufPixels, left);
    assert ChunkSizes(left, bufPixels) == [n] + ChunkSizes(left - n, bufPixels);
    assert done + ([n] + ChunkSizes(left - n, bufPixels)) == (done + [n]) + ChunkSizes(left - n, bufPixels);
  }

  /**
   * The chunks cover the surface exactly: there are `ceil(pixels / bufPixels)`
   * of them, none is empty or larger than the buffer, and they add up to
   * `pixels`, so `pixelsLeft` ends at 0 without underflowing.
   */
  lemma {:induction false} ChunkSizesCover(pixels: nat, bufPixels: nat)
    requires bufPixels > 0
    ensures var sizes := ChunkSizes(pixels, bufPixels);
      |sizes| == DivCeil(pixels, bufPixels) && Sum(sizes) == pixels
      && forall i | 0 <= i < |sizes| :: 0 < sizes[i] <= bufPixels
    decreases pixels
  {
    if pixels > 0 {
      var n := Min(bufPixels, pixels);
      ChunkSizesCover(pixels - n, bufPixels);
      DivCeilStep(pixels, bufPixels);
      var sizes := ChunkSizes(pixels, bufPixels);
      assert sizes[1..] == ChunkSizes(pixels - n, bufPixels);
    }
  }

  function Sum(s: seq<nat>): nat
  {
    if s == [] then 0 else s[0] + Sum(s[1..])
  }

  lemma DivCeilStep(a: nat, b: nat)
    requires a > 0 && b > 0
    ensures DivCeil(a, b) == 1 + DivCeil(a - Min(a, b), b)
  {
    var d := DivCeil(a - Min(a, b), b);
    if a > b {
      assert (d + 1) * b == d * b + b;
    } else {
      assert d == 0;
    }
    DivCeilUnique(a, b, d + 1);
  }

  /** `DivCeil(a, b)` is the one multiple count `d` with `a <= d * b < a + b`. */
  lemma DivCeilUnique(a: nat, b: nat, d: nat)
    requires b > 0 && a <= d * b < a + b
    ensures DivCeil(a, b) == d
  {
    var e := DivCeil(a, b);
    if e < d {
      MulMonotone(e + 1, b, d, b);
    } else if e > d {
      MulMonotone(d + 1, b, e, b);
    }
  }

  /**
   * Writes the processed pixels of the chunk of `input` that starts at `start` to
   * `out`, extending the written prefix of `out` past the chunk.
   */
  method ProcessChunk<R, I, O>(input: seq<R>, out: array<O>, start: nat, chunk: seq<R>,
                               fromLe: R -> I, processPixel: I -> O)
    requires start + |chunk| <= out.Length && start + |chunk| <= |input|
    requires chunk == input[start..start + |chunk|]
    requires forall i | 0 <= i < start :: out[i] == processPixel(fromLe(input[i]))
    modifies out
    ensures forall i | 0 <= i < start + |chunk| :: out[i] == processPixel(fromLe(input[i]))
  {
    for j := 0 to |chunk|
      invariant forall i | 0 <= i < start + j :: out[i] == processPixel(fromLe(input[i]))
    {
      out[start + j] := processPixel(fromLe(chunk[j]));
    }
  }

  /**
   * `for_each_pixel`: reads the surface through a `ReadBuffer` in chunks of the
   * output and writes output pixel `i` as `processPixel` of raw pixel `i`, each
   * channel first read as little-endian by `fromLe`. The read fails, and leaves
   * the output partly written, when the input holds fewer pixels than the
   * output. The source panics on an empty output, where the chunk size is 0.
   */
  method ForEachPixel<R, I, O>(input: seq<R>, out: array<O>, rawSize: nat, default: R,
                               fromLe: R -> I, processPixel: I -> O) returns (r: Result<(), DecodeError>)
    requires out.Length > 0 && 0 < rawSize <= TARGET
    modifies out
    ensures r.Ok? <==> out.Length <= |input|
    ensures r.Ok? ==> forall i | 0 <= i < out.Length :: out[i] == processPixel(fromLe(input[i]))
  {
    var readBuffer := new ReadBuffer(out.Length, rawSize, default);
    assert readBuffer.bufPixels > 0 by {
      assert TARGET / rawSize >= 1;
    }
    r := ReadChunks(readBuffer, input, out, fromLe, processPixel);
  }

  /**
   * The loop of `for_each_pixel`: one `Read` per chunk of the output, each chunk
   * processed into the output before the next is read. After a successful loop
   * the chunks read are all of `ChunkSizes(out.Length, bufPixels)`.
   */
  method ReadChunks<R, I, O>(readBuffer: ReadBuffer<R>, input: seq<R>, out: array<O>,
                             fromLe: R -> I, processPixel: I -> O) returns (r: Result<(), DecodeError>)
    requires readBuffer.Valid() && readBuffer.bufPixels > 0
    requires readBuffer.pixelsLeft == readBuffer.pixels == out.Length && readBuffer.chunks == []
    modifies readBuffer, out
    ensures r.Ok? <==> out.Length <= |input|
    ensures r.Ok? ==> forall i | 0 <= i < out.Length :: out[i] == processPixel(fromLe(input[i]))
    ensures readBuffer.bufPixels == old(readBuffer.bufPixels)
    ensures r.Ok? ==> readBuffer.chunks == ChunkSizes(out.Length, readBuffer.bufPixels)
  {
    var pixels := out.Length;
    ghost var bufPixels := readBuffer.bufPixels;
    var rest := input;
    var start := 0;
    while start < pixels
      invariant 0 <= start <= pixels
      invariant readBuffer.Valid() && readBuffer.bufPixels == bufPixels && readBuffer.pixels == pixels
      invariant readBuffer.pixelsLeft == pixels - start
      invariant start <= |input| && rest == input[start..]
      invariant forall i | 0 <= i < start :: out[i] == processPixel(fromLe(input[i]))
      decreases pixels - start
    {
      var row;
      row, rest := readBuffer.Read(rest);
      if row.Err? {
        return Err(row.error);
      }
      var chunk := row.value;
      ProcessChunk(input, out, start, chunk, fromLe, processPixel);
      start := start + |chunk|;
    }
    assert ChunksRead(readBuffer.chunks, 0, pixels, bufPixels);
    assert ChunkSizes(0, bufPixels) == [] && readBuffer.chunks + [] == readBuffer.chunks;
    return Ok(());
  }
}
