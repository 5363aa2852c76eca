/**
 * The decoder entry point of `src/lib.rs`: the reader options, the array-size limit and
 * format detection of `DdsDecoder::from_header_with`, the sRGB query, and the repair of
 * common header mistakes in permissive mode. The data layout is represented by its data
 * length only, and `DataLayout::from_header_with` by a function parameter `layoutOf`.
 */
module Dds {
  import opened Wrappers
  import opened Util
  import opened Header
  import opened Format
  import Detect
  import Dxgi

  datatype Options = Options(
    skipMagicBytes: bool,
    maxArraySize: u32,
    permissive: bool,
    fileLen: Option<u64>)

  /** `Options::default`: check the magic bytes, at most 4096 array elements, strict, no file length. */
  function DefaultOptions(): (o: Options)
    ensures !o.skipMagicBytes && !o.permissive && o.fileLen.None?
    ensures o.maxArraySize == 4096
  {
    Options(false, 4096, false, None)
  }

  /**
   * The computed data length of a header, or the error that prevents computing it. The
   * pixel information of the detected format is already applied.
   */
  type LayoutFn = Header -> Result<nat, DecodeError>

  /** The bytes of a file before its data section: the magic, the header and the DX10 extension. */
  function NonDataLen(h: Header): nat
  {
    MAGIC_LEN + HEADER_SIZE + if h.dxt10.Some? then HEADER_DXT10_SIZE else 0
  }

  /**
   * `get_expected_data_len`: the file length minus the bytes before the data, when the file
   * length is known and large enough (a checked subtraction).
   */
  function ExpectedDataLen(h: Header, options: Options): (r: Option<nat>)
    ensures r.Some? <==> options.fileLen.Some? && options.fileLen.value >= NonDataLen(h)
    ensures r.Some? ==> NonDataLen(h) + r.value == options.fileLen.value
  {
    match options.fileLen
    case None => None
    case Some(fileLen) =>
      if fileLen < NonDataLen(h) then None else Some(fileLen - NonDataLen(h))
  }

  /** The DX10 header's array size replaced; a legacy header has none. */
  function WithArraySize(h: Header, arraySize: u32): Header
    requires h.dxt10.Some?
  {
    h.(dxt10 := Some(h.dxt10.value.(arraySize := arraySize)))
  }

  /**
   * The array-size fix: with data expected, an array size of 0 is certainly wrong and is
   * replaced by 1, whether or not that fixes the length.
   */
  function ArrayFixed(h: Header, expected: nat): Header
  {
    if expected > 0 && h.dxt10.Some? && h.dxt10.value.arraySize == 0 then WithArraySize(h, 1) else h
  }

  /** A single 2D cube map whose array size is given as 6, the number of faces. */
  predicate CubeFixApplies(h: Header)
  {
    h.dxt10.Some? && h.dxt10.value.arraySize == 6
    && h.dxt10.value.resourceDimension == Texture2D && h.dxt10.value.textureCube
  }

  /** `32 - x.leading_zeros()`: the number of bits needed to write `x`. */
  function BitLength(x: nat): (n: nat)
    ensures x < Pow2(n)
    ensures x > 0 ==> n > 0 && Pow2(n - 1) <= x
  {
    if x == 0 then 0 else 1 + BitLength(x / 2)
  }

  lemma {:induction false} BitLengthAtMost(x: nat, k: nat)
    requires x < Pow2(k)
    ensures BitLength(x) <= k
  {
    if x > 0 {
      BitLengthAtMost(x / 2, k - 1);
    }
  }

  /** Every `u32` is below `2^32`. */
  lemma Pow2Of32()
    ensures Pow2(32) == 0x1_0000_0000
  {
    assert Pow2(4) == 0x10;
    assert Pow2(8) == 0x100;
    assert Pow2(12) == 0x1000;
    assert Pow2(16) == 0x1_0000;
    assert Pow2(20) == 0x10_0000;
    assert Pow2(24) == 0x100_0000;
    assert Pow2(28) == 0x1000_0000;
  }

  /** A `u32` needs at most 32 bits. */
  lemma BitLengthOfU32(x: u32)
    ensures BitLength(x) <= 32
  {
    Pow2Of32();
    BitLengthAtMost(x, 32);
  }

  /** `u32::saturating_add`. */
  function SaturatingAddU32(a: u32, b: u32): (r: u32)
    ensures a + b <= U32_MAX ==> r == a + b
    ensures a + b > U32_MAX ==> r == U32_MAX
  {
    if a + b <= U32_MAX then a + b else U32_MAX
  }

  /** The largest of width, height and depth (1 when absent). */
  function MaxDimension(h: Header): u32
  {
    Max(Max(h.width, h.height), if h.depth.Some? then h.depth.value else 1)
  }

  /**
   * The mipmap counts tried, in order: no mipmaps, a full chain for the largest dimension,
   * and one less and one more than the header says.
   */
  function MipmapGuesses(h: Header): (gs: seq<u32>)
    requires ValidHeader(h)
    ensures |gs| == 4 && gs[0] == 1 && gs[2] == h.mipmapCount - 1
    ensures Pow2(gs[1]) > MaxDimension(h) && (MaxDimension(h) > 0 ==> Pow2(gs[1] - 1) <= MaxDimension(h))
    ensures gs[3] == SaturatingAddU32(h.mipmapCount, 1)
  {
    BitLengthOfU32(MaxDimension(h));
    [1, BitLength(MaxDimension(h)), h.mipmapCount - 1, SaturatingAddU32(h.mipmapCount, 1)]
  }

  /** `filter_map(NonZeroU32::new)`: the non-zero values, in order. */
  function NonZero(s: seq<u32>): (r: seq<u32>)
    ensures forall i | 0 <= i < |r| :: r[i] != 0 && r[i] in s
    ensures forall i | 0 <= i < |s| :: s[i] != 0 ==> s[i] in r
    ensures |s| == 1 ==> r == if s[0] == 0 then [] else s
  {
    if |s| == 0 then []
    else if s[0] == 0 then NonZero(s[1..])
    else [s[0]] + NonZero(s[1..])
  }

  /**
   * Filtering a concatenation filters each part and keeps them in order; with the
   * singleton case of `NonZero` this fixes the order and multiplicity of the result.
   */
  lemma {:induction false} NonZeroAppend(a: seq<u32>, b: seq<u32>)
    ensures NonZero(a + b) == NonZero(a) + NonZero(b)
  {
    if |a| > 0 {
      assert (a + b)[1..] == a[1..] + b;
      NonZeroAppend(a[1..], b);
    } else {
      assert a + b == b;
    }
  }

  /** The header with each guessed mipmap count, in the order of the guesses. */
  function MipmapCandidates(h: Header, gs: seq<u32>): (cs: seq<Header>)
    ensures |cs| == |gs|
    ensures forall i | 0 <= i < |cs| :: cs[i] == h.(mipmapCount := gs[i])
  {
    if |gs| == 0 then [] else [h.(mipmapCount := gs[0])] + MipmapCandidates(h, gs[1..])
  }

  /** The fixes that are committed only on a match, in the order they are tried. */
  function Candidates(base: Header): seq<Header>
    requires ValidHeader(base)
  {
    (if CubeFixApplies(base) then [WithArraySize(base, 1)] else [])
    + MipmapCandidates(base, NonZero(MipmapGuesses(base)))
  }

  /** The first header whose data length is the expected one. */
  function FirstMatch(cs: seq<Header>, layoutOf: LayoutFn, expected: nat): (r: Option<Header>)
    ensures r.Some? ==> r.value in cs && layoutOf(r.value) == Ok(expected)
    ensures r.Some? ==>
      exists i | 0 <= i < |cs| :: cs[i] == r.value && forall j | 0 <= j < i :: layoutOf(cs[j]) != Ok(expected)
    ensures r.None? <==> forall i | 0 <= i < |cs| :: layoutOf(cs[i]) != Ok(expected)
  {
    if |cs| == 0 then None
    else if layoutOf(cs[0]) == Ok(expected) then Some(cs[0])
    else
      var r := FirstMatch(cs[1..], layoutOf, expected);
      assert forall i | 1 <= i < |cs| :: cs[i] == cs[1..][i - 1];
      r
  }

  /**
   * The header `create_layout_and_fix_header` settles on: untouched when the data length is
   * unknown or already right; otherwise the array-size fix, kept if it alone gives the
   * expected length, and then the first candidate that gives it, if any.
   */
  function FixHeader(h: Header, layoutOf: LayoutFn, options: Options): Header
    requires ValidHeader(h)
  {
    match ExpectedDataLen(h, options)
    case None => h
    case Some(expected) =>
      if layoutOf(h) == Ok(expected) then h
      else
        var base := ArrayFixed(h, expected);
        if layoutOf(base) == Ok(expected) then base
        else
          match FirstMatch(Candidates(base), layoutOf, expected)
          case Some(c) => c
          case None => base
  }

  /**
   * `create_layout_and_fix_header`: tries the fixes in order, committing each to the
   * header only when its layout has the expected data length (the array-size fix is
   * committed regardless), and returns the layout of the header it settles on.
   */
  method CreateLayoutAndFixHeader(header: Header, layoutOf: LayoutFn, options: Options)
    returns (fixed: Header, layout: Result<nat, DecodeError>)
    requires ValidHeader(header)
    ensures fixed == FixHeader(header, layoutOf, options)
    ensures layout == layoutOf(fixed)
  {
    fixed := header;
    layout := layoutOf(fixed);
    var expectedLen := ExpectedDataLen(header, options);
    if expectedLen.None? {
      return;
    }
    var expected := expectedLen.value;
    if layout == Ok(expected) {
      return;
    }

    if expected > 0 && fixed.dxt10.Some? && fixed.dxt10.value.arraySize == 0 {
      fixed := WithArraySize(fixed, 1);
      layout := layoutOf(fixed);
      if layout == Ok(expected) {
        return;
      }
    }
    assert fixed == ArrayFixed(header, expected);

    if CubeFixApplies(fixed) {
      var candidate := WithArraySize(fixed, 1);
      var candidateLayout := layoutOf(candidate);
      if candidateLayout == Ok(expected) {
        assert Candidates(fixed)[0] == candidate;
        return candidate, candidateLayout;
      }
    }
    CandidatesAfterCubeFix(fixed, layoutOf, expected);

    var found := TryMipmapGuesses(fixed, NonZero(MipmapGuesses(fixed)), layoutOf, expected);
    if found.Some? {
      fixed := found.value;
      layout := layoutOf(fixed);
    }
  }

  /** With the cube-map fix failed or not applicable, the mipmap guesses decide. */
  lemma CandidatesAfterCubeFix(base: Header, layoutOf: LayoutFn, expected: nat)
    requires ValidHeader(base)
    requires CubeFixApplies(base) ==> layoutOf(WithArraySize(base, 1)) != Ok(expected)
    ensures FirstMatch(Candidates(base), layoutOf, expected)
      == FirstMatch(MipmapCandidates(base, NonZero(MipmapGuesses(base))), layoutOf, expected)
  {
    var mips := MipmapCandidates(base, NonZero(MipmapGuesses(base)));
    if CubeFixApplies(base) {
      assert Candidates(base)[1..] == mips;
    } else {
      assert Candidates(base) == mips;
    }
  }

  /**
   * The loop over the mipmap guesses: the header with the first guess whose layout has the
   * expected data length.
   */
  method TryMipmapGuesses(base: Header, guesses: seq<u32>, layoutOf: LayoutFn, expected: nat)
    returns (found: Option<Header>)
    ensures found == FirstMatch(MipmapCandidates(base, guesses), layoutOf, expected)
  {
    ghost var all := MipmapCandidates(base, guesses);
    for k := 0 to |guesses|
      invariant forall j | 0 <= j < k :: layoutOf(all[j]) != Ok(expected)
    {
      var candidate := base.(mipmapCount := guesses[k]);
      if layoutOf(candidate) == Ok(expected) {
        assert candidate == all[k];
        FirstMatchAt(all, layoutOf, expected, k);
        return Some(candidate);
      }
    }
    return None;
  }

  /** The first matching candidate at index `k` is the one `FirstMatch` finds. */
  lemma {:induction false} FirstMatchAt(cs: seq<Header>, layoutOf: LayoutFn, expected: nat, k: nat)
    requires k < |cs| && layoutOf(cs[k]) == Ok(expected)
    requires forall j | 0 <= j < k :: layoutOf(cs[j]) != Ok(expected)
    ensures FirstMatch(cs, layoutOf, expected) == Some(cs[k])
  {
    if k > 0 {
      FirstMatchAt(cs[1..], layoutOf, expected, k - 1);
    }
  }

  /** Only the DX10 array size and the mipmap count are ever repaired. */
  predicate RepairsOnly(h: Header, fixed: Header)
  {
    fixed.width == h.width && fixed.height == h.height && fixed.depth == h.depth
    && fixed.pixelFormat == h.pixelFormat && fixed.dxt10.Some? == h.dxt10.Some?
    && (h.dxt10.Some? ==> fixed.dxt10.value == h.dxt10.value.(arraySize := fixed.dxt10.value.arraySize))
  }

  lemma MipmapCandidatesRepairOnly(h: Header, base: Header, gs: seq<u32>, c: Header)
    requires RepairsOnly(h, base) && c in MipmapCandidates(base, gs)
    ensures RepairsOnly(h, c) && c.mipmapCount in gs
  {
  }

  /**
   * The repaired header differs from the original only in its array size and mipmap count,
   * still has a non-zero mipmap count, and is either the original, the array-size fix, or a
   * header whose layout has exactly the expected data length.
   */
  lemma FixHeaderRepairsOnly(h: Header, layoutOf: LayoutFn, options: Options)
    requires ValidHeader(h)
    ensures var fixed := FixHeader(h, layoutOf, options);
      RepairsOnly(h, fixed) && ValidHeader(fixed)
    ensures var fixed := FixHeader(h, layoutOf, options);
      fixed == h || (ExpectedDataLen(h, options).Some? && (fixed == ArrayFixed(h, ExpectedDataLen(h, options).value)
        || layoutOf(fixed) == Ok(ExpectedDataLen(h, options).value)))
  {
    var fixed := FixHeader(h, layoutOf, options);
    match ExpectedDataLen(h, options)
    case None =>
    case Some(expected) =>
      var base := ArrayFixed(h, expected);
      assert RepairsOnly(h, base);
      if layoutOf(h) != Ok(expected) && layoutOf(base) != Ok(expected) {
        match FirstMatch(Candidates(base), layoutOf, expected)
        case None =>
        case Some(c) =>
          CandidateRepairsOnly(h, base, c);
      }
  }

  /** Every candidate fix of a repaired header is still a repair of the original. */
  lemma CandidateRepairsOnly(h: Header, base: Header, c: Header)
    requires ValidHeader(base) && RepairsOnly(h, base) && c in Candidates(base)
    ensures RepairsOnly(h, c) && ValidHeader(c)
  {
    var guesses := NonZero(MipmapGuesses(base));
    if !(CubeFixApplies(base) && c == WithArraySize(base, 1)) {
      assert c in MipmapCandidates(base, guesses);
      MipmapCandidatesRepairOnly(h, base, guesses, c);
    }
  }

  /** Without a known file length, or with a header already right, nothing is changed. */
  lemma FixHeaderKeepsConsistentHeader(h: Header, layoutOf: LayoutFn, options: Options)
    requires ValidHeader(h)
    requires ExpectedDataLen(h, options).None? || layoutOf(h) == Ok(ExpectedDataLen(h, options).value)
    ensures FixHeader(h, layoutOf, options) == h
  {
  }

  /**
   * An array size of 0 with data expected is always repaired to 1, even when no fix makes
   * the length match.
   */
  lemma FixHeaderZeroArraySize(h: Header, layoutOf: LayoutFn, options: Options)
    requires ValidHeader(h) && h.dxt10.Some? && h.dxt10.value.arraySize == 0
    requires ExpectedDataLen(h, options).Some? && ExpectedDataLen(h, options).value > 0
    requires layoutOf(h) != Ok(ExpectedDataLen(h, options).value)
    ensures FixHeader(h, layoutOf, options).dxt10.value.arraySize == 1
  {
    var expected := ExpectedDataLen(h, options).value;
    var base := ArrayFixed(h, expected);
    assert !CubeFixApplies(base);
    var guesses := NonZero(MipmapGuesses(base));
    assert Candidates(base) == MipmapCandidates(base, guesses);
    match FirstMatch(Candidates(base), layoutOf, expected)
    case None =>
    case Some(c) =>
      MipmapCandidatesRepairOnly(h, base, guesses, c);
  }

  /**
   * The cube-map fix is tried before any mipmap guess: when it gives the expected length,
   * it is the fix taken.
   */
  lemma FixHeaderPrefersCubeFix(h: Header, layoutOf: LayoutFn, options: Options)
    requires ValidHeader(h) && CubeFixApplies(h)
    requires ExpectedDataLen(h, options).Some?
    requires layoutOf(h) != Ok(ExpectedDataLen(h, options).value)
    requires layoutOf(WithArraySize(h, 1)) == Ok(ExpectedDataLen(h, options).value)
    ensures FixHeader(h, layoutOf, options) == WithArraySize(h, 1)
  {
    var expected := ExpectedDataLen(h, options).value;
    assert ArrayFixed(h, expected) == h;
    assert Candidates(h)[0] == WithArraySize(h, 1);
  }

  /** The layout function of one format. */
  function WithFormat(layoutOf: (Header, DecodeFormat) -> Result<nat, DecodeError>, f: DecodeFormat): LayoutFn
  {
    header => layoutOf(header, f)
  }

  /** A decoder: the (possibly repaired) header, the detected format and the data length. */
  datatype DdsDecoder = DdsDecoder(header: Header, format: DecodeFormat, dataLen: nat)

  /**
   * `DdsDecoder::from_header_with`: the array-size limit is enforced before anything else,
   * then the format is detected, then the layout is computed, repairing the header first
   * in permissive mode. `layoutOf(h, f)` is the data length of header `h` read as format `f`.
   */
  function FromHeaderWith(h: Header, options: Options, layoutOf: (Header, DecodeFormat) -> Result<nat, DecodeError>)
    : (r: Result<DdsDecoder, DecodeError>)
    requires ValidHeader(h)
    ensures h.dxt10.Some? && h.dxt10.value.arraySize > options.maxArraySize ==>
      r == Err(ArraySizeTooBig(h.dxt10.value.arraySize))
    ensures r.Ok? ==>
      Detect.FromHeader(h) == Ok(r.value.format) && layoutOf(r.value.header, r.value.format) == Ok(r.value.dataLen)
      && RepairsOnly(h, r.value.header) && ValidHeader(r.value.header)
    ensures r.Ok? && !options.permissive ==> r.value.header == h
    ensures (h.dxt10.None? || h.dxt10.value.arraySize <= options.maxArraySize) && Detect.FromHeader(h).Err? ==>
      r == Err(Detect.FromHeader(h).error)
    ensures (h.dxt10.None? || h.dxt10.value.arraySize <= options.maxArraySize) && Detect.FromHeader(h).Ok? ==>
      var f := Detect.FromHeader(h).value;
      var header := if options.permissive then FixHeader(h, WithFormat(layoutOf, f), options) else h;
      (r.Ok? <==> layoutOf(header, f).Ok?)
      && (r.Ok? ==> r.value == DdsDecoder(header, f, layoutOf(header, f).value))
      && (r.Err? ==> r.error == layoutOf(header, f).error)
  {
    if h.dxt10.Some? && h.dxt10.value.arraySize > options.maxArraySize then
      Err(ArraySizeTooBig(h.dxt10.value.arraySize))
    else
      match Detect.FromHeader(h)
      case Err(e) => Err(e)
      case Ok(format) =>
        var layoutOfFormat := WithFormat(layoutOf, format);
        var header := if options.permissive then FixHeader(h, layoutOfFormat, options) else h;
        FixHeaderRepairsOnly(h, layoutOfFormat, options);
        match layoutOfFormat(header)
        case Err(e) => Err(e)
        case Ok(dataLen) => Ok(DdsDecoder(header, format, dataLen))
  }

  /** `is_srgb`: the DXGI format of the DX10 header is an sRGB one; legacy headers are linear. */
  function IsSrgb(decoder: DdsDecoder): (b: bool)
    ensures b <==> decoder.header.dxt10.Some? && Dxgi.IsSrgbFormat(decoder.header.dxt10.value.dxgiFormat)
  {
    if decoder.header.dxt10.Some? then Dxgi.IsSrgbFormat(decoder.header.dxt10.value.dxgiFormat) else false
  }
}
