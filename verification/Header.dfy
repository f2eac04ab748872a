/**
 * `DDS_HEADER`: the 124-byte record that follows the magic number
 * (DDSHeader.kt). Modelled, like the pixel format, as a value built once by
 * `read`: `DecodeHeader` is the field layout, `ParseHeader` what `read`
 * yields, and the `Read` method the stream reader proved against it.
 */
module Header {
  import opened KotlinInt
  import opened Errors
  import opened InternalUtils
  import opened DataInput
  import PF = PixelFormat

  /** `DW_SIZE`: the record's length in bytes, and the value `dwSize` must hold. */
  const DW_SIZE: int := 124
  const DW_RESERVED_1_SIZE: nat := 11

  /** `DDSHeader.DWFlags`. */
  datatype DWFlags =
    | DDSD_CAPS
    | DDSD_HEIGHT
    | DDSD_WIDTH
    | DDSD_PITCH
    | DDSD_PIXELFORMAT
    | DDSD_MIPMAPCOUNT
    | DDSD_LINEARSIZE
    | DDSD_DEPTH

  function FlagBits(f: DWFlags): bv32 {
    match f
    case DDSD_CAPS => 0x1
    case DDSD_HEIGHT => 0x2
    case DDSD_WIDTH => 0x4
    case DDSD_PITCH => 0x8
    case DDSD_PIXELFORMAT => 0x1000
    case DDSD_MIPMAPCOUNT => 0x2_0000
    case DDSD_LINEARSIZE => 0x8_0000
    case DDSD_DEPTH => 0x80_0000
  }

  const AllFlags: seq<DWFlags> :=
    [DDSD_CAPS, DDSD_HEIGHT, DDSD_WIDTH, DDSD_PITCH, DDSD_PIXELFORMAT,
     DDSD_MIPMAPCOUNT, DDSD_LINEARSIZE, DDSD_DEPTH]

  /** `DWFlags.REQUIRED`. */
  const REQUIRED_FLAGS: set<DWFlags> := {DDSD_CAPS, DDSD_HEIGHT, DDSD_WIDTH, DDSD_PIXELFORMAT}

  /** `DDSHeader.DWCaps`. */
  datatype DWCaps = DDSCAPS_COMPLEX | DDSCAPS_MIPMAP | DDSCAPS_TEXTURE

  function CapsBits(c: DWCaps): bv32 {
    match c
    case DDSCAPS_COMPLEX => 0x8
    case DDSCAPS_MIPMAP => 0x40_0000
    case DDSCAPS_TEXTURE => 0x1000
  }

  const AllCaps: seq<DWCaps> := [DDSCAPS_COMPLEX, DDSCAPS_MIPMAP, DDSCAPS_TEXTURE]

  /** `DWCaps.REQUIRED`. */
  const REQUIRED_CAPS: set<DWCaps> := {DDSCAPS_TEXTURE}

  /**
   * `DDSHeader.DWCaps2`. The table has no bit for the negative-Z cube face
   * (0x8000). It also decodes `dwCaps3` and `dwCaps4`, whose own enum
   * classes are empty.
   */
  datatype DWCaps2 =
    | DDSCAPS2_CUBEMAP
    | DDSCAPS2_CUBEMAP_POSITIVEX
    | DDSCAPS2_CUBEMAP_NEGATIVEX
    | DDSCAPS2_CUBEMAP_POSITIVEY
    | DDSCAPS2_CUBEMAP_NEGATIVEY
    | DDSCAPS2_CUBEMAP_POSITIVEZ
    | DDSCAPS2_VOLUME

  function Caps2Bits(c: DWCaps2): bv32 {
    match c
    case DDSCAPS2_CUBEMAP => 0x200
    case DDSCAPS2_CUBEMAP_POSITIVEX => 0x400
    case DDSCAPS2_CUBEMAP_NEGATIVEX => 0x800
    case DDSCAPS2_CUBEMAP_POSITIVEY => 0x1000
    case DDSCAPS2_CUBEMAP_NEGATIVEY => 0x2000
    case DDSCAPS2_CUBEMAP_POSITIVEZ => 0x4000
    case DDSCAPS2_VOLUME => 0x20_0000
  }

  const AllCaps2: seq<DWCaps2> :=
    [DDSCAPS2_CUBEMAP, DDSCAPS2_CUBEMAP_POSITIVEX, DDSCAPS2_CUBEMAP_NEGATIVEX,
     DDSCAPS2_CUBEMAP_POSITIVEY, DDSCAPS2_CUBEMAP_NEGATIVEY, DDSCAPS2_CUBEMAP_POSITIVEZ,
     DDSCAPS2_VOLUME]

  datatype DDSHeader = DDSHeader(
    dwSize: int,
    dwFlags: set<DWFlags>,
    dwHeight: int,
    dwWidth: int,
    dwPitchOrLinearSize: int,
    dwDepth: int,
    dwMipMapCount: int,
    dwReserved1: seq<int>,
    ddspf: PF.DDSPixelFormat,
    dwCaps: set<DWCaps>,
    dwCaps2: set<DWCaps2>,
    dwCaps3: set<DWCaps2>,
    dwCaps4: set<DWCaps2>,
    dwReserved2: int)

  /** Everything `validate` demands of a header. */
  predicate WellFormed(h: DDSHeader) {
    && h.dwSize == DW_SIZE
    && REQUIRED_FLAGS <= h.dwFlags
    && PF.WellFormed(h.ddspf)
    && REQUIRED_CAPS <= h.dwCaps
    && h.dwCaps3 == {}
    && h.dwReserved2 == 0
  }

  /**
   * `validate`: seven checks in a fixed order; the first that fails throws.
   * The sixth, labelled as the `dwCaps4` check, tests `dwCaps3` again.
   */
  function Validate(h: DDSHeader): (r: Outcome)
    ensures r.Pass? <==> WellFormed(h)
    ensures h.dwSize != DW_SIZE ==> r == Fail(DDSInvalid(HeaderSize))
    ensures h.dwSize == DW_SIZE && !(REQUIRED_FLAGS <= h.dwFlags) ==> r == Fail(DDSInvalid(HeaderFlagsMissing))
    ensures h.dwSize == DW_SIZE && REQUIRED_FLAGS <= h.dwFlags ==>
      (PF.Validate(h.ddspf).Fail? ==> r == PF.Validate(h.ddspf))
    ensures h.dwSize == DW_SIZE && REQUIRED_FLAGS <= h.dwFlags && PF.WellFormed(h.ddspf) ==>
      (!(REQUIRED_CAPS <= h.dwCaps) ==> r == Fail(DDSInvalid(CapsMissing)))
    ensures h.dwSize == DW_SIZE && REQUIRED_FLAGS <= h.dwFlags && PF.WellFormed(h.ddspf)
            && REQUIRED_CAPS <= h.dwCaps ==>
      (h.dwCaps3 != {} ==> r == Fail(DDSInvalid(Caps3NotEmpty)))
    ensures h.dwSize == DW_SIZE && REQUIRED_FLAGS <= h.dwFlags && PF.WellFormed(h.ddspf)
            && REQUIRED_CAPS <= h.dwCaps && h.dwCaps3 == {} ==>
      (h.dwReserved2 != 0 ==> r == Fail(DDSInvalid(Reserved2NotZero)))
  {
    Verify(HeaderSize, h.dwSize == DW_SIZE)
    .Then(Verify(HeaderFlagsMissing, REQUIRED_FLAGS <= h.dwFlags))
    .Then(PF.Validate(h.ddspf))
    .Then(Verify(CapsMissing, REQUIRED_CAPS <= h.dwCaps))
    .Then(Verify(Caps3NotEmpty, h.dwCaps3 == {}))
    .Then(Verify(Caps4NotEmpty, h.dwCaps3 == {}))
    .Then(Verify(Reserved2NotZero, h.dwReserved2 == 0))
  }

  /** Byte offsets of the fields that follow the reserved block. */
  const PIXEL_FORMAT_OFFSET: nat := 72
  const CAPS_OFFSET: nat := 104

  /** The header the fields of `s[..124]` describe, given the embedded record `pf` read at offset 72. */
  function DecodeHeader(s: seq<bv8>, pf: PF.DDSPixelFormat): DDSHeader
    requires |s| >= 124
  {
    DDSHeader(
      ToInt(LeWordAt(s, 0)),
      FlagSet(LeWordAt(s, 4), AllFlags, FlagBits),
      ToInt(LeWordAt(s, 8)),
      ToInt(LeWordAt(s, 12)),
      ToInt(LeWordAt(s, 16)),
      ToInt(LeWordAt(s, 20)),
      ToInt(LeWordAt(s, 24)),
      Reserved1(s, DW_RESERVED_1_SIZE),
      pf,
      FlagSet(LeWordAt(s, 104), AllCaps, CapsBits),
      FlagSet(LeWordAt(s, 108), AllCaps2, Caps2Bits),
      FlagSet(LeWordAt(s, 112), AllCaps2, Caps2Bits),
      FlagSet(LeWordAt(s, 116), AllCaps2, Caps2Bits),
      ToInt(LeWordAt(s, 120)))
  }

  /** The first `n` reserved words, stored from offset 28. */
  function Reserved1(s: seq<bv8>, n: nat): (r: seq<int>)
    requires 28 + 4 * n <= |s|
    ensures |r| == n
    ensures forall i :: 0 <= i < n ==> r[i] == ToInt(LeWordAt(s, 28 + 4 * i))
  {
    if n == 0 then [] else Reserved1(s, n - 1) + [ToInt(LeWordAt(s, 28 + 4 * (n - 1)))]
  }

  /**
   * What `read` yields on a stream holding `s`: `EOFException` when the
   * stream ends inside the first 72 bytes; whatever the embedded pixel
   * format's own `read` yields when that fails (its `validate` runs before
   * the caps words are read); `EOFException` when the stream ends inside
   * the last 20 bytes; otherwise the decoded header if it passes `validate`.
   */
  function ParseHeader(s: seq<bv8>): (r: Result<DDSHeader>)
    ensures |s| < PIXEL_FORMAT_OFFSET ==> r == Err(EOF)
    ensures r.Ok? ==> |s| >= DW_SIZE && WellFormed(r.value)
    ensures r.Ok? ==> r.value == DecodeHeader(s, PF.DecodePixelFormat(s[PIXEL_FORMAT_OFFSET..]))
    ensures |s| >= DW_SIZE ==>
      (r.Ok? <==> WellFormed(DecodeHeader(s, PF.DecodePixelFormat(s[PIXEL_FORMAT_OFFSET..]))))
  {
    if |s| < PIXEL_FORMAT_OFFSET then Err(EOF)
    else
      var pf :- PF.ParsePixelFormat(s[PIXEL_FORMAT_OFFSET..]);
      if |s| < DW_SIZE then Err(EOF)
      else
        var h := DecodeHeader(s, pf);
        match Validate(h)
        case Fail(e) => Err(e)
        case Pass => Ok(h)
  }

  /** How far `read` advances the stream before it returns or throws. */
  function HeaderConsumed(s: seq<bv8>): nat {
    if |s| < PIXEL_FORMAT_OFFSET then |s|
    else if PF.ParsePixelFormat(s[PIXEL_FORMAT_OFFSET..]).Err? then
      PIXEL_FORMAT_OFFSET + PF.PixelFormatConsumed(s[PIXEL_FORMAT_OFFSET..])
    else if |s| < DW_SIZE then |s|
    else DW_SIZE
  }

  /**
   * `read(ins)`: seven words, the eleven reserved words in a loop, the
   * pixel format through its own `read`, four caps words, `dwReserved2`,
   * then `validate`.
   */
  method Read(ins: ByteInput) returns (r: Result<DDSHeader>)
    requires ins.Valid()
    modifies ins
    ensures ins.Valid()
    ensures r == ParseHeader(ins.data[old(ins.pos)..])
    ensures ins.pos == old(ins.pos) + HeaderConsumed(ins.data[old(ins.pos)..])
  {
    ghost var start := ins.pos;
    ParseSteps(ins.data[start..]);
    var h :- ReadLeading(ins);
    assert ins.data[start..][PIXEL_FORMAT_OFFSET..] == ins.data[ins.pos..];
    var lead := h;
    var ddspf :- PF.Read(ins);
    h :- ReadTrailing(ins, lead.(ddspf := ddspf), start);
    DecodeHeaderAt(ins.data, start, lead, h);
    var valid := Validate(h);
    if valid.Fail? {
      return Err(valid.error);
    }
    return Ok(h);
  }

  /** `ParseHeader` and `HeaderConsumed` at each point where `read` can stop. */
  lemma ParseSteps(s: seq<bv8>)
    ensures |s| < PIXEL_FORMAT_OFFSET ==> ParseHeader(s) == Err(EOF) && HeaderConsumed(s) == |s|
    ensures |s| >= PIXEL_FORMAT_OFFSET && PF.ParsePixelFormat(s[PIXEL_FORMAT_OFFSET..]).Err? ==>
      && ParseHeader(s) == Err(PF.ParsePixelFormat(s[PIXEL_FORMAT_OFFSET..]).error)
      && HeaderConsumed(s) == PIXEL_FORMAT_OFFSET + PF.PixelFormatConsumed(s[PIXEL_FORMAT_OFFSET..])
    ensures |s| >= PIXEL_FORMAT_OFFSET && PF.ParsePixelFormat(s[PIXEL_FORMAT_OFFSET..]).Ok? && |s| < DW_SIZE ==>
      ParseHeader(s) == Err(EOF) && HeaderConsumed(s) == |s|
    ensures |s| >= DW_SIZE && PF.ParsePixelFormat(s[PIXEL_FORMAT_OFFSET..]).Ok? ==>
      && HeaderConsumed(s) == DW_SIZE
      && var h := DecodeHeader(s, PF.ParsePixelFormat(s[PIXEL_FORMAT_OFFSET..]).value);
         ParseHeader(s) == if Validate(h).Pass? then Ok(h) else Err(Validate(h).error)
  {
  }

  /** The fields `read` assigns before the pixel format, as stored at `data[start..]`. */
  ghost predicate LeadingAt(h: DDSHeader, data: seq<bv8>, start: int)
    requires 0 <= start && start + 72 <= |data|
  {
    && WordsAt(h, data, start)
    && |h.dwReserved1| == 11
    && (forall i :: 0 <= i < 11 ==> h.dwReserved1[i] == ToInt(LeWordAt(data, start + 28 + 4 * i)))
  }

  /** The seven words before `dwReserved1`, as stored at `data[start..]`. */
  ghost predicate WordsAt(h: DDSHeader, data: seq<bv8>, start: int)
    requires 0 <= start && start + 28 <= |data|
  {
    && h.dwSize == ToInt(LeWordAt(data, start))
    && h.dwFlags == FlagSet(LeWordAt(data, start + 4), AllFlags, FlagBits)
    && h.dwHeight == ToInt(LeWordAt(data, start + 8))
    && h.dwWidth == ToInt(LeWordAt(data, start + 12))
    && h.dwPitchOrLinearSize == ToInt(LeWordAt(data, start + 16))
    && h.dwDepth == ToInt(LeWordAt(data, start + 20))
    && h.dwMipMapCount == ToInt(LeWordAt(data, start + 24))
  }

  /** The fields `read` assigns after the pixel format, as stored at `data[start..]`. */
  ghost predicate TrailingAt(h: DDSHeader, data: seq<bv8>, start: int)
    requires 0 <= start && start + 124 <= |data|
  {
    && h.dwCaps == FlagSet(LeWordAt(data, start + 104), AllCaps, CapsBits)
    && h.dwCaps2 == FlagSet(LeWordAt(data, start + 108), AllCaps2, Caps2Bits)
    && h.dwCaps3 == FlagSet(LeWordAt(data, start + 112), AllCaps2, Caps2Bits)
    && h.dwCaps4 == FlagSet(LeWordAt(data, start + 116), AllCaps2, Caps2Bits)
    && h.dwReserved2 == ToInt(LeWordAt(data, start + 120))
  }

  /** `DDSHeader()`: the record before `read` has assigned anything. */
  const BLANK: DDSHeader :=
    DDSHeader(0, {}, 0, 0, 0, 0, 0, [], PF.DDSPixelFormat(0, {}, [], 0, 0, 0, 0, 0), {}, {}, {}, {}, 0)

  /** The seven leading words and the reserved block of `read`. */
  method ReadLeading(ins: ByteInput) returns (r: Result<DDSHeader>)
    requires ins.Valid()
    modifies ins
    ensures ins.Valid()
    ensures old(ins.pos) + 72 <= |ins.data| ==>
      r.Ok? && ins.pos == old(ins.pos) + 72 && LeadingAt(r.value, ins.data, old(ins.pos))
    ensures old(ins.pos) + 72 > |ins.data| ==> r == Err(EOF) && ins.pos == |ins.data|
  {
    var h :- ReadWords(ins, ins.pos);
    var dwReserved1 :- ReadReserved1(ins);
    return Ok(h.(dwReserved1 := dwReserved1));
  }

  /** The seven words of `read` before `dwReserved1`. */
  method ReadWords(ins: ByteInput, ghost start: int) returns (r: Result<DDSHeader>)
    requires ins.Valid() && ins.pos == start
    modifies ins
    ensures ins.Valid()
    ensures start + 28 <= |ins.data| ==> r.Ok? && ins.pos == start + 28 && WordsAt(r.value, ins.data, start)
    ensures start + 28 > |ins.data| ==> r == Err(EOF) && ins.pos == |ins.data|
  {
    var dwSize :- ins.ReadLeInt();
    assert dwSize == LeWordAt(ins.data, start);
    var flagBits :- ins.ReadLeInt();
    assert flagBits == LeWordAt(ins.data, start + 4);
    var dwFlags := BitsToSet(flagBits, AllFlags, FlagBits);
    var dwHeight :- ins.ReadLeInt();
    assert dwHeight == LeWordAt(ins.data, start + 8);
    var dwWidth :- ins.ReadLeInt();
    assert dwWidth == LeWordAt(ins.data, start + 12);
    var dwPitchOrLinearSize :- ins.ReadLeInt();
    assert dwPitchOrLinearSize == LeWordAt(ins.data, start + 16);
    var dwDepth :- ins.ReadLeInt();
    assert dwDepth == LeWordAt(ins.data, start + 20);
    var dwMipMapCount :- ins.ReadLeInt();
    return Ok(BLANK.(
      dwSize := ToInt(dwSize), dwFlags := dwFlags, dwHeight := ToInt(dwHeight), dwWidth := ToInt(dwWidth),
      dwPitchOrLinearSize := ToInt(dwPitchOrLinearSize), dwDepth := ToInt(dwDepth),
      dwMipMapCount := ToInt(dwMipMapCount)));
  }

  /** The loop filling `dwReserved1`: eleven words. */
  method ReadReserved1(ins: ByteInput) returns (r: Result<seq<int>>)
    requires ins.Valid()
    modifies ins
    ensures ins.Valid()
    ensures old(ins.pos) + 44 <= |ins.data| ==>
      && r.Ok? && ins.pos == old(ins.pos) + 44 && |r.value| == 11
      && forall i :: 0 <= i < 11 ==> r.value[i] == ToInt(LeWordAt(ins.data, old(ins.pos) + 4 * i))
    ensures old(ins.pos) + 44 > |ins.data| ==> r == Err(EOF) && ins.pos == |ins.data|
  {
    ghost var start := ins.pos;
    var dwReserved1 := new int[DW_RESERVED_1_SIZE];
    for index := 0 to DW_RESERVED_1_SIZE
      invariant ins.Valid() && ins.pos == start + 4 * index
      invariant forall i :: 0 <= i < index ==> dwReserved1[i] == ToInt(LeWordAt(ins.data, start + 4 * i))
    {
      var w :- ins.ReadLeInt();
      dwReserved1[index] := ToInt(w);
    }
    return Ok(dwReserved1[..]);
  }

  /** The four caps words and `dwReserved2` of `read`, assigned into `h`. */
  method ReadTrailing(ins: ByteInput, h: DDSHeader, ghost start: int) returns (r: Result<DDSHeader>)
    requires ins.Valid() && 0 <= start && ins.pos == start + 104
    modifies ins
    ensures ins.Valid()
    ensures start + 124 <= |ins.data| ==>
      && r.Ok? && ins.pos == start + 124 && TrailingAt(r.value, ins.data, start)
      && r.value == h.(dwCaps := r.value.dwCaps, dwCaps2 := r.value.dwCaps2, dwCaps3 := r.value.dwCaps3,
                       dwCaps4 := r.value.dwCaps4, dwReserved2 := r.value.dwReserved2)
    ensures start + 124 > |ins.data| ==> r == Err(EOF) && ins.pos == |ins.data|
  {
    var capsBits :- ins.ReadLeInt();
    var dwCaps := BitsToSet(capsBits, AllCaps, CapsBits);
    var caps2Bits :- ins.ReadLeInt();
    var dwCaps2 := BitsToSet(caps2Bits, AllCaps2, Caps2Bits);
    var caps3Bits :- ins.ReadLeInt();
    var dwCaps3 := BitsToSet(caps3Bits, AllCaps2, Caps2Bits);
    var caps4Bits :- ins.ReadLeInt();
    var dwCaps4 := BitsToSet(caps4Bits, AllCaps2, Caps2Bits);
    var dwReserved2 :- ins.ReadLeInt();
    return Ok(h.(dwCaps := dwCaps, dwCaps2 := dwCaps2, dwCaps3 := dwCaps3, dwCaps4 := dwCaps4,
                 dwReserved2 := ToInt(dwReserved2)));
  }

  /** The header assembled from the fields at `data[start..]` is the one `DecodeHeader` describes. */
  lemma DecodeHeaderAt(data: seq<bv8>, start: int, lead: DDSHeader, h: DDSHeader)
    requires 0 <= start && start + 124 <= |data|
    requires LeadingAt(lead, data, start) && TrailingAt(h, data, start)
    requires h == lead.(ddspf := h.ddspf, dwCaps := h.dwCaps, dwCaps2 := h.dwCaps2, dwCaps3 := h.dwCaps3,
                        dwCaps4 := h.dwCaps4, dwReserved2 := h.dwReserved2)
    ensures h == DecodeHeader(data[start..], h.ddspf)
  {
    var s := data[start..];
    forall k | 0 <= k && k + 4 <= 124
      ensures LeWordAt(s, k) == LeWordAt(data, start + k)
    {
      LeWordAtSuffix(data, start, k);
    }
    var res := Reserved1(s, DW_RESERVED_1_SIZE);
    assert h.dwReserved1 == res by {
      forall i | 0 <= i < 11
        ensures h.dwReserved1[i] == res[i]
      {
        assert LeWordAt(s, 28 + 4 * i) == LeWordAt(data, start + 28 + 4 * i);
      }
    }
  }

  /**
   * The check labelled `dwCaps4` re-tests `dwCaps3`: its exception can
   * never be thrown, and `dwCaps4` (like `dwCaps2`) never affects `validate`.
   */
  lemma Caps4NeverChecked(h: DDSHeader, caps2: set<DWCaps2>, caps4: set<DWCaps2>)
    ensures Validate(h) != Fail(DDSInvalid(Caps4NotEmpty))
    ensures Validate(h.(dwCaps2 := caps2, dwCaps4 := caps4)) == Validate(h)
  {
  }

  /** `validate` never looks at the dimensions, pitch, depth, mipmap count or reserved block. */
  lemma DimensionsUnconstrained(h: DDSHeader, height: int, width: int, pitch: int, depth: int,
                                mipMaps: int, reserved1: seq<int>)
    ensures Validate(h.(dwHeight := height, dwWidth := width, dwPitchOrLinearSize := pitch,
                        dwDepth := depth, dwMipMapCount := mipMaps, dwReserved1 := reserved1))
         == Validate(h)
  {
  }

  /**
   * The embedded pixel format is validated inside its own `read`, before
   * the caps words are read: when it is invalid, that is the error, even
   * if the stream ends before the header does.
   */
  lemma PixelFormatErrorFirst(s: seq<bv8>)
    requires |s| >= CAPS_OFFSET
    requires !PF.WellFormed(PF.DecodePixelFormat(s[PIXEL_FORMAT_OFFSET..]))
    ensures ParseHeader(s) == Err(PF.Validate(PF.DecodePixelFormat(s[PIXEL_FORMAT_OFFSET..])).error)
    ensures HeaderConsumed(s) == CAPS_OFFSET
  {
  }

  /** A header `read` returns holds a pixel format that passed `validate` on its own, at offset 72. */
  lemma PixelFormatOfParsed(s: seq<bv8>)
    requires ParseHeader(s).Ok?
    ensures PF.ParsePixelFormat(s[PIXEL_FORMAT_OFFSET..]) == Ok(ParseHeader(s).value.ddspf)
  {
  }

  /** The required flags are present exactly when bits 0x1, 0x2, 0x4 and 0x1000 of the flags word are set. */
  lemma RequiredFlagsIff(bits: bv32)
    ensures REQUIRED_FLAGS <= FlagSet(bits, AllFlags, FlagBits) <==> bits & 0x1007 == 0x1007
  {
    BitsOfMask(bits);
    RequiredMembers(bits);
    var S := FlagSet(bits, AllFlags, FlagBits);
    assert REQUIRED_FLAGS <= S <==> DDSD_CAPS in S && DDSD_HEIGHT in S && DDSD_WIDTH in S && DDSD_PIXELFORMAT in S;
  }

  lemma RequiredMembers(bits: bv32)
    ensures var S := FlagSet(bits, AllFlags, FlagBits);
      && (DDSD_CAPS in S <==> bits & 0x1 != 0) && (DDSD_HEIGHT in S <==> bits & 0x2 != 0)
      && (DDSD_WIDTH in S <==> bits & 0x4 != 0) && (DDSD_PIXELFORMAT in S <==> bits & 0x1000 != 0)
  {
    FlagMember(bits, DDSD_CAPS);
    FlagMember(bits, DDSD_HEIGHT);
    FlagMember(bits, DDSD_WIDTH);
    FlagMember(bits, DDSD_PIXELFORMAT);
  }

  lemma FlagMember(bits: bv32, f: DWFlags)
    ensures f in FlagSet(bits, AllFlags, FlagBits) <==> bits & FlagBits(f) != 0
  {
    assert f in AllFlags;
  }

  lemma BitsOfMask(bits: bv32)
    ensures bits & 0x1007 == 0x1007
        <==> bits & 0x1 != 0 && bits & 0x2 != 0 && bits & 0x4 != 0 && bits & 0x1000 != 0
  {
  }

  /** `dwCaps` holds the required caps exactly when bit 0x1000 of the caps word is set. */
  lemma RequiredCapsIff(bits: bv32)
    ensures REQUIRED_CAPS <= FlagSet(bits, AllCaps, CapsBits) <==> bits & 0x1000 != 0
  {
    assert DDSCAPS_TEXTURE in AllCaps;
  }

  /**
   * `dwCaps3` is decoded with the `DWCaps2` table, so it is empty exactly
   * when the word has none of the seven `DWCaps2` bits: any other bit passes.
   */
  lemma Caps3EmptyIff(bits: bv32)
    ensures FlagSet(bits, AllCaps2, Caps2Bits) == {} <==> bits & 0x20_7E00 == 0
  {
    assert DeclaredBits(AllCaps2, Caps2Bits) == 0x20_7E00;
    FlagSetEmptyIff(bits, AllCaps2, Caps2Bits);
  }
}
