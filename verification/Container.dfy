/**
 * The DDS file as a whole (DDSRef.kt): the magic number, the header and the
 * pixel payload, whose length `read` works out from the header before
 * reading it. The decoders call this record `DDS`.
 */
module Container {
  import opened KotlinInt
  import opened Errors
  import opened InternalUtils
  import opened DataInput
  import PF = PixelFormat
  import H = Header
  import BC = DXGIBCUtils

  /** `DDS_MAGIC_NUMBER`: `reverseBytes(0x44445320)`, the little-endian reading of 'D','D','S',' '. */
  const DDS_MAGIC_NUMBER: bv32 := 0x2053_4444

  /** The bytes of 'D','D','S',' '. */
  const MAGIC_BYTES: seq<bv8> := [0x44, 0x44, 0x53, 0x20]

  /** `BAD_DW_FOUR_CC_STR`: four NUL characters. */
  const BAD_DW_FOUR_CC: seq<bv8> := [0, 0, 0, 0]

  /** The ASCII FourCC tags the reader and the dispatcher compare against. */
  const DXT1_FOUR_CC: seq<bv8> := [0x44, 0x58, 0x54, 0x31]
  const DXT3_FOUR_CC: seq<bv8> := [0x44, 0x58, 0x54, 0x33]
  const DXT5_FOUR_CC: seq<bv8> := [0x44, 0x58, 0x54, 0x35]

  /** Where the payload starts: after the 4-byte magic and the 124-byte header. */
  const PAYLOAD_OFFSET: nat := 128

  datatype DDSRef = DDSRef(dwMagic: bv32, header: H.DDSHeader, bdata: seq<bv8>)

  /** `validate`: the magic number, then the header's own checks. */
  function Validate(dds: DDSRef): (r: Outcome)
    ensures r.Pass? <==> dds.dwMagic == DDS_MAGIC_NUMBER && H.WellFormed(dds.header)
    ensures dds.dwMagic != DDS_MAGIC_NUMBER ==> r == Fail(DDSInvalid(BadMagic))
    ensures dds.dwMagic == DDS_MAGIC_NUMBER ==> r == H.Validate(dds.header)
  {
    Verify(BadMagic, dds.dwMagic == DDS_MAGIC_NUMBER).Then(H.Validate(dds.header))
  }

  /**
   * `calcBlockSize(String(dwFourCC))`: four NUL bytes throw, "DXT1" has
   * 8-byte blocks and every other tag is taken to have 16-byte blocks.
   */
  function CalcBlockSize(fourCC: seq<bv8>): (r: Result<int>)
    ensures r == Err(IllegalArgument(NoFourCC)) <==> fourCC == BAD_DW_FOUR_CC
    ensures r == Ok(8) <==> fourCC == DXT1_FOUR_CC
    ensures r == Ok(16) <==> fourCC != BAD_DW_FOUR_CC && fourCC != DXT1_FOUR_CC
  {
    if fourCC == BAD_DW_FOUR_CC then Err(IllegalArgument(NoFourCC))
    else if fourCC == DXT1_FOUR_CC then Ok(BC.DXGI_FORMAT_BC1_DXT1_BLOCK_SIZE_BYTES)
    else Ok(BC.DXGI_FORMAT_BC2_DXT3_BLOCK_SIZE_BYTES)
  }

  /** `(n + 3) / 4` on Kotlin `Int`: the number of 4-texel blocks spanning `n` texels. */
  function BlockCount(n: int): int {
    TDiv(Add32(n, 3), 4)
  }

  /**
   * `calcCompressedDataSize`: with a FourCC, whole 4x4 blocks times the
   * block size (32-bit products); without one, `dwPitchOrLinearSize` as given.
   */
  function CalcCompressedDataSize(h: H.DDSHeader): (r: Result<int>)
    ensures PF.DDPF_FOURCC !in h.ddspf.dwFlags ==> r == Ok(h.dwPitchOrLinearSize)
    ensures PF.DDPF_FOURCC in h.ddspf.dwFlags ==> r.Ok? == (h.ddspf.dwFourCC != BAD_DW_FOUR_CC)
    ensures r.Ok? ==> IsInt(r.value) || r.value == h.dwPitchOrLinearSize
  {
    if PF.DDPF_FOURCC in h.ddspf.dwFlags then
      var blockSize :- CalcBlockSize(h.ddspf.dwFourCC);
      var blockWidth := BlockCount(h.dwWidth);
      var blockHeight := BlockCount(h.dwHeight);
      Ok(Mul32(Mul32(blockWidth, blockHeight), blockSize))
    else
      Ok(h.dwPitchOrLinearSize)
  }

  /**
   * The bytes per pixel `calcDataSize` settles on: 0, then 1 if
   * `DDPF_ALPHA` is set, overridden by `dwRGBBitCount / 8` if any of
   * `DDPF_LUMINANCE`, `DDPF_YUV`, `DDPF_RGB` is set.
   */
  function BytesPerPixel(pf: PF.DDSPixelFormat): int {
    var bytesPerPixel := if PF.DDPF_ALPHA in pf.dwFlags then 1 else 0;
    var validRGBBits := {PF.DDPF_LUMINANCE, PF.DDPF_YUV, PF.DDPF_RGB};
    if validRGBBits * pf.dwFlags != {} then TDiv(pf.dwRGBBitCount, 8) else bytesPerPixel
  }

  /** `calcDataSize`: the block formula when a FourCC is set, else width * height * bytes per pixel. */
  function CalcDataSize(h: H.DDSHeader): (r: Result<int>)
    ensures PF.DDPF_FOURCC in h.ddspf.dwFlags ==> r == CalcCompressedDataSize(h)
    ensures PF.DDPF_FOURCC !in h.ddspf.dwFlags ==> r.Ok? && IsInt(r.value)
  {
    var numPixels := Mul32(h.dwWidth, h.dwHeight);
    if PF.DDPF_FOURCC in h.ddspf.dwFlags then CalcCompressedDataSize(h)
    else Ok(Mul32(numPixels, BytesPerPixel(h.ddspf)))
  }

  /** The length `read` allocates for `bdata`. */
  function PayloadSize(h: H.DDSHeader): Result<int> {
    if H.DDSD_LINEARSIZE in h.dwFlags then CalcCompressedDataSize(h) else CalcDataSize(h)
  }

  /**
   * What `read` yields on a stream holding `s`: the magic word; the header
   * (through its own `read`, which validates it); then the payload and the
   * final `validate`, as `ParseBody` describes.
   */
  function ParseDDS(s: seq<bv8>): Result<DDSRef> {
    if |s| < 4 then Err(EOF)
    else
      var header :- H.ParseHeader(s[4..]);
      ParseBody(s, LeWordAt(s, 0), header)
  }

  /**
   * The rest of `read` once magic and header are in: the payload length
   * (`NegativeArraySizeException` if it is negative), the payload
   * (`EOFException` if the stream is shorter), then `validate`.
   */
  function ParseBody(s: seq<bv8>, dwMagic: bv32, header: H.DDSHeader): Result<DDSRef> {
    var size :- PayloadSize(header);
    if size < 0 then Err(NegativeArraySize)
    else if |s| < PAYLOAD_OFFSET + size then Err(EOF)
    else
      var dds := DDSRef(dwMagic, header, s[PAYLOAD_OFFSET..PAYLOAD_OFFSET + size]);
      match Validate(dds)
      case Fail(e) => Err(e)
      case Pass => Ok(dds)
  }

  /** How far `read` advances the stream before it returns or throws. */
  function DDSConsumed(s: seq<bv8>): nat {
    if |s| < 4 then |s|
    else if H.ParseHeader(s[4..]).Err? then 4 + H.HeaderConsumed(s[4..])
    else BodyConsumed(s, H.ParseHeader(s[4..]).value)
  }

  function BodyConsumed(s: seq<bv8>, header: H.DDSHeader): nat {
    var size := PayloadSize(header);
    if size.Err? || size.value < 0 then PAYLOAD_OFFSET
    else if |s| < PAYLOAD_OFFSET + size.value then |s|
    else PAYLOAD_OFFSET + size.value
  }

  /**
   * `read(ins)`: `dwMagic`, the header, a payload array sized by
   * `calcCompressedDataSize` when the header has `DDSD_LINEARSIZE` and by
   * `calcDataSize` otherwise, `readFully` into it, then `validate`.
   */
  method Read(ins: ByteInput) returns (r: Result<DDSRef>)
    requires ins.Valid()
    modifies ins
    ensures ins.Valid()
    ensures r == ParseDDS(ins.data[old(ins.pos)..])
    ensures ins.pos == old(ins.pos) + DDSConsumed(ins.data[old(ins.pos)..])
  {
    ghost var start := ins.pos;
    var dwMagic :- ins.ReadLeInt();
    assert ins.data[start..][4..] == ins.data[ins.pos..];
    LeWordAtSuffix(ins.data, start, 0);
    var header :- H.Read(ins);
    r := ReadBody(ins, dwMagic, header, start);
  }

  /** `read` after the header: size the payload, fill it, validate the record. */
  method ReadBody(ins: ByteInput, dwMagic: bv32, header: H.DDSHeader, ghost start: int)
    returns (r: Result<DDSRef>)
    requires ins.Valid() && 0 <= start && ins.pos == start + PAYLOAD_OFFSET
    modifies ins
    ensures ins.Valid()
    ensures r == ParseBody(ins.data[start..], dwMagic, header)
    ensures ins.pos == start + BodyConsumed(ins.data[start..], header)
  {
    var size: int;
    if H.DDSD_LINEARSIZE in header.dwFlags {
      size :- CalcCompressedDataSize(header);
    } else {
      size :- CalcDataSize(header);
    }
    if size < 0 {
      return Err(NegativeArraySize);
    }
    var bdata := new bv8[size];
    var filled := ins.ReadFully(bdata);
    if filled.Fail? {
      return Err(filled.error);
    }
    assert bdata[..] == ins.data[start..][PAYLOAD_OFFSET..PAYLOAD_OFFSET + size];
    var dds := DDSRef(dwMagic, header, bdata[..]);
    var valid := Validate(dds);
    if valid.Fail? {
      return Err(valid.error);
    }
    return Ok(dds);
  }

  /** The magic check passes exactly when the file starts with 'D','D','S',' '. */
  lemma MagicBytes(s: seq<bv8>)
    requires |s| >= 4
    ensures LeWordAt(s, 0) == DDS_MAGIC_NUMBER <==> s[..4] == MAGIC_BYTES
  {
    LittleEndianBytes(s[0], s[1], s[2], s[3]);
  }

  /**
   * A file `read` accepts starts with 'D','D','S',' ', carries a header its
   * own `read` accepts and a well-formed record, and its payload is exactly
   * the `PayloadSize` bytes after the 128-byte prefix; `read` consumes
   * nothing beyond them.
   */
  lemma ParsedFile(s: seq<bv8>)
    requires ParseDDS(s).Ok?
    ensures |s| >= PAYLOAD_OFFSET + |ParseDDS(s).value.bdata| && s[..4] == MAGIC_BYTES
    ensures ParseDDS(s).value.header == H.ParseHeader(s[4..]).value
    ensures PayloadSize(ParseDDS(s).value.header) == Ok(|ParseDDS(s).value.bdata|)
    ensures DDSConsumed(s) == PAYLOAD_OFFSET + |ParseDDS(s).value.bdata|
    ensures ParseDDS(s).value.bdata == s[PAYLOAD_OFFSET..DDSConsumed(s)]
    ensures Validate(ParseDDS(s).value).Pass?
  {
    AcceptedSplits(s);
    var header := H.ParseHeader(s[4..]).value;
    var body := ParseBody(s, LeWordAt(s, 0), header);
    BodyParsed(s, LeWordAt(s, 0), header);
    var d := body.value;
    assert ParseDDS(s) == body;
    assert d.header == header && |d.bdata| == PayloadSize(header).value;
    assert DDSConsumed(s) == BodyConsumed(s, header);
    MagicBytes(s);
  }

  /** An accepted file is a header its own `read` accepts followed by an accepted body. */
  lemma AcceptedSplits(s: seq<bv8>)
    requires ParseDDS(s).Ok?
    ensures |s| >= 4 && H.ParseHeader(s[4..]).Ok?
    ensures ParseDDS(s) == ParseBody(s, LeWordAt(s, 0), H.ParseHeader(s[4..]).value)
    ensures DDSConsumed(s) == BodyConsumed(s, H.ParseHeader(s[4..]).value)
  {
  }

  /** What an accepted body is: the record over the next `PayloadSize` bytes, validated, and nothing read past it. */
  lemma BodyParsed(s: seq<bv8>, dwMagic: bv32, header: H.DDSHeader)
    requires ParseBody(s, dwMagic, header).Ok?
    ensures PayloadSize(header).Ok? && 0 <= PayloadSize(header).value
    ensures PAYLOAD_OFFSET + PayloadSize(header).value <= |s|
    ensures BodyConsumed(s, header) == PAYLOAD_OFFSET + PayloadSize(header).value
    ensures ParseBody(s, dwMagic, header)
            == Ok(DDSRef(dwMagic, header, s[PAYLOAD_OFFSET..BodyConsumed(s, header)]))
    ensures Validate(ParseBody(s, dwMagic, header).value).Pass?
  {
  }

  /**
   * `read` builds the record only after the header has been read and
   * checked, so a header fault is reported even when the magic number is
   * wrong too; the magic number is looked at last.
   */
  lemma HeaderErrorBeforeMagic(s: seq<bv8>)
    requires |s| >= 4 && H.ParseHeader(s[4..]).Err?
    ensures ParseDDS(s) == Err(H.ParseHeader(s[4..]).error)
  {
  }

  /** A file whose header and payload are in order but which does not start with 'D','D','S',' ' is rejected as such. */
  lemma BadMagicRejected(s: seq<bv8>)
    requires |s| >= 4 && s[..4] != MAGIC_BYTES
    requires H.ParseHeader(s[4..]).Ok?
    requires PayloadSize(H.ParseHeader(s[4..]).value).Ok?
    requires 0 <= PayloadSize(H.ParseHeader(s[4..]).value).value
    requires PAYLOAD_OFFSET + PayloadSize(H.ParseHeader(s[4..]).value).value <= |s|
    ensures ParseDDS(s) == Err(DDSInvalid(BadMagic))
  {
    MagicBytes(s);
  }

  /** A stream that ends inside the payload makes `readFully` throw `EOFException` after draining it. */
  lemma TruncatedPayload(s: seq<bv8>)
    requires |s| >= 4 && H.ParseHeader(s[4..]).Ok?
    requires PayloadSize(H.ParseHeader(s[4..]).value).Ok?
    requires 0 <= PayloadSize(H.ParseHeader(s[4..]).value).value
    requires |s| < PAYLOAD_OFFSET + PayloadSize(H.ParseHeader(s[4..]).value).value
    ensures ParseDDS(s) == Err(EOF) && DDSConsumed(s) == |s|
  {
  }

  /**
   * The record re-validated at the end of `read` has already passed every
   * header check: the only new verdict `validate` can give is about the magic number.
   */
  lemma FinalValidateOnlyChecksMagic(s: seq<bv8>, dwMagic: bv32, header: H.DDSHeader)
    requires H.ParseHeader(s).Ok? && header == H.ParseHeader(s).value
    ensures Validate(DDSRef(dwMagic, header, [])).Pass? <==> dwMagic == DDS_MAGIC_NUMBER
  {
  }

  /**
   * For every width or height from 0 up to `Int.MAX_VALUE - 3`, `(n + 3) / 4`
   * is the number of whole 4-texel blocks covering `n` texels: ceil(n / 4).
   */
  lemma {:induction false} BlocksCoverImage(n: int)
    requires 0 <= n <= TWO_31 - 4
    ensures BlockCount(n) >= 0
    ensures 4 * BlockCount(n) >= n && 4 * (BlockCount(n) - 1) < n
  {
    assert Add32(n, 3) == n + 3;
  }

  /**
   * With a FourCC (and no `DDSD_LINEARSIZE` override of the path taken),
   * the payload is blocks-wide times blocks-high times the block size, when
   * that product fits in an `Int`.
   */
  lemma CompressedSizeNoWrap(h: H.DDSHeader, blockSize: int)
    requires PF.DDPF_FOURCC in h.ddspf.dwFlags
    requires CalcBlockSize(h.ddspf.dwFourCC) == Ok(blockSize)
    requires 0 <= h.dwWidth <= TWO_31 - 4 && 0 <= h.dwHeight <= TWO_31 - 4
    requires BlockCount(h.dwWidth) * BlockCount(h.dwHeight) * blockSize < TWO_31
    ensures PayloadSize(h) == Ok(BlockCount(h.dwWidth) * BlockCount(h.dwHeight) * blockSize)
    ensures PayloadSize(h) == CalcCompressedDataSize(h)
  {
    BlocksCoverImage(h.dwWidth);
    BlocksCoverImage(h.dwHeight);
    var bw := BlockCount(h.dwWidth);
    var bh := BlockCount(h.dwHeight);
    ProductNoWrap(bw, bh, blockSize);
    assert CalcCompressedDataSize(h) == Ok(Mul32(Mul32(bw, bh), blockSize));
  }

  /** A product of non-negative Ints that fits in an `Int` never wraps, nor does any partial product. */
  lemma ProductNoWrap(a: int, b: int, c: int)
    requires 0 <= a && 0 <= b && 0 < c && a * b * c < TWO_31
    ensures Mul32(Mul32(a, b), c) == a * b * c
  {
    var p := a * b;
    assert 0 <= p;
    assert p <= p * c;
    assert Mul32(a, b) == p;
  }

  /**
   * Without a FourCC, the size is width * height * bytes-per-pixel when
   * that product fits in an `Int`, unless `DDSD_LINEARSIZE` hands the
   * decision to `dwPitchOrLinearSize`.
   */
  lemma UncompressedSizeNoWrap(h: H.DDSHeader)
    requires PF.DDPF_FOURCC !in h.ddspf.dwFlags
    requires 0 <= h.dwWidth && 0 <= h.dwHeight && 0 <= BytesPerPixel(h.ddspf)
    requires h.dwWidth * h.dwHeight * BytesPerPixel(h.ddspf) < TWO_31
    ensures H.DDSD_LINEARSIZE !in h.dwFlags ==>
              PayloadSize(h) == Ok(h.dwWidth * h.dwHeight * BytesPerPixel(h.ddspf))
    ensures H.DDSD_LINEARSIZE in h.dwFlags ==> PayloadSize(h) == Ok(h.dwPitchOrLinearSize)
  {
    var w, ht, b := h.dwWidth, h.dwHeight, BytesPerPixel(h.ddspf);
    if b > 0 {
      assert w * ht <= w * ht * b;
    } else {
      assert w * ht * b == 0;
      if w > 0 && ht > 0 {
        assert w * ht > 0;
      }
    }
  }

  /** A DXT1 10x10 texture has 3x3 blocks of 8 bytes; DXT5 the same blocks of 16 bytes. */
  lemma CompressedSizeExamples(h: H.DDSHeader)
    requires PF.DDPF_FOURCC in h.ddspf.dwFlags && h.dwWidth == 10 && h.dwHeight == 10
    ensures h.ddspf.dwFourCC == DXT1_FOUR_CC ==> PayloadSize(h) == Ok(72)
    ensures h.ddspf.dwFourCC == DXT5_FOUR_CC ==> PayloadSize(h) == Ok(144)
    ensures h.ddspf.dwFourCC == BAD_DW_FOUR_CC ==> PayloadSize(h) == Err(IllegalArgument(NoFourCC))
  {
    assert BlockCount(10) == 3;
  }

  /**
   * `bytesPerPixel`: `dwRGBBitCount / 8` as soon as any of luminance, YUV or
   * RGB is flagged, whatever `DDPF_ALPHA` says; 1 for alpha only; else 0.
   */
  lemma BytesPerPixelCases(pf: PF.DDSPixelFormat)
    ensures (PF.DDPF_LUMINANCE in pf.dwFlags || PF.DDPF_YUV in pf.dwFlags || PF.DDPF_RGB in pf.dwFlags)
            ==> BytesPerPixel(pf) == TDiv(pf.dwRGBBitCount, 8)
    ensures !(PF.DDPF_LUMINANCE in pf.dwFlags || PF.DDPF_YUV in pf.dwFlags || PF.DDPF_RGB in pf.dwFlags)
            ==> BytesPerPixel(pf) == (if PF.DDPF_ALPHA in pf.dwFlags then 1 else 0)
  {
    var v := {PF.DDPF_LUMINANCE, PF.DDPF_YUV, PF.DDPF_RGB};
    if PF.DDPF_LUMINANCE in pf.dwFlags {
      assert PF.DDPF_LUMINANCE in v * pf.dwFlags;
    } else if PF.DDPF_YUV in pf.dwFlags {
      assert PF.DDPF_YUV in v * pf.dwFlags;
    } else if PF.DDPF_RGB in pf.dwFlags {
      assert PF.DDPF_RGB in v * pf.dwFlags;
    } else {
      assert v * pf.dwFlags == {};
    }
  }
}
