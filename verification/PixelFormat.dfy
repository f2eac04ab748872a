/**
 * `DDS_PIXELFORMAT`: the 32-byte record embedded in the DDS header that
 * says how the payload's pixels are stored (DDSPixelFormat.kt).
 *
 * A record's fields are written once, by `read`, through private setters,
 * so a record is modelled as a value: `DecodePixelFormat` is the field
 * layout, `ParsePixelFormat` what `read` returns for the bytes in front of
 * the stream, and the `Read` method the stream-advancing reader proved
 * against it.
 */
module PixelFormat {
  import opened KotlinInt
  import opened Errors
  import opened InternalUtils
  import opened DataInput

  /** `DW_SIZE`: the record's length in bytes, and the value `dwSize` must hold. */
  const DW_SIZE: int := 32
  const DW_FOUR_CC_SIZE: nat := 4

  /** 'D', 'X', '1', '0': the FourCC announcing a DX10 extended header. */
  const DXGI_DX10_DW_FOUR_CC: seq<bv8> := [0x44, 0x58, 0x31, 0x30]

  /** `DDSPixelFormat.DWFlags`. */
  datatype DWFlags =
    | DDPF_ALPHAPIXELS
    | DDPF_ALPHA
    | DDPF_FOURCC
    | DDPF_RGB
    | DDPF_YUV
    | DDPF_LUMINANCE

  /** The bit of each flag (`asInt`). */
  function Bits(f: DWFlags): bv32 {
    match f
    case DDPF_ALPHAPIXELS => 0x1
    case DDPF_ALPHA => 0x2
    case DDPF_FOURCC => 0x4
    case DDPF_RGB => 0x40
    case DDPF_YUV => 0x200
    case DDPF_LUMINANCE => 0x2_0000
  }

  /** The flags in declaration order (`enumConstants`). */
  const AllFlags: seq<DWFlags> :=
    [DDPF_ALPHAPIXELS, DDPF_ALPHA, DDPF_FOURCC, DDPF_RGB, DDPF_YUV, DDPF_LUMINANCE]

  /** The flag set decoded from a flags word. */
  function Flags(bits: bv32): set<DWFlags> {
    FlagSet(bits, AllFlags, Bits)
  }

  datatype DDSPixelFormat = DDSPixelFormat(
    dwSize: int,
    dwFlags: set<DWFlags>,
    dwFourCC: seq<bv8>,
    dwRGBBitCount: int,
    dwRBitMask: bv32,
    dwGBitMask: bv32,
    dwBBitMask: bv32,
    dwABitMask: bv32)

  /** The two invariants `validate` enforces. */
  predicate WellFormed(pf: DDSPixelFormat) {
    pf.dwSize == DW_SIZE && pf.dwFlags != {}
  }

  /** `validate`: the size check, then the non-empty-flags check; the first failing one throws. */
  function Validate(pf: DDSPixelFormat): (r: Outcome)
    ensures r.Pass? <==> WellFormed(pf)
    ensures pf.dwSize != DW_SIZE ==> r == Fail(DDSInvalid(PixelFormatSize))
    ensures pf.dwSize == DW_SIZE && pf.dwFlags == {} ==> r == Fail(DDSInvalid(PixelFormatFlagsEmpty))
  {
    match Verify(PixelFormatSize, pf.dwSize == DW_SIZE)
    case Fail(e) => Fail(e)
    case Pass => VerifyNot(PixelFormatFlagsEmpty, pf.dwFlags == {})
  }

  /** `isDX10HeaderPresent`. */
  predicate IsDX10HeaderPresent(pf: DDSPixelFormat) {
    DDPF_FOURCC in pf.dwFlags && pf.dwFourCC == DXGI_DX10_DW_FOUR_CC
  }

  /** The record the eight fields of `s[..32]` describe, in the order `read` consumes them. */
  function DecodePixelFormat(s: seq<bv8>): DDSPixelFormat
    requires |s| >= 32
  {
    DDSPixelFormat(
      ToInt(LeWordAt(s, 0)),
      Flags(LeWordAt(s, 4)),
      s[8..12],
      ToInt(LeWordAt(s, 12)),
      LeWordAt(s, 16),
      LeWordAt(s, 20),
      LeWordAt(s, 24),
      LeWordAt(s, 28))
  }

  /**
   * What `read` yields on a stream holding `s`: `EOFException` when fewer
   * than 32 bytes are left (before any check runs), otherwise the decoded
   * record if it passes `validate`, else that check's exception.
   */
  function ParsePixelFormat(s: seq<bv8>): (r: Result<DDSPixelFormat>)
    ensures |s| < 32 ==> r == Err(EOF)
    ensures |s| >= 32 ==> (r.Ok? <==> WellFormed(DecodePixelFormat(s)))
    ensures r.Ok? ==> r.value == DecodePixelFormat(s) && WellFormed(r.value)
    ensures r.Err? && |s| >= 32 ==> r.error.DDSInvalid?
  {
    if |s| < 32 then Err(EOF)
    else
      var pf := DecodePixelFormat(s);
      match Validate(pf)
      case Fail(e) => Err(e)
      case Pass => Ok(pf)
  }

  /** How far `read` advances the stream: 32 bytes, or to the end when fewer are left. */
  function PixelFormatConsumed(s: seq<bv8>): nat {
    if |s| < 32 then |s| else 32
  }

  /**
   * `read(ins)`: the fields one after the other, each 32-bit one as
   * `reverseBytes(readInt())`, the FourCC with `readFully`, then `validate`.
   */
  method Read(ins: ByteInput) returns (r: Result<DDSPixelFormat>)
    requires ins.Valid()
    modifies ins
    ensures ins.Valid()
    ensures r == ParsePixelFormat(ins.data[old(ins.pos)..])
    ensures ins.pos == old(ins.pos) + PixelFormatConsumed(ins.data[old(ins.pos)..])
  {
    var pf :- ReadFields(ins);
    var valid := Validate(pf);
    if valid.Fail? {
      return Err(valid.error);
    }
    return Ok(pf);
  }

  /** The field reads of `read`, up to the call to `validate`. */
  method ReadFields(ins: ByteInput) returns (r: Result<DDSPixelFormat>)
    requires ins.Valid()
    modifies ins
    ensures ins.Valid()
    ensures old(ins.pos) + 32 <= |ins.data| ==>
      r == Ok(DecodePixelFormat(ins.data[old(ins.pos)..])) && ins.pos == old(ins.pos) + 32
    ensures old(ins.pos) + 32 > |ins.data| ==> r == Err(EOF) && ins.pos == |ins.data|
  {
    ghost var start := ins.pos;
    var dwSize :- ins.ReadLeInt();
    assert dwSize == LeWordAt(ins.data, start);
    var flagBits :- ins.ReadLeInt();
    assert flagBits == LeWordAt(ins.data, start + 4);
    var dwFlags := BitsToSet(flagBits, AllFlags, Bits);
    var dwFourCC := new bv8[DW_FOUR_CC_SIZE];
    var filled := ins.ReadFully(dwFourCC);
    if filled.Fail? {
      return Err(filled.error);
    }
    var fourCC := dwFourCC[..];
    assert fourCC == ins.data[start + 8..start + 12];
    var dwRGBBitCount :- ins.ReadLeInt();
    assert dwRGBBitCount == LeWordAt(ins.data, start + 12);
    var dwRBitMask :- ins.ReadLeInt();
    assert dwRBitMask == LeWordAt(ins.data, start + 16);
    var dwGBitMask :- ins.ReadLeInt();
    assert dwGBitMask == LeWordAt(ins.data, start + 20);
    var dwBBitMask :- ins.ReadLeInt();
    assert dwBBitMask == LeWordAt(ins.data, start + 24);
    var dwABitMask :- ins.ReadLeInt();
    var pf := DDSPixelFormat(
      ToInt(dwSize), dwFlags, fourCC, ToInt(dwRGBBitCount),
      dwRBitMask, dwGBitMask, dwBBitMask, dwABitMask);
    DecodeAt(ins.data, start, pf);
    return Ok(pf);
  }

  /** The record assembled from the fields at `data[start..]` is the one `DecodePixelFormat` describes. */
  lemma DecodeAt(data: seq<bv8>, start: int, pf: DDSPixelFormat)
    requires 0 <= start && start + 32 <= |data|
    requires pf.dwSize == ToInt(LeWordAt(data, start))
    requires pf.dwFlags == Flags(LeWordAt(data, start + 4))
    requires pf.dwFourCC == data[start + 8..start + 12]
    requires pf.dwRGBBitCount == ToInt(LeWordAt(data, start + 12))
    requires pf.dwRBitMask == LeWordAt(data, start + 16)
    requires pf.dwGBitMask == LeWordAt(data, start + 20)
    requires pf.dwBBitMask == LeWordAt(data, start + 24)
    requires pf.dwABitMask == LeWordAt(data, start + 28)
    ensures pf == DecodePixelFormat(data[start..])
  {
    var s := data[start..];
    LeWordAtSuffix(data, start, 0);
    LeWordAtSuffix(data, start, 4);
    LeWordAtSuffix(data, start, 12);
    LeWordAtSuffix(data, start, 16);
    LeWordAtSuffix(data, start, 20);
    LeWordAtSuffix(data, start, 24);
    LeWordAtSuffix(data, start, 28);
    assert s[8..12] == data[start + 8..start + 12];
  }

  /** Every declared flag is a single bit. */
  lemma FlagsAreSingleBits()
    ensures SingleBits(AllFlags, Bits)
    ensures DeclaredBits(AllFlags, Bits) == 0x2_0247
  {
  }

  /**
   * The field layout: bytes holding eight little-endian words (the FourCC
   * as four raw bytes) decode to exactly those fields, in that order.
   */
  lemma DecodeEncodedPixelFormat(
    s: seq<bv8>, size: bv32, flags: bv32, fourCC: seq<bv8>, bitCount: bv32,
    rMask: bv32, gMask: bv32, bMask: bv32, aMask: bv32)
    requires |s| >= 32
    requires s[0..4] == LeBytes(size) && s[4..8] == LeBytes(flags) && s[8..12] == fourCC
    requires s[12..16] == LeBytes(bitCount) && s[16..20] == LeBytes(rMask)
    requires s[20..24] == LeBytes(gMask) && s[24..28] == LeBytes(bMask) && s[28..32] == LeBytes(aMask)
    ensures DecodePixelFormat(s)
            == DDSPixelFormat(ToInt(size), Flags(flags), fourCC, ToInt(bitCount), rMask, gMask, bMask, aMask)
  {
    LeWordAtBytes(s, 0, size);
    LeWordAtBytes(s, 4, flags);
    LeWordAtBytes(s, 12, bitCount);
    LeWordAtBytes(s, 16, rMask);
    LeWordAtBytes(s, 20, gMask);
    LeWordAtBytes(s, 24, bMask);
    LeWordAtBytes(s, 28, aMask);
  }

  /**
   * A record read from the stream announces a DX10 header exactly when bit
   * 0x4 of its flags word is set and its FourCC bytes are 'D','X','1','0'.
   */
  lemma DX10HeaderOfDecoded(s: seq<bv8>)
    requires |s| >= 32
    ensures IsDX10HeaderPresent(DecodePixelFormat(s))
        <==> LeWordAt(s, 4) & 0x4 != 0 && s[8..12] == DXGI_DX10_DW_FOUR_CC
  {
    assert DDPF_FOURCC in AllFlags;
  }

  /**
   * `validate` rejects a record whose flags word has none of the six
   * declared bits: the bits `bitsToSet` does not know are dropped.
   */
  lemma ValidateNeedsDeclaredFlag(s: seq<bv8>)
    requires |s| >= 32
    ensures WellFormed(DecodePixelFormat(s))
        <==> ToInt(LeWordAt(s, 0)) == 32 && LeWordAt(s, 4) & 0x2_0247 != 0
  {
    FlagsAreSingleBits();
    FlagSetEmptyIff(LeWordAt(s, 4), AllFlags, Bits);
  }
}
