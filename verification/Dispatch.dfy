/**
 * `DDSDecoder.createDecoder`: which line decoder a surface gets, chosen
 * from the pixel format's flags and FourCC tag alone.
 *
 * The choice is the pure function `SelectDecoder`; `CreateDecoder`
 * then constructs the chosen decoder, whose own `init` may still throw.
 * The DXT3 and DXT5 decoder classes are not part of this model, so for
 * them only the choice is recorded.
 */
module Dispatch {
  import opened Errors
  import PF = PixelFormat
  import C = Container
  import LineDecoder
  import RGBADecoder
  import RGBDecoder
  import DXTDecoder

  /** The decoder classes `createDecoder` can return. */
  datatype DecoderKind = DXT1 | DXT3 | DXT5 | RGBA | RGB {
    predicate Compressed() { DXT1? || DXT3? || DXT5? }
  }

  /** The FourCC tag that selects a block-compressed decoder. */
  function TagOf(k: DecoderKind): seq<bv8>
    requires k.Compressed()
  {
    match k
    case DXT1 => C.DXT1_FOUR_CC
    case DXT3 => C.DXT3_FOUR_CC
    case DXT5 => C.DXT5_FOUR_CC
  }

  /** The bytes of one block of each block-compressed format. */
  function BlockBytesOf(k: DecoderKind): int
    requires k.Compressed()
  {
    if k == DXT1 then 8 else 16
  }

  /**
   * The `when` of `createDecoder`: with `DDPF_FOURCC`, the tag picks a DXT
   * decoder (four NUL bytes and unknown tags throw); otherwise `DDPF_RGB`
   * picks the RGBA decoder when `DDPF_ALPHAPIXELS` is set and the RGB
   * decoder when not; with neither flag, it throws.
   */
  function SelectDecoder(flags: set<PF.DWFlags>, fourCC: seq<bv8>): (r: Result<DecoderKind>)
    ensures PF.DDPF_FOURCC in flags ==>
      && (forall k: DecoderKind | k.Compressed() :: r == Ok(k) <==> fourCC == TagOf(k))
      && (r == Err(IllegalArgument(NoFourCC)) <==> fourCC == C.BAD_DW_FOUR_CC)
      && (r == Err(IllegalArgument(NoDecoderForFourCC)) <==>
            fourCC !in {C.BAD_DW_FOUR_CC, C.DXT1_FOUR_CC, C.DXT3_FOUR_CC, C.DXT5_FOUR_CC})
    ensures PF.DDPF_FOURCC !in flags ==>
      && (r == Ok(RGBA) <==> PF.DDPF_RGB in flags && PF.DDPF_ALPHAPIXELS in flags)
      && (r == Ok(RGB) <==> PF.DDPF_RGB in flags && PF.DDPF_ALPHAPIXELS !in flags)
      && (r == Err(IllegalArgument(InvalidPixelFormatFlags)) <==> PF.DDPF_RGB !in flags)
    ensures r.Ok? ==> (r.value.Compressed() <==> PF.DDPF_FOURCC in flags)
  {
    if PF.DDPF_FOURCC in flags then
      if fourCC == C.BAD_DW_FOUR_CC then Err(IllegalArgument(NoFourCC))
      else if fourCC == C.DXT1_FOUR_CC then Ok(DXT1)
      else if fourCC == C.DXT3_FOUR_CC then Ok(DXT3)
      else if fourCC == C.DXT5_FOUR_CC then Ok(DXT5)
      else Err(IllegalArgument(NoDecoderForFourCC))
    else if PF.DDPF_RGB in flags then
      if PF.DDPF_ALPHAPIXELS in flags then Ok(RGBA) else Ok(RGB)
    else Err(IllegalArgument(InvalidPixelFormatFlags))
  }

  /**
   * `DDPF_FOURCC` takes precedence: once it is set, no other flag changes
   * the choice, so the RGB flags are never consulted.
   */
  lemma FourCCTakesPrecedence(flags: set<PF.DWFlags>, other: set<PF.DWFlags>, fourCC: seq<bv8>)
    requires PF.DDPF_FOURCC in flags && PF.DDPF_FOURCC in other
    ensures SelectDecoder(flags, fourCC) == SelectDecoder(other, fourCC)
  {
    if fourCC !in {C.BAD_DW_FOUR_CC, C.DXT1_FOUR_CC, C.DXT3_FOUR_CC, C.DXT5_FOUR_CC} {
      assert SelectDecoder(flags, fourCC) == Err(IllegalArgument(NoDecoderForFourCC));
    }
  }

  /**
   * Without `DDPF_FOURCC` the tag is never consulted: the RGB flags
   * alone decide.
   */
  lemma TagIgnoredWithoutFourCC(flags: set<PF.DWFlags>, fourCC: seq<bv8>, other: seq<bv8>)
    requires PF.DDPF_FOURCC !in flags
    ensures SelectDecoder(flags, fourCC) == SelectDecoder(flags, other)
  {
  }

  /**
   * The dispatch agrees with the payload-size arithmetic: a surface that
   * gets a DXT decoder has its payload measured in blocks of that
   * format's size, and the tag of four NUL bytes is refused by both with
   * the same exception.
   */
  lemma AgreesWithBlockSize(flags: set<PF.DWFlags>, fourCC: seq<bv8>)
    requires PF.DDPF_FOURCC in flags
    ensures SelectDecoder(flags, fourCC).Ok? ==>
      C.CalcBlockSize(fourCC) == Ok(BlockBytesOf(SelectDecoder(flags, fourCC).value))
    ensures SelectDecoder(flags, fourCC) == Err(IllegalArgument(NoFourCC)) <==>
      C.CalcBlockSize(fourCC) == Err(IllegalArgument(NoFourCC))
  {
    if SelectDecoder(flags, fourCC).Ok? {
      var k := SelectDecoder(flags, fourCC).value;
      assert fourCC == TagOf(k);
    }
  }

  /** A constructed decoder: the instance for the classes modelled here, the kind alone for DXT3 and DXT5. */
  datatype Decoder =
    | OfDXT1(dxt1: DXTDecoder.DXT1DDSDecoder)
    | OfDXT3
    | OfDXT5
    | OfRGBA(rgba: RGBADecoder.RGBADDSDecoder)
    | OfRGB(rgb: RGBDecoder.RGBDDSDecoder)
  {
    function Kind(): DecoderKind {
      match this
      case OfDXT1(_) => DXT1
      case OfDXT3 => DXT3
      case OfDXT5 => DXT5
      case OfRGBA(_) => RGBA
      case OfRGB(_) => RGB
    }
  }

  /**
   * `createDecoder(dds)`: the selected decoder, freshly constructed. A
   * refused selection throws its `IllegalArgumentException`; otherwise
   * the constructor of the chosen class runs, and its own failure (a
   * negative line or cache size) is what the call throws.
   */
  method CreateDecoder(dds: C.DDSRef) returns (r: Result<Decoder>)
    ensures var sel := SelectDecoder(dds.header.ddspf.dwFlags, dds.header.ddspf.dwFourCC);
      && (sel.Err? ==> r == Err(sel.error))
      && (r.Ok? ==> sel == Ok(r.value.Kind()))
      && (sel == Ok(DXT3) ==> r == Ok(OfDXT3))
      && (sel == Ok(DXT5) ==> r == Ok(OfDXT5))
      && (sel == Ok(DXT1) ==>
            && (r.Err? <==> DXTDecoder.ConfigOf(dds).cacheSize < 0 || DXTDecoder.ConfigOf(dds).blockBytes < 0)
            && (r.Ok? ==> && fresh(r.value.dxt1) && r.value.dxt1.Valid()
                          && r.value.dxt1.Config() == DXTDecoder.ConfigOf(dds)
                          && r.value.dxt1.State() == DXTDecoder.InitialState(DXTDecoder.ConfigOf(dds))))
      && (sel == Ok(RGBA) ==>
            && (r.Err? <==> LineDecoder.ConfigOf(dds).lineByteSize < 0)
            && (r.Ok? ==> && fresh(r.value.rgba) && r.value.rgba.Valid()
                          && r.value.rgba.cursor.Config() == LineDecoder.ConfigOf(dds)
                          && r.value.rgba.cursor.State() == LineDecoder.InitialState(LineDecoder.ConfigOf(dds))))
      && (sel == Ok(RGB) ==>
            && (r.Err? <==> LineDecoder.ConfigOf(dds).lineByteSize < 0)
            && (r.Ok? ==> && fresh(r.value.rgb) && r.value.rgb.Valid()
                          && r.value.rgb.cursor.Config() == LineDecoder.ConfigOf(dds)
                          && r.value.rgb.cursor.State() == LineDecoder.InitialState(LineDecoder.ConfigOf(dds))))
  {
    var pixelFormat := dds.header.ddspf;
    var kind :- SelectDecoder(pixelFormat.dwFlags, pixelFormat.dwFourCC);
    match kind
    case DXT1 =>
      var d :- DXTDecoder.DXT1DDSDecoder.Create(dds);
      return Ok(OfDXT1(d));
    case DXT3 =>
      return Ok(OfDXT3);
    case DXT5 =>
      return Ok(OfDXT5);
    case RGBA =>
      var d :- RGBADecoder.RGBADDSDecoder.Create(dds);
      return Ok(OfRGBA(d));
    case RGB =>
      var d :- RGBDecoder.RGBDDSDecoder.Create(dds);
      return Ok(OfRGB(d));
  }
}
