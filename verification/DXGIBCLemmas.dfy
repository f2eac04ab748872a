/**
 * What the block decoders of DXGIBCUtils.kt compute, stated about the
 * functions that specify them: the widening of the 565 endpoints, the shape
 * of the BC1 palette, where each texel's index bits come from, and what the
 * BC2 and BC3 alpha overlays leave of a colour word as they are written.
 */
module DXGIBCLemmas {
  import opened KotlinInt
  import opened DXGIBCUtils

  /** The alpha byte of an ARGB word. */
  function AlphaOf(argb: bv32): bv32 {
    argb >> 24
  }

  /** The red, green and blue bytes of an ARGB word. */
  function RedOf(argb: bv32): bv32 {
    (argb >> 16) & 0xFF
  }

  function GreenOf(argb: bv32): bv32 {
    (argb >> 8) & 0xFF
  }

  function BlueOf(argb: bv32): bv32 {
    argb & 0xFF
  }

  /**
   * Widening a 565 endpoint appends zero bits: red and blue are multiplied
   * by 8, green by 4, so a channel never reaches 255 (at most 248, 252, 248).
   */
  lemma WidenedChannels(c: bv32)
    ensures Red8(c) == ((c >> 11) & 0x1F) * 8 && Red8(c) <= 248
    ensures Green8(c) == ((c >> 5) & 0x3F) * 4 && Green8(c) <= 252
    ensures Blue8(c) == (c & 0x1F) * 8 && Blue8(c) <= 248
  {
  }

  /** `Opaque` packs three bytes under an alpha of 0xFF without overlap. */
  lemma OpaqueChannels(r: bv32, g: bv32, b: bv32)
    requires r <= 0xFF && g <= 0xFF && b <= 0xFF
    ensures AlphaOf(Opaque(r, g, b)) == 0xFF
    ensures RedOf(Opaque(r, g, b)) == r && GreenOf(Opaque(r, g, b)) == g && BlueOf(Opaque(r, g, b)) == b
  {
  }

  /** The interpolants of two bytes are bytes. */
  lemma InterpolantsFitByte(x: bv32, y: bv32)
    requires x <= 0xFF && y <= 0xFF
    ensures Half(x, y) <= 0xFF && Third(x, y) <= 0xFF && TwoThirds(x, y) <= 0xFF
  {
  }

  /*
   * The interpolants lie between the two channel values they mix. The
   * channels are bytes, so they are stated for zero-extended bytes.
   */

  lemma HalfBetween(x: bv8, y: bv8)
    ensures x <= y ==> x as bv32 <= Half(x as bv32, y as bv32) <= y as bv32
    ensures y < x ==> y as bv32 <= Half(x as bv32, y as bv32) <= x as bv32
  {
  }

  lemma ThirdBetween(x: bv8, y: bv8)
    ensures x <= y ==> x as bv32 <= Third(x as bv32, y as bv32) <= y as bv32
    ensures y < x ==> y as bv32 <= Third(x as bv32, y as bv32) <= x as bv32
  {
    if x <= y {
      ThirdTowardsHigher(x, y);
    } else {
      ThirdTowardsLower(y, x);
    }
  }

  lemma TwoThirdsBetween(x: bv8, y: bv8)
    ensures x <= y ==> x as bv32 <= TwoThirds(x as bv32, y as bv32) <= y as bv32
    ensures y < x ==> y as bv32 <= TwoThirds(x as bv32, y as bv32) <= x as bv32
  {
    if x <= y {
      TwoThirdsTowardsHigher(x, y);
    } else {
      TwoThirdsTowardsLower(y, x);
    }
  }

  lemma ThirdTowardsHigher(lo: bv8, hi: bv8)
    requires lo <= hi
    ensures lo as bv32 <= Third(lo as bv32, hi as bv32) <= hi as bv32
  {
  }

  lemma ThirdTowardsLower(lo: bv8, hi: bv8)
    requires lo <= hi
    ensures lo as bv32 <= Third(hi as bv32, lo as bv32) <= hi as bv32
  {
  }

  lemma TwoThirdsTowardsHigher(lo: bv8, hi: bv8)
    requires lo <= hi
    ensures lo as bv32 <= TwoThirds(lo as bv32, hi as bv32) <= hi as bv32
  {
  }

  lemma TwoThirdsTowardsLower(lo: bv8, hi: bv8)
    requires lo <= hi
    ensures lo as bv32 <= TwoThirds(hi as bv32, lo as bv32) <= hi as bv32
  {
  }

  /**
   * The BC1 palette: both endpoints are opaque and carry their widened
   * channels; with `color1 < color2` entry 2 is the opaque channel-wise
   * average and entry 3 is transparent black, otherwise entries 2 and 3 are
   * the opaque one-third and two-thirds interpolants.
   */
  lemma PaletteEntries(color1: bv32, color2: bv32)
    ensures var p := Palette(color1, color2);
      && p[0] == Opaque(Red8(color1), Green8(color1), Blue8(color1))
      && p[1] == Opaque(Red8(color2), Green8(color2), Blue8(color2))
      && AlphaOf(p[0]) == 0xFF && AlphaOf(p[1]) == 0xFF && AlphaOf(p[2]) == 0xFF
      && RedOf(p[0]) == Red8(color1) && GreenOf(p[0]) == Green8(color1) && BlueOf(p[0]) == Blue8(color1)
      && RedOf(p[1]) == Red8(color2) && GreenOf(p[1]) == Green8(color2) && BlueOf(p[1]) == Blue8(color2)
    ensures color1 < color2 ==>
      var p := Palette(color1, color2);
      && p[3] == 0
      && RedOf(p[2]) == Half(Red8(color1), Red8(color2))
      && GreenOf(p[2]) == Half(Green8(color1), Green8(color2))
      && BlueOf(p[2]) == Half(Blue8(color1), Blue8(color2))
    ensures color2 <= color1 ==>
      var p := Palette(color1, color2);
      && AlphaOf(p[3]) == 0xFF
      && RedOf(p[2]) == Third(Red8(color1), Red8(color2))
      && GreenOf(p[2]) == Third(Green8(color1), Green8(color2))
      && BlueOf(p[2]) == Third(Blue8(color1), Blue8(color2))
      && RedOf(p[3]) == TwoThirds(Red8(color1), Red8(color2))
      && GreenOf(p[3]) == TwoThirds(Green8(color1), Green8(color2))
      && BlueOf(p[3]) == TwoThirds(Blue8(color1), Blue8(color2))
  {
    var r1, g1, b1 := Red8(color1), Green8(color1), Blue8(color1);
    var r2, g2, b2 := Red8(color2), Green8(color2), Blue8(color2);
    WidenedChannels(color1);
    WidenedChannels(color2);
    OpaqueChannels(r1, g1, b1);
    OpaqueChannels(r2, g2, b2);
    InterpolantsFitByte(r1, r2);
    InterpolantsFitByte(g1, g2);
    InterpolantsFitByte(b1, b2);
    if color1 < color2 {
      OpaqueChannels(Half(r1, r2), Half(g1, g2), Half(b1, b2));
    } else {
      OpaqueChannels(Third(r1, r2), Third(g1, g2), Third(b1, b2));
      OpaqueChannels(TwoThirds(r1, r2), TwoThirds(g1, g2), TwoThirds(b1, b2));
    }
  }

  /** A BC1 block's words depend only on its own eight bytes. */
  lemma BC1BlockLocal(b: seq<bv8>, offset: int)
    requires 0 <= offset && offset + 8 <= |b|
    ensures BC1Block(b, offset) == BC1Block(b[offset..offset + 8], 0)
  {
    var s := b[offset..offset + 8];
    assert GetShort(s, 0) == GetShort(b, offset);
    assert GetShort(s, 2) == GetShort(b, offset + 2);
    assert s[4..8] == b[offset + 4..offset + 8];
  }

  /**
   * Transparency in BC1: a texel is transparent black when its block's
   * first endpoint is below the second and its index is 3 ...
   */
  lemma BC1PunchThrough(b: seq<bv8>, offset: int, row: int, col: int)
    requires 0 <= offset && offset + 8 <= |b| && 0 <= row < 4 && 0 <= col < 4
    requires GetShort(b, offset) < GetShort(b, offset + 2) && BC1Index(b[offset + 4 + row], col) == 3
    ensures BC1Block(b, offset)[4 * row + col] == 0
  {
    TexelAt(Palette(GetShort(b, offset), GetShort(b, offset + 2)), b[offset + 4..offset + 8], row, col);
    PaletteAlpha(GetShort(b, offset), GetShort(b, offset + 2), 3);
  }

  /** ... and every other texel is opaque. */
  lemma BC1OpaqueTexel(b: seq<bv8>, offset: int, row: int, col: int)
    requires 0 <= offset && offset + 8 <= |b| && 0 <= row < 4 && 0 <= col < 4
    requires !(GetShort(b, offset) < GetShort(b, offset + 2) && BC1Index(b[offset + 4 + row], col) == 3)
    ensures AlphaOf(BC1Block(b, offset)[4 * row + col]) == 0xFF
  {
    TexelAt(Palette(GetShort(b, offset), GetShort(b, offset + 2)), b[offset + 4..offset + 8], row, col);
    PaletteAlpha(GetShort(b, offset), GetShort(b, offset + 2), BC1Index(b[offset + 4 + row], col));
  }

  /** Palette entry `i` is transparent black when `color1 < color2` and `i` is 3, and opaque otherwise. */
  lemma PaletteAlpha(color1: bv32, color2: bv32, i: Index2)
    ensures color1 < color2 && i == 3 ==> Palette(color1, color2)[i] == 0
    ensures !(color1 < color2 && i == 3) ==> AlphaOf(Palette(color1, color2)[i]) == 0xFF
  {
    PaletteEntries(color1, color2);
  }

  /**
   * The BC2 overlay as written keeps none of the colour: the low 28 bits
   * of every word are zero, and the top four hold the low nibble of the
   * colour word OR-ed with the texel's 4-bit alpha (`NibbleIsShift`).
   * Stated for any colour block; `BC2Block` is this with the BC1 block at
   * `offset + 8`.
   */
  lemma BC2OverlayAsWritten(colour: seq<bv32>, b: seq<bv8>, offset: int, row: int, col: int)
    requires |colour| == 16 && 0 <= offset && offset + 8 <= |b| && 0 <= row < 4 && 0 <= col < 4
    ensures var word := BC2Alpha(colour, b, offset)[4 * row + col];
      && word & 0x0FFF_FFFF == 0
      && word >> 28 == (colour[4 * row + col] & 0xF) | Nibble(GetShort(b, offset + 2 * row), col)
  {
    BC2AlphaAt(colour, b, offset, row, col);
    BC2OverlayBits(colour[4 * row + col], GetShort(b, offset + 2 * row), col);
  }

  lemma BC2OverlayBits(pixel: bv32, rowShort: bv32, col: int)
    requires 0 <= col < 4
    ensures BC2Overlay(pixel, rowShort, col) & 0x0FFF_FFFF == 0
    ensures BC2Overlay(pixel, rowShort, col) >> 28 == (pixel & 0xF) | Nibble(rowShort, col)
  {
  }

  /**
   * The BC3 overlay as written keeps none of the colour: the low 24 bits
   * of every word are zero, and the top byte is the colour's low byte OR-ed
   * with the looked-up alpha.
   */
  lemma BC3OverlayBits(pixel: bv32, alpha: bv32)
    requires alpha <= 0xFF
    ensures BC3Overlay(pixel, alpha) & 0x00FF_FFFF == 0
    ensures BC3Overlay(pixel, alpha) >> 24 == (pixel & 0xFF) | alpha
  {
  }

  /**
   * Every texel of a decoded BC3 block therefore has zero low 24 bits and
   * carries, in its top byte, the low byte of its BC1 colour OR-ed with the
   * table alpha its index selects.
   */
  lemma BC3BlockTexels(b: seq<bv8>, offset: int, k: int)
    requires 0 <= offset && offset + 16 <= |b| && 0 <= k < 16
    ensures var alpha := AlphaTable(UnsignedByte(b[offset]), UnsignedByte(b[offset + 1]));
      && BC3Block(b, offset)[k] & 0x00FF_FFFF == 0
      && BC3Block(b, offset)[k] >> 24 == (BC1Block(b, offset + 8)[k] & 0xFF) | alpha[AlphaIndices(b, offset + 2)[k]]
  {
    var alpha := AlphaTable(UnsignedByte(b[offset]), UnsignedByte(b[offset + 1]));
    AlphaTableBytes(UnsignedByte(b[offset]), UnsignedByte(b[offset + 1]));
    BC3OverlayBits(BC1Block(b, offset + 8)[k], alpha[AlphaIndices(b, offset + 2)[k]]);
  }

  /** Every entry of the alpha table is a byte, so the overlay's OR with it stays in the top byte. */
  lemma AlphaTableBytes(alpha0: bv32, alpha1: bv32)
    requires alpha0 <= 0xFF && alpha1 <= 0xFF
    ensures forall i | 0 <= i < 8 :: AlphaTable(alpha0, alpha1)[i] <= 0xFF
  {
    if alpha0 > alpha1 {
      SixInterpolantsBytes(alpha0, alpha1);
    } else {
      FourInterpolantsBytes(alpha0, alpha1);
    }
  }

  lemma SixInterpolantsBytes(a: bv32, b: bv32)
    requires a <= 0xFF && b <= 0xFF
    ensures forall i | 0 <= i < 8 :: SixInterpolants(a, b)[i] <= 0xFF
  {
    OuterSeventhsFitByte(a, b);
    MiddleSeventhsFitByte(a, b);
    InnerSeventhsFitByte(a, b);
  }

  lemma FourInterpolantsBytes(a: bv32, b: bv32)
    requires a <= 0xFF && b <= 0xFF
    ensures forall i | 0 <= i < 8 :: FourInterpolants(a, b)[i] <= 0xFF
  {
    FifthsFitByte(a, b);
  }

  /*
   * Each lemma bounds the interpolants with one pair of weights, which
   * keeps the divisions in separate proofs.
   */

  lemma OuterSeventhsFitByte(a: bv32, b: bv32)
    requires a <= 0xFF && b <= 0xFF
    ensures a * 6 / 7 + b / 7 <= 0xFF && a / 7 + b * 6 / 7 <= 0xFF
  {
  }

  lemma MiddleSeventhsFitByte(a: bv32, b: bv32)
    requires a <= 0xFF && b <= 0xFF
    ensures a * 5 / 7 + b * 2 / 7 <= 0xFF && a * 2 / 7 + b * 5 / 7 <= 0xFF
  {
  }

  lemma InnerSeventhsFitByte(a: bv32, b: bv32)
    requires a <= 0xFF && b <= 0xFF
    ensures a * 4 / 7 + b * 3 / 7 <= 0xFF && a * 3 / 7 + b * 4 / 7 <= 0xFF
  {
  }

  lemma FifthsFitByte(a: bv32, b: bv32)
    requires a <= 0xFF && b <= 0xFF
    ensures a * 4 / 5 + b / 5 <= 0xFF && a * 3 / 5 + b * 2 / 5 <= 0xFF
    ensures a * 2 / 5 + b * 3 / 5 <= 0xFF && a / 5 + b * 4 / 5 <= 0xFF
  {
  }

  /** The alpha table's two reference values, and the fixed ends of the four-interpolant mode. */
  lemma AlphaTableEnds(alpha0: bv32, alpha1: bv32)
    requires alpha0 <= 0xFF && alpha1 <= 0xFF
    ensures AlphaTable(alpha0, alpha1)[0] == alpha0 && AlphaTable(alpha0, alpha1)[1] == alpha1
    ensures alpha0 <= alpha1 ==> AlphaTable(alpha0, alpha1)[6] == 0 && AlphaTable(alpha0, alpha1)[7] == 255
  {
  }

  /**
   * Dividing each term on its own loses up to one level per term: with
   * reference alphas 2 and 1 the six-interpolant mode yields an alpha of 0
   * for code 5, below both references.
   */
  lemma AlphaTableRoundsEachTerm()
    ensures AlphaTable(2, 1)[5] == 0
  {
  }

  /**
   * The alpha indices as written: each alpha row is one byte, so only the
   * first three indices of a row can be non-zero (the third holds two bits),
   * and indices 3..7 and 11..15 are always 0.
   */
  lemma AlphaIndicesAsWritten(b: seq<bv8>, o: int)
    requires 0 <= o && o + 6 <= |b|
    ensures var bits := AlphaIndices(b, o);
      && bits[0] == (b[o] & 0x07) as bv32 && bits[1] == ((b[o] >> 3) & 0x07) as bv32 && bits[2] == (b[o] >> 6) as bv32
      && bits[8] == (b[o + 3] & 0x07) as bv32 && bits[9] == ((b[o + 3] >> 3) & 0x07) as bv32 && bits[10] == (b[o + 3] >> 6) as bv32
    ensures forall j :: (3 <= j < 8 || 11 <= j < 16) ==> AlphaIndices(b, o)[j] == 0
  {
    forall j | 0 <= j < 16
      ensures AlphaIndices(b, o)[j] == AlphaIndex(if j < 8 then b[o] as bv32 else b[o + 3] as bv32, j % 8)
    {
      AlphaIndicesAt(b, o, j);
    }
    AlphaIndexOfByte(b[o], 0);
    AlphaIndexOfByte(b[o + 3], 0);
    AlphaIndexOfByte(b[o], 1);
    AlphaIndexOfByte(b[o + 3], 1);
    AlphaIndexOfByte(b[o], 2);
    AlphaIndexOfByte(b[o + 3], 2);
    AlphaIndexOfByte(b[o], 3);
    AlphaIndexOfByte(b[o + 3], 3);
    AlphaIndexOfByte(b[o], 4);
    AlphaIndexOfByte(b[o + 3], 4);
    AlphaIndexOfByte(b[o], 5);
    AlphaIndexOfByte(b[o + 3], 5);
    AlphaIndexOfByte(b[o], 6);
    AlphaIndexOfByte(b[o + 3], 6);
    AlphaIndexOfByte(b[o], 7);
    AlphaIndexOfByte(b[o + 3], 7);
  }

  /** Index `j` of a BC3 alpha block is index `j % 8` of the first or the second row's byte. */
  lemma AlphaIndicesAt(b: seq<bv8>, o: int, j: int)
    requires 0 <= o && o + 6 <= |b| && 0 <= j < 16
    ensures AlphaIndices(b, o)[j] == AlphaIndex(if j < 8 then b[o] as bv32 else b[o + 3] as bv32, j % 8)
  {
  }

  /** The 3-bit indices of a one-byte row: two full ones, a two-bit one, then zeros. */
  lemma AlphaIndexOfByte(x: bv8, i: int)
    requires 0 <= i < 8
    ensures i == 0 ==> AlphaIndex(x as bv32, i) == (x & 0x07) as bv32
    ensures i == 1 ==> AlphaIndex(x as bv32, i) == ((x >> 3) & 0x07) as bv32
    ensures i == 2 ==> AlphaIndex(x as bv32, i) == (x >> 6) as bv32
    ensures i >= 3 ==> AlphaIndex(x as bv32, i) == 0
  {
    match i
    case 0 =>
    case 1 =>
    case 2 =>
    case 3 =>
    case 4 =>
    case 5 =>
    case 6 =>
    case 7 =>
  }

  /**
   * So texels 3..7 and 11..15 of a BC3 block always take reference alpha 0
   * (by `AlphaTableEnds`, the byte at `offset`), whatever the index bytes
   * hold; `BC3OverlayBits` says what the overlaid word then holds. Stated
   * for any colour block and alpha table; `BC3Block` is this with the BC1
   * block at `offset + 8` and the table of the bytes at `offset` and
   * `offset + 1`.
   */
  lemma BC3FixedAlphaTexels(colour: seq<bv32>, alpha: seq<bv32>, b: seq<bv8>, offset: int, k: int)
    requires |colour| == 16 && |alpha| == 8 && 0 <= offset && offset + 8 <= |b|
    requires 3 <= k < 8 || 11 <= k < 16
    ensures BC3Alpha(colour, alpha, AlphaIndices(b, offset + 2))[k] == BC3Overlay(colour[k], alpha[0])
  {
    AlphaIndicesAt(b, offset + 2, k);
    AlphaIndexOfByte(if k < 8 then b[offset + 2] else b[offset + 5], k % 8);
  }
}
