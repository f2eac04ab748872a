/**
 * The BC1/BC2/BC3 (DXT1/DXT3/DXT5) block decoders of DXGIBCUtils.kt, after
 * Microsoft's "Block Compression (Direct3D 10)" documentation: each turns
 * an 8- or 16-byte block into the 16 ARGB words of a 4x4 texel block,
 * written row by row into a caller's array.
 *
 * Each decoder is a method writing into `dest`, proved against a function
 * (`BC1Block`, `BC2Block`, `BC3Block`) giving the 16 words it writes. The
 * functions follow the Kotlin expressions as they are written: the named
 * infix operators `and`, `or`, `shl`, `shr` share one precedence level and
 * group to the left, which shapes the BC2 and BC3 alpha overlays and the
 * BC3 index unpacking.
 */
module DXGIBCUtils {
  import opened KotlinInt

  /** Bytes per compressed block. */
  const DXGI_FORMAT_BC1_DXT1_BLOCK_SIZE_BYTES: int := 8
  const DXGI_FORMAT_BC2_DXT3_BLOCK_SIZE_BYTES: int := 16
  const DXGI_FORMAT_BC3_DXT5_BLOCK_SIZE_BYTES: int := 16

  /** The RGB565 channel masks. */
  const RGB_565_RED_MASK: bv32 := 0xF800
  const RGB_565_GREEN_MASK: bv32 := 0x7E0
  const RGB_565_BLUE_MASK: bv32 := 0x1F

  /** A 2-bit BC1 palette index. */
  type Index2 = i: bv32 | i < 4

  /** A 3-bit BC3 alpha index. */
  type Index3 = i: bv32 | i < 8

  /** `-0x1000000`: an opaque alpha byte over black. */
  const OPAQUE: bv32 := 0xFF00_0000

  /** `getShort`: the two bytes at `offset` as a little-endian unsigned 16-bit value. */
  function GetShort(b: seq<bv8>, offset: int): (r: bv32)
    requires 0 <= offset && offset + 2 <= |b|
    ensures r == b[offset] as bv32 | (b[offset + 1] as bv32 << 8)
    ensures r < 0x1_0000
  {
    ((SignExtend(b[offset + 1]) << 8) & 0xFF00) | (SignExtend(b[offset]) & 0xFF)
  }

  /**
   * `c and RGB_565_RED_MASK shr 11` and the like: the 565 fields of an
   * endpoint. The masks leave the sign bit clear, so the arithmetic `shr`
   * is a plain right shift.
   */
  function Red565(c: bv32): bv32 {
    (c & RGB_565_RED_MASK) >> 11
  }

  function Green565(c: bv32): bv32 {
    (c & RGB_565_GREEN_MASK) >> 5
  }

  function Blue565(c: bv32): bv32 {
    c & RGB_565_BLUE_MASK
  }

  /** `(x * 0x100 / 0x20) and 0xFF`: a 5-bit field widened to 8 bits. */
  function Widen5(x: bv32): bv32 {
    (x * 0x100 / 0x20) & 0xFF
  }

  /** `(x * 0x100 / 0x40) and 0xFF`: a 6-bit field widened to 8 bits. */
  function Widen6(x: bv32): bv32 {
    (x * 0x100 / 0x40) & 0xFF
  }

  function Red8(c: bv32): bv32 {
    Widen5(Red565(c))
  }

  function Green8(c: bv32): bv32 {
    Widen6(Green565(c))
  }

  function Blue8(c: bv32): bv32 {
    Widen5(Blue565(c))
  }

  /** An opaque ARGB word from three 8-bit channels. */
  function Opaque(r: bv32, g: bv32, b: bv32): bv32 {
    OPAQUE | (r << 16) | (g << 8) | b
  }

  /** `(x + y) / 2`. */
  function Half(x: bv32, y: bv32): bv32 {
    (x + y) / 2
  }

  /** `(2 * x + y) / 3`: the interpolant one third of the way from `x` to `y`. */
  function Third(x: bv32, y: bv32): bv32 {
    (2 * x + y) / 3
  }

  /** `(x + 2 * y) / 3`: the interpolant two thirds of the way from `x` to `y`. */
  function TwoThirds(x: bv32, y: bv32): bv32 {
    (x + 2 * y) / 3
  }

  /**
   * The four-entry palette of a BC1 block with endpoints `color1` and
   * `color2`: the endpoints, then either their average and transparent
   * black (`color1 < color2`), or the two thirds-interpolants.
   */
  function Palette(color1: bv32, color2: bv32): (colors: seq<bv32>)
    ensures |colors| == 4
  {
    var r1, g1, b1 := Red8(color1), Green8(color1), Blue8(color1);
    var r2, g2, b2 := Red8(color2), Green8(color2), Blue8(color2);
    if color1 < color2 then
      [Opaque(r1, g1, b1), Opaque(r2, g2, b2), Opaque(Half(r1, r2), Half(g1, g2), Half(b1, b2)), 0]
    else
      [Opaque(r1, g1, b1), Opaque(r2, g2, b2),
       Opaque(Third(r1, r2), Third(g1, g2), Third(b1, b2)),
       Opaque(TwoThirds(r1, r2), TwoThirds(g1, g2), TwoThirds(b1, b2))]
  }

  /**
   * `rowByte shr 2 * col and 0x03`: the palette index of texel (`row`,
   * `col`), with the shift count written out for each column.
   * `BC1IndexIsShift` relates it to the single shift expression.
   */
  function BC1Index(rowByte: bv8, col: int): Index2
    requires 0 <= col < 4
  {
    var x := SignExtend(rowByte);
    if col == 0 then x & 0x03
    else if col == 1 then (x >> 2) & 0x03
    else if col == 2 then (x >> 4) & 0x03
    else (x >> 6) & 0x03
  }

  /**
   * The column-by-column form is `rowByte shr 2 * col and 0x03`: Kotlin's
   * `shr` copies the sign bit of the sign-extended byte into the top bits
   * only, so for a count of at most 6 the two bits the mask keeps are those
   * of a plain right shift, and they are bits `2 * col` and `2 * col + 1` of
   * the byte itself.
   */
  lemma BC1IndexIsShift(rowByte: bv8, col: int)
    requires 0 <= col < 4
    ensures BC1Index(rowByte, col) == (SignExtend(rowByte) >> (2 * col)) & 0x03
    ensures BC1Index(rowByte, col) == ((rowByte >> (2 * col)) & 0x03) as bv32
  {
    if col == 0 {
    } else if col == 1 {
    } else if col == 2 {
    } else {
    }
  }

  /**
   * The 16 words `decompressBC1DXT1DataBlock` writes for the block at
   * `b[offset..offset+8]`: texel (row, col) lands at `col + 4 * row`.
   */
  function BC1Block(b: seq<bv8>, offset: int): (block: seq<bv32>)
    requires 0 <= offset && offset + 8 <= |b|
    ensures |block| == 16
  {
    PaletteTexels(Palette(GetShort(b, offset), GetShort(b, offset + 2)), b[offset + 4..offset + 8])
  }

  /** Texel (row, col) of a BC1 block takes the palette entry its 2-bit index in `rows[row]` selects. */
  function PaletteTexels(colors: seq<bv32>, rows: seq<bv8>): (block: seq<bv32>)
    requires |colors| == 4 && |rows| == 4
    ensures |block| == 16
  {
    seq(16, j requires 0 <= j < 16 => colors[(BC1Index(rows[j / 4], j % 4))])
  }

  /**
   * The palette-building half of `decompressBC1DXT1DataBlock`: the 565
   * fields of both endpoints widened to 8 bits, then the four ARGB entries.
   */
  method EndpointColors(color1: bv32, color2: bv32) returns (colors: array<bv32>)
    ensures fresh(colors)
    ensures colors[..] == Palette(color1, color2)
  {
    ghost var palette := Palette(color1, color2);
    var r1 := Red565(color1);
    var g1 := Green565(color1);
    var b1 := Blue565(color1);
    var r2 := Red565(color2);
    var g2 := Green565(color2);
    var b2 := Blue565(color2);
    r1 := Widen5(r1);
    g1 := Widen6(g1);
    b1 := Widen5(b1);
    r2 := Widen5(r2);
    g2 := Widen6(g2);
    b2 := Widen5(b2);
    colors := new bv32[4];
    colors[0] := Opaque(r1, g1, b1);
    colors[1] := Opaque(r2, g2, b2);
    if color1 < color2 {
      colors[2] := Opaque(Half(r1, r2), Half(g1, g2), Half(b1, b2));
      colors[3] := 0;
    } else {
      colors[2] := Opaque(Third(r1, r2), Third(g1, g2), Third(b1, b2));
      colors[3] := Opaque(TwoThirds(r1, r2), TwoThirds(g1, g2), TwoThirds(b1, b2));
    }
    assert colors[..] == palette;
  }

  /** Texel (`row`, `col`) sits at `4 * row + col`. */
  lemma TexelAt(colors: seq<bv32>, rows: seq<bv8>, row: int, col: int)
    requires |colors| == 4 && |rows| == 4 && 0 <= row < 4 && 0 <= col < 4
    ensures PaletteTexels(colors, rows)[row * 4 + col] == colors[(BC1Index(rows[row], col))]
  {
    assert (row * 4 + col) / 4 == row && (row * 4 + col) % 4 == col;
  }

  /** `decompressBC1DXT1DataBlock(dataBlock, offset, dest, destOffset)`. */
  method DecompressBC1DXT1DataBlock(dataBlock: array<bv8>, offset: int, dest: array<bv32>, destOffset: int)
    requires 0 <= offset && offset + 8 <= dataBlock.Length
    requires 0 <= destOffset && destOffset + 16 <= dest.Length
    modifies dest
    ensures dest[destOffset..destOffset + 16] == BC1Block(dataBlock[..], offset)
    ensures forall k :: 0 <= k < dest.Length && !(destOffset <= k < destOffset + 16) ==> dest[k] == old(dest[k])
  {
    var index := offset;
    var color1 := GetShort(dataBlock[..], index);
    index := index + 2;
    var color2 := GetShort(dataBlock[..], index);
    index := index + 2;
    var colors := EndpointColors(color1, color2);
    WriteTexels(colors, dataBlock, index, dest, destOffset);
  }

  /**
   * The pixel loop of `decompressBC1DXT1DataBlock`: one index byte per row
   * from `dataBlock[start..start+4]`, columns from 3 down to 0.
   */
  method WriteTexels(colors: array<bv32>, dataBlock: array<bv8>, start: int, dest: array<bv32>, destOffset: int)
    requires colors.Length == 4 && colors != dest
    requires 0 <= start && start + 4 <= dataBlock.Length
    requires 0 <= destOffset && destOffset + 16 <= dest.Length
    modifies dest
    ensures dest[destOffset..destOffset + 16] == PaletteTexels(colors[..], dataBlock[start..start + 4])
    ensures forall k :: 0 <= k < dest.Length && !(destOffset <= k < destOffset + 16) ==> dest[k] == old(dest[k])
  {
    ghost var rows := dataBlock[start..start + 4];
    ghost var texels := PaletteTexels(colors[..], rows);
    var index := start;
    for row := 0 to 4
      invariant index == start + row
      invariant forall k :: 0 <= k < 4 * row ==> dest[destOffset + k] == texels[k]
      invariant forall k :: 0 <= k < dest.Length && !(destOffset <= k < destOffset + 16) ==> dest[k] == old(dest[k])
    {
      var rowByte := dataBlock[index];
      assert rowByte == rows[row];
      index := index + 1;
      WriteTexelRow(colors, rowByte, dest, destOffset, row);
      forall k | 0 <= k < 4 * (row + 1)
        ensures dest[destOffset + k] == texels[k]
      {
        if 4 * row <= k {
          TexelAt(colors[..], rows, row, k - 4 * row);
        }
      }
    }
  }

  /** The inner loop for row `row`: texel `j` of the row is the palette colour BC1 index `j` of `rowByte` selects. */
  method WriteTexelRow(colors: array<bv32>, rowByte: bv8, dest: array<bv32>, destOffset: int, row: int)
    requires colors.Length == 4 && colors != dest
    requires 0 <= destOffset && destOffset + 16 <= dest.Length && 0 <= row < 4
    modifies dest
    ensures forall k :: destOffset + row * 4 <= k < destOffset + row * 4 + 4 ==>
      dest[k] == colors[BC1Index(rowByte, k - destOffset - row * 4)]
    ensures forall k :: 0 <= k < dest.Length && !(destOffset + row * 4 <= k < destOffset + row * 4 + 4) ==>
      dest[k] == old(dest[k])
  {
    ghost var base := destOffset + row * 4;
    var col := 3;
    while col >= 0
      invariant -1 <= col <= 3
      invariant forall j :: col < j < 4 ==> dest[base + j] == colors[BC1Index(rowByte, j)]
      invariant dest[..base] == old(dest[..base]) && dest[base + 4..] == old(dest[base + 4..])
    {
      dest[destOffset + col + row * 4] := colors[(BC1Index(rowByte, col))];
      col := col - 1;
    }
    forall k | 0 <= k < dest.Length && !(base <= k < base + 4)
      ensures dest[k] == old(dest[k])
    {
      if k < base {
        assert dest[k] == dest[..base][k];
      } else {
        assert dest[k] == dest[base + 4..][k - base - 4];
      }
    }
  }

  /**
   * `rowShort shr 4 * col and 0xF`: the 4-bit alpha of column `col`, with
   * the shift count written out for each column. `rowShort` is a 16-bit
   * value, so its `shr` is a plain right shift (`NibbleIsShift`).
   */
  function Nibble(rowShort: bv32, col: int): bv32
    requires 0 <= col < 4
  {
    if col == 0 then rowShort & 0xF
    else if col == 1 then (rowShort >> 4) & 0xF
    else if col == 2 then (rowShort >> 8) & 0xF
    else (rowShort >> 12) & 0xF
  }

  lemma NibbleIsShift(rowShort: bv32, col: int)
    requires 0 <= col < 4
    ensures Nibble(rowShort, col) == (rowShort >> (4 * col)) & 0xF
  {
    if col == 0 {
    } else if col == 1 {
    } else if col == 2 {
    } else {
    }
  }

  /**
   * `dest[i] and 0x00FFFFFF or (rowShort shr 4 * col and 0xF) shl 28`: read
   * left to right, the 4-bit alpha is OR-ed into the colour and the whole
   * word is then shifted up by 28.
   */
  function BC2Overlay(pixel: bv32, rowShort: bv32, col: int): bv32
    requires 0 <= col < 4
  {
    ((pixel & 0x00FF_FFFF) | Nibble(rowShort, col)) << 28
  }

  /** The 16 words `decompressBC2DXT3DataBlock` writes: BC1 colour from `offset + 8`, overlaid with the alpha rows at `offset`. */
  function BC2Block(b: seq<bv8>, offset: int): (block: seq<bv32>)
    requires 0 <= offset && offset + 16 <= |b|
    ensures |block| == 16
  {
    BC2Alpha(BC1Block(b, offset + 8), b, offset)
  }

  /** Each of the 16 `colour` words overlaid with its 4-bit alpha from the rows at `b[offset..offset+8]`. */
  function BC2Alpha(colour: seq<bv32>, b: seq<bv8>, offset: int): (block: seq<bv32>)
    requires |colour| == 16 && 0 <= offset && offset + 8 <= |b|
    ensures |block| == 16
  {
    seq(16, j requires 0 <= j < 16 => BC2Overlay(colour[j], GetShort(b, offset + j / 4 * 2), j % 4))
  }

  /** Texel (`row`, `col`) of the overlay takes the alpha nibble `col` of row short `row`. */
  lemma BC2AlphaAt(colour: seq<bv32>, b: seq<bv8>, offset: int, row: int, col: int)
    requires |colour| == 16 && 0 <= offset && offset + 8 <= |b| && 0 <= row < 4 && 0 <= col < 4
    ensures BC2Alpha(colour, b, offset)[row * 4 + col]
         == BC2Overlay(colour[row * 4 + col], GetShort(b, offset + row * 2), col)
  {
    assert (row * 4 + col) / 4 == row && (row * 4 + col) % 4 == col;
  }

  /** `decompressBC2DXT3DataBlock(dataBlock, offset, dest, destOffset)`. */
  method DecompressBC2DXT3DataBlock(dataBlock: array<bv8>, offset: int, dest: array<bv32>, destOffset: int)
    requires 0 <= offset && offset + 16 <= dataBlock.Length
    requires 0 <= destOffset && destOffset + 16 <= dest.Length
    modifies dest
    ensures dest[destOffset..destOffset + 16] == BC2Block(dataBlock[..], offset)
    ensures forall k :: 0 <= k < dest.Length && !(destOffset <= k < destOffset + 16) ==> dest[k] == old(dest[k])
  {
    ghost var data := dataBlock[..];
    DecompressBC1DXT1DataBlock(dataBlock, offset + 8, dest, destOffset);
    ghost var colour := dest[destOffset..destOffset + 16];
    assert colour == BC1Block(data, offset + 8);
    OverlayBC2Alpha(dataBlock, offset, dest, destOffset);
    assert dest[destOffset..destOffset + 16] == BC2Alpha(colour, data, offset);
  }

  /** The alpha loop of `decompressBC2DXT3DataBlock`, over the colour words already in `dest`. */
  method OverlayBC2Alpha(dataBlock: array<bv8>, offset: int, dest: array<bv32>, destOffset: int)
    requires 0 <= offset && offset + 8 <= dataBlock.Length
    requires 0 <= destOffset && destOffset + 16 <= dest.Length
    modifies dest
    ensures dest[destOffset..destOffset + 16] == BC2Alpha(old(dest[destOffset..destOffset + 16]), dataBlock[..], offset)
    ensures forall k :: 0 <= k < dest.Length && !(destOffset <= k < destOffset + 16) ==> dest[k] == old(dest[k])
  {
    ghost var colour := dest[destOffset..destOffset + 16];
    ghost var block := BC2Alpha(colour, dataBlock[..], offset);
    for row := 0 to 4
      invariant forall k :: 0 <= k < 16 ==> dest[destOffset + k] == if k < 4 * row then block[k] else colour[k]
      invariant forall k :: 0 <= k < dest.Length && !(destOffset <= k < destOffset + 16) ==> dest[k] == old(dest[k])
    {
      ghost var before := dest[..];
      var rowShort := GetShort(dataBlock[..], offset + row * 2);
      OverlayBC2Row(rowShort, dest, destOffset, row);
      forall k | 0 <= k < 16
        ensures dest[destOffset + k] == if k < 4 * (row + 1) then block[k] else colour[k]
      {
        if 4 * row <= k < 4 * row + 4 {
          BC2AlphaAt(colour, dataBlock[..], offset, row, k - 4 * row);
          assert dest[destOffset + k] == BC2Overlay(before[destOffset + k], rowShort, k - 4 * row);
        }
      }
    }
    assert dest[destOffset..destOffset + 16] == block;
  }

  /** The inner loop for row `row`: texel `j` of the row overlaid with alpha nibble `j` of `rowShort`, from column 3 down to 0. */
  method OverlayBC2Row(rowShort: bv32, dest: array<bv32>, destOffset: int, row: int)
    requires 0 <= destOffset && destOffset + 16 <= dest.Length && 0 <= row < 4
    modifies dest
    ensures forall k :: destOffset + row * 4 <= k < destOffset + row * 4 + 4 ==>
      dest[k] == BC2Overlay(old(dest[k]), rowShort, k - destOffset - row * 4)
    ensures forall k :: 0 <= k < dest.Length && !(destOffset + row * 4 <= k < destOffset + row * 4 + 4) ==>
      dest[k] == old(dest[k])
  {
    ghost var base := destOffset + row * 4;
    ghost var texels := dest[base..base + 4];
    var col := 3;
    while col >= 0
      invariant -1 <= col <= 3
      invariant forall j :: col < j < 4 ==> dest[base + j] == BC2Overlay(texels[j], rowShort, j)
      invariant forall j :: 0 <= j <= col ==> dest[base + j] == texels[j]
      invariant dest[..base] == old(dest[..base]) && dest[base + 4..] == old(dest[base + 4..])
    {
      dest[destOffset + col + row * 4] := BC2Overlay(dest[destOffset + col + row * 4], rowShort, col);
      col := col - 1;
    }
    forall k | 0 <= k < dest.Length && !(base <= k < base + 4)
      ensures dest[k] == old(dest[k])
    {
      if k < base {
        assert dest[k] == dest[..base][k];
      } else {
        assert dest[k] == dest[base + 4..][k - base - 4];
      }
    }
    forall k | base <= k < base + 4
      ensures dest[k] == BC2Overlay(old(dest[k]), rowShort, k - base)
    {
      assert texels[k - base] == old(dest[k]);
    }
  }

  /**
   * The BC3 alpha lookup table for reference alphas `alpha0`, `alpha1`
   * (each 0..255): six interpolants in sevenths when `alpha0 > alpha1`,
   * else four in fifths followed by 0 and 255. Each term is divided on its
   * own, as written.
   */
  function AlphaTable(alpha0: bv32, alpha1: bv32): (alpha: seq<bv32>)
    requires alpha0 <= 0xFF && alpha1 <= 0xFF
    ensures |alpha| == 8
  {
    if alpha0 > alpha1 then SixInterpolants(alpha0, alpha1) else FourInterpolants(alpha0, alpha1)
  }

  /** The eight-alpha mode of `AlphaTable`. */
  function SixInterpolants(alpha0: bv32, alpha1: bv32): (alpha: seq<bv32>)
    ensures |alpha| == 8
  {
    [alpha0, alpha1,
     alpha0 * 6 / 7 + alpha1 / 7,
     alpha0 * 5 / 7 + alpha1 * 2 / 7,
     alpha0 * 4 / 7 + alpha1 * 3 / 7,
     alpha0 * 3 / 7 + alpha1 * 4 / 7,
     alpha0 * 2 / 7 + alpha1 * 5 / 7,
     alpha0 / 7 + alpha1 * 6 / 7]
  }

  /** The six-alpha mode of `AlphaTable`, with fully transparent and fully opaque appended. */
  function FourInterpolants(alpha0: bv32, alpha1: bv32): (alpha: seq<bv32>)
    ensures |alpha| == 8
  {
    [alpha0, alpha1,
     alpha0 * 4 / 5 + alpha1 / 5,
     alpha0 * 3 / 5 + alpha1 * 2 / 5,
     alpha0 * 2 / 5 + alpha1 * 3 / 5,
     alpha0 / 5 + alpha1 * 4 / 5,
     0, 255]
  }

  /**
   * One 24-bit alpha-index row of `convertBC3AlphaSection`, as written:
   * `(d[o+2] shl 16) and 0xFF0000 or (d[o+1] shl 8) and 0x00FF00 or d[o] and 0x0000FF`,
   * grouped to the left. The final mask keeps only the low byte, so the
   * row is the byte at `o` alone (and `shr` on it is a plain right shift).
   */
  function AlphaRow(b: seq<bv8>, o: int): (r: bv32)
    requires 0 <= o && o + 3 <= |b|
    ensures r == b[o] as bv32
  {
    (((((SignExtend(b[o + 2]) << 16) & 0xFF_0000) | (SignExtend(b[o + 1]) << 8)) & 0x00_FF00)
      | SignExtend(b[o])) & 0x00_00FF
  }

  /**
   * `row shr 3 * i and 0x07`: the `i`-th 3-bit alpha index of an alpha
   * row, with the shift count written out for each index (`AlphaIndexIsShift`).
   */
  function AlphaIndex(row: bv32, i: int): Index3
    requires 0 <= i < 8
  {
    match i
    case 0 => row & 0x07
    case 1 => (row >> 3) & 0x07
    case 2 => (row >> 6) & 0x07
    case 3 => (row >> 9) & 0x07
    case 4 => (row >> 12) & 0x07
    case 5 => (row >> 15) & 0x07
    case 6 => (row >> 18) & 0x07
    case _ => (row >> 21) & 0x07
  }

  /** The row is at most 0xFF, so Kotlin's arithmetic `shr` is a plain right shift. */
  lemma AlphaIndexIsShift(row: bv32, i: int)
    requires 0 <= i < 8
    ensures AlphaIndex(row, i) == (row >> (3 * i)) & 0x07
  {
    match i
    case 0 =>
    case 1 =>
    case 2 =>
    case 3 =>
    case 4 =>
    case 5 =>
    case 6 =>
    case 7 =>
  }

  /** The 16 alpha indices `convertBC3AlphaSection(data, o)` returns: those of the row at `o`, then of the row at `o + 3`. */
  function AlphaIndices(b: seq<bv8>, o: int): (bits: seq<Index3>)
    requires 0 <= o && o + 6 <= |b|
    ensures |bits| == 16
  {
    var row1, row2 := AlphaRow(b, o), AlphaRow(b, o + 3);
    seq<Index3>(16, j requires 0 <= j < 16 => RowsIndex(row1, row2, j))
  }

  /** Index `j` of two 8-index rows read one after the other. */
  function RowsIndex(row1: bv32, row2: bv32, j: int): Index3
    requires 0 <= j < 16
  {
    if j < 8 then AlphaIndex(row1, j) else AlphaIndex(row2, j - 8)
  }

  /** `convertBC3AlphaSection(data, offset)`: a fresh array of 16 alpha indices. */
  method ConvertBC3AlphaSection(data: array<bv8>, offset: int) returns (bits: array<Index3>)
    requires 0 <= offset && offset + 6 <= data.Length
    ensures fresh(bits)
    ensures bits[..] == AlphaIndices(data[..], offset)
  {
    ghost var spec := AlphaIndices(data[..], offset);
    var alphaRow1 := AlphaRow(data[..], offset);
    var alphaRow2 := AlphaRow(data[..], offset + 3);
    bits := new Index3[16];
    var index := 7;
    while index >= 0
      invariant -1 <= index <= 7
      invariant forall j :: index < j < 8 ==> bits[j] == spec[j]
      invariant forall j :: index + 8 < j < 16 ==> bits[j] == spec[j]
    {
      bits[index] := AlphaIndex(alphaRow1, index);
      bits[index + 8] := AlphaIndex(alphaRow2, index);
      index := index - 1;
    }
  }

  /**
   * `dest[j] and 0x00FFFFFF or alpha shl 24 and -0x1000000`: read left to
   * right, the alpha is OR-ed into the colour, shifted up by 24 and masked
   * to the top byte.
   */
  function BC3Overlay(pixel: bv32, alpha: bv32): bv32 {
    (((pixel & 0x00FF_FFFF) | alpha) << 24) & 0xFF00_0000
  }

  /** `toInt() and 0xFF`: a byte read as an unsigned value. */
  function UnsignedByte(x: bv8): (r: bv32)
    ensures r == x as bv32 && r <= 0xFF
  {
    SignExtend(x) & 0xFF
  }

  /** The 16 words `decompressBC3DXT5DataBlock` writes: BC1 colour from `offset + 8`, overlaid with looked-up alphas. */
  function BC3Block(b: seq<bv8>, offset: int): (block: seq<bv32>)
    requires 0 <= offset && offset + 16 <= |b|
    ensures |block| == 16
  {
    BC3Alpha(BC1Block(b, offset + 8), AlphaTable(UnsignedByte(b[offset]), UnsignedByte(b[offset + 1])),
             AlphaIndices(b, offset + 2))
  }

  /** Each of the 16 `colour` words overlaid with the table entry its alpha index selects. */
  function BC3Alpha(colour: seq<bv32>, alpha: seq<bv32>, bits: seq<Index3>): (block: seq<bv32>)
    requires |colour| == 16 && |alpha| == 8 && |bits| == 16
    ensures |block| == 16
  {
    seq(16, j requires 0 <= j < 16 => BC3Overlay(colour[j], alpha[bits[j]]))
  }

  /** `decompressBC3DXT5DataBlock(dataBlock, offset, dest, destOffset)`. */
  method DecompressBC3DXT5DataBlock(dataBlock: array<bv8>, offset: int, dest: array<bv32>, destOffset: int)
    requires 0 <= offset && offset + 16 <= dataBlock.Length
    requires 0 <= destOffset && destOffset + 16 <= dest.Length
    modifies dest
    ensures dest[destOffset..destOffset + 16] == BC3Block(dataBlock[..], offset)
    ensures forall k :: 0 <= k < dest.Length && !(destOffset <= k < destOffset + 16) ==> dest[k] == old(dest[k])
  {
    DecompressBC1DXT1DataBlock(dataBlock, offset + 8, dest, destOffset);
    ghost var colour := dest[destOffset..destOffset + 16];
    var index := offset;
    var alpha0 := UnsignedByte(dataBlock[index]);
    index := index + 1;
    var alpha1 := UnsignedByte(dataBlock[index]);
    index := index + 1;
    var alpha := ReferenceAlphas(alpha0, alpha1);
    var bits := ConvertBC3AlphaSection(dataBlock, index);
    OverlayBC3Alpha(alpha, bits, dest, destOffset);
    assert dest[destOffset..destOffset + 16] == BC3Alpha(colour, alpha[..], bits[..]);
  }

  /** The lookup-table half of `decompressBC3DXT5DataBlock`: a fresh array holding `AlphaTable`. */
  method ReferenceAlphas(alpha0: bv32, alpha1: bv32) returns (alpha: array<bv32>)
    requires alpha0 <= 0xFF && alpha1 <= 0xFF
    ensures fresh(alpha)
    ensures alpha[..] == AlphaTable(alpha0, alpha1)
  {
    alpha := new bv32[8];
    alpha[0] := alpha0;
    alpha[1] := alpha1;
    if alpha0 > alpha1 {
      alpha[2] := alpha0 * 6 / 7 + alpha1 / 7;
      alpha[3] := alpha0 * 5 / 7 + alpha1 * 2 / 7;
      alpha[4] := alpha0 * 4 / 7 + alpha1 * 3 / 7;
      alpha[5] := alpha0 * 3 / 7 + alpha1 * 4 / 7;
      alpha[6] := alpha0 * 2 / 7 + alpha1 * 5 / 7;
      alpha[7] := alpha0 / 7 + alpha1 * 6 / 7;
      assert alpha[..] == SixInterpolants(alpha0, alpha1);
    } else {
      alpha[2] := alpha0 * 4 / 5 + alpha1 / 5;
      alpha[3] := alpha0 * 3 / 5 + alpha1 * 2 / 5;
      alpha[4] := alpha0 * 2 / 5 + alpha1 * 3 / 5;
      alpha[5] := alpha0 / 5 + alpha1 * 4 / 5;
      alpha[6] := 0;
      alpha[7] := 255;
      assert alpha[..] == FourInterpolants(alpha0, alpha1);
    }
  }

  /** The final loop of `decompressBC3DXT5DataBlock`, over the colour words already in `dest`. */
  method OverlayBC3Alpha(alpha: array<bv32>, bits: array<Index3>, dest: array<bv32>, destOffset: int)
    requires alpha.Length == 8 && bits.Length == 16 && alpha != dest
    requires 0 <= destOffset && destOffset + 16 <= dest.Length
    modifies dest
    ensures dest[destOffset..destOffset + 16] == BC3Alpha(old(dest[destOffset..destOffset + 16]), alpha[..], bits[..])
    ensures forall k :: 0 <= k < dest.Length && !(destOffset <= k < destOffset + 16) ==> dest[k] == old(dest[k])
  {
    ghost var colour := dest[destOffset..destOffset + 16];
    ghost var block := BC3Alpha(colour, alpha[..], bits[..]);
    for j := 0 to 16
      invariant forall k :: 0 <= k < j ==> dest[destOffset + k] == block[k]
      invariant forall k :: j <= k < 16 ==> dest[destOffset + k] == colour[k]
      invariant forall k :: 0 <= k < dest.Length && !(destOffset <= k < destOffset + 16) ==> dest[k] == old(dest[k])
    {
      dest[destOffset + j] := BC3Overlay(dest[destOffset + j], alpha[bits[j]]);
    }
    assert dest[destOffset..destOffset + 16] == block;
  }
}
