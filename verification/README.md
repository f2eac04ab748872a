# DDS texture reader and line decoders

A model of the core of dds4j, a Kotlin library that reads DirectDraw Surface
(DDS) texture files and decodes them one pixel line at a time.

- **Reading.** A file is read from a `DataInputStream` in this order:
  - the magic word;
  - the 124-byte `DDSHeader`, which embeds the 32-byte `DDSPixelFormat`;
  - the payload, sized from the header.

  Each record checks its own fields with `verify`/`verifyNot` and throws
  `DDSInvalidException` on the first violated rule.
- **Choosing a decoder.** `DDSDecoder.createDecoder` picks the decoder:
  - by the FourCC tag for block-compressed DXT1/DXT3/DXT5 data;
  - by `DDPF_RGB`/`DDPF_ALPHAPIXELS` for raw 32-bit ARGB or 24-bit RGB pixels.
- **Decoding.** Each decoder hands out one line of ARGB ints per call of
  `decodeDataLine`. Only the BC1/DXT1 decoder class is modelled. The BC2 and
  BC3 codecs (`DXGIBCUtils`) are modelled too, but the DXT3 and DXT5
  decoder classes are not.

How the model is built:

- **Records are values.** The pixel format, the header and the container are
  datatypes, because their setters are private and they never change after
  `read`.
- **The stream is a class.** `DataInput.ByteInput` is a byte sequence plus a
  cursor. Every `Read` method is proved equal to a pure parse function on the
  bytes that follow the cursor. That function also gives how far the stream
  advances.
- **The decoders are classes.** Their fields are updated in place, and each
  method is proved against a pure step function over a configuration (what
  `init` fixes) and a state (what changes).
- **The codecs work in place on arrays** and are proved against functions on
  sequences.

How Kotlin `Int` is modelled:

- Bit patterns are `bv32`. Sizes and counts are `int`, wrapped explicitly at
  32 bits (`Wrap32`, `Add32`, `Mul32`).
- Division truncates toward zero (`TDiv`).
- `and`, `or`, `shl` and `shr` share one precedence and group to the left.
- `Byte.toInt()` sign-extends.

How the source differs from its own comments (the model follows the code):

- `DDSHeader.validate` labels its fifth check "dwCaps4 is not empty", but the
  check tests `dwCaps3` again, so `dwCaps4` is never checked
  (`Header.Caps4NeverChecked`).
- BC1 palette indices are taken from the low bits of each row byte upward,
  although the comment speaks of the most significant bits on the left
  (`DXGIBCUtils.BC1IndexIsShift`).
- BC2 alpha: `a and 0x00FFFFFF or n shl 28` groups as
  `((a and 0x00FFFFFF) or n) shl 28`. The texel keeps only a 4-bit value in
  its top nibble and zero below (`DXGIBCLemmas.BC2OverlayAsWritten`).
- BC3 alpha: the overlay likewise shifts the whole `or` left by 24
  (`DXGIBCLemmas.BC3OverlayBits`).
- BC3 alpha indices: each 24-bit index row reduces to its first byte, so
  texels 3-7 and 11-15 always use alpha index 0
  (`DXGIBCUtils.AlphaRow`, `DXGIBCLemmas.AlphaIndicesAsWritten`).
- `read3BytesPixelAsInt` takes blue from the third byte, the same byte as red
  (`RGBDecoder.PackedPixelBytes`).
- `RGBDDSDecoder.decodeDataLine` never increments `curLine`. Its lines succeed
  until the payload runs out (`RGBDecoder.RunsOutOfPayload`).
- A DXT1 surface whose width lies between 1 and 0x1FFFFFFC and is not a
  multiple of 4 fails on its first line with `IndexOutOfBoundsException`,
  because every block's four texels are copied into a line only `dwWidth`
  wide (`DXTDecoder.RaggedWidthFails`). From 0x1FFFFFFD to 0x7FFFFFFC,
  ragged or not, `16 * blockWidth` or `8 * blockWidth` wraps to a negative
  `Int`, so building the decoder throws `NegativeArraySizeException` and no
  line is decoded (`DXTDecoder.WideWidthUnbuildable`). A negative width never yields a
  line: `IntArray(lineWidth)` throws `NegativeArraySizeException` if nothing
  failed before it. From 0x7FFFFFFD up, `lineWidth + 3` wraps, `blockWidth`
  is negative, no block is copied and every line is zeros
  (`DXTDecoder.RunWithoutBlocks`).

## Model

| member | source | states |
|---|---|---|
| KotlinInt.Wrap32 | src/main/kotlin/top/kkoishi/dds/DDSRef.kt:109-111 | the wrapped value is a 32-bit Int congruent to the input modulo 2^32, and in-range values are unchanged |
| KotlinInt.TDiv | src/main/kotlin/top/kkoishi/dds/decode/AbstractDDSDecoder.kt:24 | Int division truncates toward zero for both signs of the dividend |
| KotlinInt.ToInt | src/main/kotlin/top/kkoishi/dds/DDSHeader.kt:121 | a word read as a signed Int lies in the 32-bit range |
| KotlinInt.NumberOfTrailingZeros | src/main/kotlin/top/kkoishi/dds/decode/RGBADDSDecoder.kt:32-35 | the trailing-zero count is at most 32 |
| KotlinInt.TrailingZerosCount | src/main/kotlin/top/kkoishi/dds/decode/RGBADDSDecoder.kt:32-35 | the count is 32 exactly for a zero mask; otherwise the bit at that position is set and every bit below it is clear |
| KotlinInt.ReverseBigEndian | src/main/kotlin/top/kkoishi/dds/DDSHeader.kt:121-137 | `reverseBytes(readInt())` yields the little-endian word of the four bytes read |
| KotlinInt.LittleEndianBytes | src/main/kotlin/top/kkoishi/dds/DDSPixelFormat.kt:72-80 | byte i of the little-endian word is the i-th byte read |
| InternalUtils.BitsToSet | src/main/kotlin/top/kkoishi/dds/InternalUtils.kt:13-21 | the loop over the enum constants returns exactly the constants whose bits meet the word |
| InternalUtils.FlagSetSnoc | src/main/kotlin/top/kkoishi/dds/InternalUtils.kt:16-19 | one more constant adds itself to the set exactly when its bit is set |
| InternalUtils.NoDeclaredBitEmpty | src/main/kotlin/top/kkoishi/dds/InternalUtils.kt:13-21 | a word with none of the declared bits gives the empty set |
| InternalUtils.EmptyFlagSetNoDeclaredBit | src/main/kotlin/top/kkoishi/dds/InternalUtils.kt:13-21 | an empty set comes only from a word with none of the declared bits |
| InternalUtils.FlagSetEmptyIff | src/main/kotlin/top/kkoishi/dds/InternalUtils.kt:13-21 | the set is empty if and only if the word has none of the declared bits |
| InternalUtils.SetToBitsOfFlagSet | src/main/kotlin/top/kkoishi/dds/InternalUtils.kt:13-21 | for single-bit constants, folding the set back to bits yields the word restricted to the declared bits (nothing else is lost) |
| InternalUtils.FlagSetRoundTrip | src/main/kotlin/top/kkoishi/dds/InternalUtils.kt:13-21 | a word made only of declared single bits is recovered exactly from its set |
| InternalUtils.FlagSetMonotone | src/main/kotlin/top/kkoishi/dds/InternalUtils.kt:16-19 | more bits in the word never remove a constant from the set |
| InternalUtils.Verify | src/main/kotlin/top/kkoishi/dds/InternalUtils.kt:24-27 | `verify` fails exactly when the condition is false, with `DDSInvalidException` for its message |
| InternalUtils.VerifyNot | src/main/kotlin/top/kkoishi/dds/InternalUtils.kt:29-32 | `verifyNot` fails exactly when the condition is true, with `DDSInvalidException` for its message |
| DataInput.LeWordAtBytes | src/main/kotlin/top/kkoishi/dds/DDSHeader.kt:121 | the little-endian word read back from the bytes of `w` is `w` (round trip) |
| DataInput.ByteInput.ReadInt | src/main/kotlin/top/kkoishi/dds/DDSHeader.kt:121 | `readInt` returns the big-endian word of the next four bytes and advances by 4; with fewer left it throws `EOFException` and consumes the rest |
| DataInput.ByteInput.ReadLeInt | src/main/kotlin/top/kkoishi/dds/DDSHeader.kt:121-127 | `reverseBytes(readInt())` returns the little-endian word at the cursor and advances by 4; EOF as above |
| DataInput.ByteInput.ReadFully | src/main/kotlin/top/kkoishi/dds/DDSRef.kt:75 | `readFully` fills the array with exactly the next bytes and advances past them; with too few left it throws `EOFException` and consumes the rest |
| DataInput.ReadLeWord | src/main/kotlin/top/kkoishi/dds/DDSPixelFormat.kt:72 | byte-reversing the big-endian word read gives the little-endian word of the same four bytes |
| PixelFormat.Validate | src/main/kotlin/top/kkoishi/dds/DDSPixelFormat.kt:61-68 | passes if and only if `dwSize` is 32 and `dwFlags` is non-empty; the size check fails first |
| PixelFormat.ParsePixelFormat | src/main/kotlin/top/kkoishi/dds/DDSPixelFormat.kt:71-82 | fewer than 32 bytes is EOF; otherwise the result is the decoded record exactly when it validates, else a `DDSInvalidException` |
| PixelFormat.Read | src/main/kotlin/top/kkoishi/dds/DDSPixelFormat.kt:71-82 | reading from the stream returns the parse of the bytes at the cursor and advances by what the parse consumed |
| PixelFormat.ReadFields | src/main/kotlin/top/kkoishi/dds/DDSPixelFormat.kt:72-80 | the eight fields, read in order, form the record decoded from the 32 bytes at the cursor; EOF otherwise |
| PixelFormat.DecodeAt | src/main/kotlin/top/kkoishi/dds/DDSPixelFormat.kt:72-80 | a record whose fields are the little-endian words at offsets 0..28 (the FourCC as its raw bytes) is the decoded record |
| PixelFormat.FlagsAreSingleBits | src/main/kotlin/top/kkoishi/dds/DDSPixelFormat.kt:92-101 | every flag is one bit, and together they declare the bits 0x20247 |
| PixelFormat.DecodeEncodedPixelFormat | src/main/kotlin/top/kkoishi/dds/DDSPixelFormat.kt:71-80 | decoding the little-endian encoding of eight field values gives back those values (round trip) |
| PixelFormat.DX10HeaderOfDecoded | src/main/kotlin/top/kkoishi/dds/DDSPixelFormat.kt:84-86 | a DX10 header is announced exactly when flag bit 0x4 is set and the tag is "DX10" |
| PixelFormat.ValidateNeedsDeclaredFlag | src/main/kotlin/top/kkoishi/dds/DDSPixelFormat.kt:61-68 | a decoded record validates exactly when its size word is 32 and its flag word has a declared bit (undeclared bits alone count as empty) |
| Header.Validate | src/main/kotlin/top/kkoishi/dds/DDSHeader.kt:97-117 | passes if and only if every rule holds, and each failure is the first violated rule in source order, the pixel format's own error included |
| Header.Reserved1 | src/main/kotlin/top/kkoishi/dds/DDSHeader.kt:128-130 | the eleven reserved ints are the little-endian words at offsets 28..68 |
| Header.ParseHeader | src/main/kotlin/top/kkoishi/dds/DDSHeader.kt:120-138 | a short stream is EOF; a parsed header spans 124 bytes, validates, and is the decoding of those bytes; the pixel format's and the header's own errors propagate |
| Header.Read | src/main/kotlin/top/kkoishi/dds/DDSHeader.kt:120-138 | reading returns the parse of the bytes at the cursor and advances by what the parse consumed |
| Header.ReadLeading | src/main/kotlin/top/kkoishi/dds/DDSHeader.kt:121-130 | the first 72 bytes fill the leading fields and reserved ints at their offsets; EOF otherwise |
| Header.ReadWords | src/main/kotlin/top/kkoishi/dds/DDSHeader.kt:121-127 | the seven leading words are read at their offsets; EOF otherwise |
| Header.ReadReserved1 | src/main/kotlin/top/kkoishi/dds/DDSHeader.kt:128-130 | the loop reads eleven words in order into the reserved array; EOF otherwise |
| Header.ReadTrailing | src/main/kotlin/top/kkoishi/dds/DDSHeader.kt:133-137 | the four caps sets and `dwReserved2` are read at offsets 104..120, and nothing else in the header changes; EOF otherwise |
| Header.DecodeHeaderAt | src/main/kotlin/top/kkoishi/dds/DDSHeader.kt:121-137 | the fields read in order make up exactly the decoded header |
| Header.ParseSteps | src/main/kotlin/top/kkoishi/dds/DDSHeader.kt:120-138 | at each point where `read` can stop (inside the leading 72 bytes, on a refused pixel format, inside the last 20 bytes, after `validate`) the parse yields that outcome and the stream has advanced to that point |
| Header.Caps4NeverChecked | src/main/kotlin/top/kkoishi/dds/DDSHeader.kt:108-113 | validation never reports the dwCaps4 error, and neither `dwCaps2` nor `dwCaps4` affects it |
| Header.DimensionsUnconstrained | src/main/kotlin/top/kkoishi/dds/DDSHeader.kt:97-117 | height, width, pitch, depth, mipmap count and reserved ints never affect validation |
| Header.PixelFormatErrorFirst | src/main/kotlin/top/kkoishi/dds/DDSHeader.kt:131-132 | an invalid pixel format aborts the header read with its own error, after 104 bytes |
| Header.PixelFormatOfParsed | src/main/kotlin/top/kkoishi/dds/DDSHeader.kt:131-132 | a parsed header holds the pixel format parsed at offset 72 |
| Header.RequiredFlagsIff | src/main/kotlin/top/kkoishi/dds/DDSHeader.kt:159 | the required flags are present exactly when the flag word has the bits 0x1007 |
| Header.RequiredCapsIff | src/main/kotlin/top/kkoishi/dds/DDSHeader.kt:172 | the required caps are present exactly when the caps word has bit 0x1000 |
| Header.Caps3EmptyIff | src/main/kotlin/top/kkoishi/dds/DDSHeader.kt:176-186 | `dwCaps3` is empty exactly when its word has none of the `DWCaps2` bits 0x207E00 |
| Container.Validate | src/main/kotlin/top/kkoishi/dds/DDSRef.kt:60-65 | passes iff the magic is "DDS " and the header is well formed; a bad magic is reported first |
| Container.CalcBlockSize | src/main/kotlin/top/kkoishi/dds/DDSRef.kt:131-138 | four NUL bytes throw; "DXT1" is 8; every other tag is 16 |
| Container.CalcCompressedDataSize | src/main/kotlin/top/kkoishi/dds/DDSRef.kt:98-116 | without a FourCC the size is `dwPitchOrLinearSize`; with one it fails exactly on the NUL tag, and a computed size is a 32-bit Int |
| Container.CalcDataSize | src/main/kotlin/top/kkoishi/dds/DDSRef.kt:79-96 | with a FourCC it defers to the compressed size; otherwise it always yields a 32-bit Int |
| Container.Read | src/main/kotlin/top/kkoishi/dds/DDSRef.kt:67-77 | reading returns the parse of the bytes at the cursor and advances by what the read consumed, on every error path too |
| Container.ReadBody | src/main/kotlin/top/kkoishi/dds/DDSRef.kt:71-76 | the payload array is sized by the header, filled, and the container is validated; negative sizes and short streams throw |
| Container.MagicBytes | src/main/kotlin/top/kkoishi/dds/DDSRef.kt:16 | the magic word matches exactly when the file starts with the bytes "DDS " |
| Container.ParsedFile | src/main/kotlin/top/kkoishi/dds/DDSRef.kt:67-77 | a parsed file starts with "DDS ", holds the parsed header, and its payload is exactly the bytes the header's size calls for |
| Container.HeaderErrorBeforeMagic | src/main/kotlin/top/kkoishi/dds/DDSRef.kt:68-70 | a header error is thrown before the magic word is ever checked |
| Container.BadMagicRejected | src/main/kotlin/top/kkoishi/dds/DDSRef.kt:61-63 | a file with a valid header and complete payload but wrong magic is rejected with the magic error |
| Container.TruncatedPayload | src/main/kotlin/top/kkoishi/dds/DDSRef.kt:75 | a payload shorter than the header's size throws EOF after consuming the whole stream |
| Container.FinalValidateOnlyChecksMagic | src/main/kotlin/top/kkoishi/dds/DDSRef.kt:60-65 | after the header's own read succeeded, the final validation depends on the magic alone |
| Container.BlocksCoverImage | src/main/kotlin/top/kkoishi/dds/DDSRef.kt:109-110 | the block count is the least number of 4-texel blocks covering the dimension |
| Container.CompressedSizeNoWrap | src/main/kotlin/top/kkoishi/dds/DDSRef.kt:109-111 | when the product fits in an Int, the payload size is blocks wide times blocks high times the block size |
| Container.UncompressedSizeNoWrap | src/main/kotlin/top/kkoishi/dds/DDSRef.kt:80-95 | when the product fits, the payload is width times height times bytes per pixel, or the linear size when `DDSD_LINEARSIZE` is set |
| Container.CompressedSizeExamples | src/main/kotlin/top/kkoishi/dds/DDSRef.kt:103-111 | a 10x10 surface takes 72 bytes as DXT1 and 144 as DXT5, and the NUL tag throws |
| Container.BytesPerPixelCases | src/main/kotlin/top/kkoishi/dds/DDSRef.kt:84-94 | any of luminance/YUV/RGB gives `dwRGBBitCount / 8` bytes; otherwise 1 with `DDPF_ALPHA`, else 0 |
| DXGIBCUtils.GetShort | src/main/kotlin/top/kkoishi/dds/decode/compress/DXGIBCUtils.kt:249-250 | the little-endian unsigned 16-bit value at the offset, always below 0x10000 |
| DXGIBCUtils.BC1IndexIsShift | src/main/kotlin/top/kkoishi/dds/decode/compress/DXGIBCUtils.kt:102-107 | the 2-bit index of column `col` is bits `2*col` of the row byte (low bits first), sign extension notwithstanding |
| DXGIBCUtils.EndpointColors | src/main/kotlin/top/kkoishi/dds/decode/compress/DXGIBCUtils.kt:62-100 | the four palette entries built in the array are the palette of the two endpoint colours |
| DXGIBCUtils.TexelAt | src/main/kotlin/top/kkoishi/dds/decode/compress/DXGIBCUtils.kt:101-108 | texel (row, col) of a block is the palette entry selected by that texel's index bits |
| DXGIBCUtils.DecompressBC1DXT1DataBlock | src/main/kotlin/top/kkoishi/dds/decode/compress/DXGIBCUtils.kt:59-109 | the 16 destination texels become the decoded BC1 block; every other element of `dest` is unchanged |
| DXGIBCUtils.WriteTexels | src/main/kotlin/top/kkoishi/dds/decode/compress/DXGIBCUtils.kt:101-108 | the row loops write the palette texels of the four index bytes into the block's 16 slots and nothing else |
| DXGIBCUtils.WriteTexelRow | src/main/kotlin/top/kkoishi/dds/decode/compress/DXGIBCUtils.kt:106-107 | the column loop sets texel `j` of the row to the palette colour selected by the 2-bit index `j` of the row byte, and touches nothing outside the row |
| DXGIBCUtils.NibbleIsShift | src/main/kotlin/top/kkoishi/dds/decode/compress/DXGIBCUtils.kt:135 | the alpha nibble of column `col` is bits `4*col` of the row's short |
| DXGIBCUtils.BC2AlphaAt | src/main/kotlin/top/kkoishi/dds/decode/compress/DXGIBCUtils.kt:130-137 | texel (row, col) after the alpha pass is the overlay of its colour with the nibble of that row's short |
| DXGIBCUtils.DecompressBC2DXT3DataBlock | src/main/kotlin/top/kkoishi/dds/decode/compress/DXGIBCUtils.kt:126-138 | the 16 texels become the BC1 colours of bytes 8..15 overlaid with the alpha of bytes 0..7; the rest of `dest` is unchanged |
| DXGIBCUtils.OverlayBC2Alpha | src/main/kotlin/top/kkoishi/dds/decode/compress/DXGIBCUtils.kt:130-137 | the alpha loops turn the block's previous texels into their BC2 overlays; the rest of `dest` is unchanged |
| DXGIBCUtils.OverlayBC2Row | src/main/kotlin/top/kkoishi/dds/decode/compress/DXGIBCUtils.kt:132-136 | the column loop overlays texel `j` of the row with alpha nibble `j` of the row short, and touches nothing outside the row |
| DXGIBCUtils.AlphaRow | src/main/kotlin/top/kkoishi/dds/decode/compress/DXGIBCUtils.kt:235-237 | as written, a 3-byte alpha index row evaluates to its first byte alone |
| DXGIBCUtils.AlphaIndexIsShift | src/main/kotlin/top/kkoishi/dds/decode/compress/DXGIBCUtils.kt:243-244 | index i of a row is bits `3*i` of the row |
| DXGIBCUtils.ConvertBC3AlphaSection | src/main/kotlin/top/kkoishi/dds/decode/compress/DXGIBCUtils.kt:233-247 | the returned array holds the 16 alpha indices of the 6-byte section, row 1 in slots 0..7 and row 2 in 8..15 |
| DXGIBCUtils.UnsignedByte | src/main/kotlin/top/kkoishi/dds/decode/compress/DXGIBCUtils.kt:202-203 | `toInt() and 0xFF` is the byte's unsigned value, at most 255 |
| DXGIBCUtils.DecompressBC3DXT5DataBlock | src/main/kotlin/top/kkoishi/dds/decode/compress/DXGIBCUtils.kt:184-231 | the 16 texels become the BC1 colours of bytes 8..15 overlaid with the interpolated alphas; the rest of `dest` is unchanged |
| DXGIBCUtils.ReferenceAlphas | src/main/kotlin/top/kkoishi/dds/decode/compress/DXGIBCUtils.kt:200-222 | the array built is the 8-entry alpha table of the two reference alphas |
| DXGIBCUtils.OverlayBC3Alpha | src/main/kotlin/top/kkoishi/dds/decode/compress/DXGIBCUtils.kt:226-230 | each of the 16 texels becomes its overlay with the table alpha its index picks; the rest of `dest` is unchanged |
| DXGIBCLemmas.WidenedChannels | src/main/kotlin/top/kkoishi/dds/decode/compress/DXGIBCUtils.kt:67-81 | each 5/6-bit 565 channel is widened by a left shift of 3/2 bits, never above 248/252 |
| DXGIBCLemmas.OpaqueChannels | src/main/kotlin/top/kkoishi/dds/decode/compress/DXGIBCUtils.kt:87-88 | a packed endpoint colour has alpha 0xFF and the given red, green and blue bytes |
| DXGIBCLemmas.InterpolantsFitByte | src/main/kotlin/top/kkoishi/dds/decode/compress/DXGIBCUtils.kt:93-99 | the 1/2, 1/3 and 2/3 blends of two bytes are bytes |
| DXGIBCLemmas.HalfBetween | src/main/kotlin/top/kkoishi/dds/decode/compress/DXGIBCUtils.kt:93 | the half-way blend lies between its two endpoints |
| DXGIBCLemmas.ThirdBetween | src/main/kotlin/top/kkoishi/dds/decode/compress/DXGIBCUtils.kt:98 | the (2a+b)/3 blend lies between its two endpoints |
| DXGIBCLemmas.TwoThirdsBetween | src/main/kotlin/top/kkoishi/dds/decode/compress/DXGIBCUtils.kt:99 | the (a+2b)/3 blend lies between its two endpoints |
| DXGIBCLemmas.ThirdTowardsHigher | src/main/kotlin/top/kkoishi/dds/decode/compress/DXGIBCUtils.kt:98 | with the lower endpoint first, the blend stays in range |
| DXGIBCLemmas.ThirdTowardsLower | src/main/kotlin/top/kkoishi/dds/decode/compress/DXGIBCUtils.kt:98 | with the higher endpoint first, the blend stays in range |
| DXGIBCLemmas.TwoThirdsTowardsHigher | src/main/kotlin/top/kkoishi/dds/decode/compress/DXGIBCUtils.kt:99 | with the lower endpoint first, the blend stays in range |
| DXGIBCLemmas.TwoThirdsTowardsLower | src/main/kotlin/top/kkoishi/dds/decode/compress/DXGIBCUtils.kt:99 | with the higher endpoint first, the blend stays in range |
| DXGIBCLemmas.PaletteEntries | src/main/kotlin/top/kkoishi/dds/decode/compress/DXGIBCUtils.kt:86-100 | entries 0 and 1 are the opaque endpoints; if color1 < color2, entry 2 is their channel-wise average and entry 3 is transparent black; otherwise entries 2 and 3 are the opaque 1/3 and 2/3 blends |
| DXGIBCLemmas.BC1BlockLocal | src/main/kotlin/top/kkoishi/dds/decode/compress/DXGIBCUtils.kt:59-109 | a block decodes from its own 8 bytes only, wherever it sits |
| DXGIBCLemmas.BC1PunchThrough | src/main/kotlin/top/kkoishi/dds/decode/compress/DXGIBCUtils.kt:89-94 | in three-colour mode, index 3 decodes to the all-zero (transparent) texel |
| DXGIBCLemmas.BC1OpaqueTexel | src/main/kotlin/top/kkoishi/dds/decode/compress/DXGIBCUtils.kt:87-107 | every other BC1 texel is fully opaque |
| DXGIBCLemmas.PaletteAlpha | src/main/kotlin/top/kkoishi/dds/decode/compress/DXGIBCUtils.kt:86-100 | a palette entry is zero exactly in the punch-through slot and opaque otherwise |
| DXGIBCLemmas.BC2OverlayAsWritten | src/main/kotlin/top/kkoishi/dds/decode/compress/DXGIBCUtils.kt:134-135 | as written, a BC2 texel keeps only a nibble (colour low nibble or alpha nibble) in bits 28..31, all other bits zero |
| DXGIBCLemmas.BC2OverlayBits | src/main/kotlin/top/kkoishi/dds/decode/compress/DXGIBCUtils.kt:134-135 | the overlay of one pixel is that nibble shifted to the top, with the low 28 bits cleared |
| DXGIBCLemmas.BC3OverlayBits | src/main/kotlin/top/kkoishi/dds/decode/compress/DXGIBCUtils.kt:229 | as written, a BC3 texel keeps (blue byte or alpha) in its top byte and zero below |
| DXGIBCLemmas.BC3BlockTexels | src/main/kotlin/top/kkoishi/dds/decode/compress/DXGIBCUtils.kt:184-231 | every texel of a decoded BC3 block has zero low 24 bits, and its top byte is the low byte of its BC1 colour or-ed with the table alpha its index picks |
| DXGIBCLemmas.AlphaTableEnds | src/main/kotlin/top/kkoishi/dds/decode/compress/DXGIBCUtils.kt:204-221 | entries 0 and 1 are the reference alphas; in the 4-interpolant mode entries 6 and 7 are 0 and 255 |
| DXGIBCLemmas.AlphaTableBytes | src/main/kotlin/top/kkoishi/dds/decode/compress/DXGIBCUtils.kt:204-221 | every entry of the alpha table, in either mode, is a byte (0..255) |
| DXGIBCLemmas.AlphaTableRoundsEachTerm | src/main/kotlin/top/kkoishi/dds/decode/compress/DXGIBCUtils.kt:211 | each term is truncated separately: alphas 2 and 1 give 0 in slot 5, below both references |
| DXGIBCLemmas.AlphaIndicesAsWritten | src/main/kotlin/top/kkoishi/dds/decode/compress/DXGIBCUtils.kt:235-245 | indices 0..2 and 8..10 come from the first byte of each row; indices 3..7 and 11..15 are always 0 |
| DXGIBCLemmas.AlphaIndicesAt | src/main/kotlin/top/kkoishi/dds/decode/compress/DXGIBCUtils.kt:242-244 | index j is 3-bit group `j % 8` of the first byte of its row |
| DXGIBCLemmas.AlphaIndexOfByte | src/main/kotlin/top/kkoishi/dds/decode/compress/DXGIBCUtils.kt:243 | the groups of one byte are its bits 0-2, 3-5 and 6-7; higher groups are 0 |
| DXGIBCLemmas.BC3FixedAlphaTexels | src/main/kotlin/top/kkoishi/dds/decode/compress/DXGIBCUtils.kt:226-230 | texels 3-7 and 11-15 always take the first reference alpha |
| LineDecoder.ConfigOf | src/main/kotlin/top/kkoishi/dds/decode/AbstractDDSDecoder.kt:20-28 | `maxLine`, `lineWidth` and the payload come from the header, and `lineByteSize` is a 32-bit Int |
| LineDecoder.InitialState | src/main/kotlin/top/kkoishi/dds/decode/AbstractDDSDecoder.kt:12-28 | a fresh decoder is at line 0, position 0, with a valid cache |
| LineDecoder.Ints | src/main/kotlin/top/kkoishi/dds/decode/AbstractDDSDecoder.kt:27 | an int view of the line cache holds exactly the requested number of ints |
| LineDecoder.Channel | src/main/kotlin/top/kkoishi/dds/decode/RGBADDSDecoder.kt:52-55 | a masked, shifted channel is always one byte |
| LineDecoder.LoadNextLineSpec | src/main/kotlin/top/kkoishi/dds/decode/AbstractDDSDecoder.kt:33-39 | a load succeeds exactly when the next `lineByteSize` bytes are in the payload, copies them, advances `pos` and rewinds both views; otherwise it throws and leaves `pos` |
| LineDecoder.ZeroMaskChannel | src/main/kotlin/top/kkoishi/dds/decode/RGBADDSDecoder.kt:52-55 | a zero mask yields a zero channel |
| LineDecoder.ByteMaskChannels | src/main/kotlin/top/kkoishi/dds/decode/RGBADDSDecoder.kt:52-55 | byte-aligned masks extract exactly the corresponding byte |
| LineDecoder.StandardShifts | src/main/kotlin/top/kkoishi/dds/decode/RGBADDSDecoder.kt:32-35 | the shifts of the standard masks are 0, 8, 16 and 24 |
| LineDecoder.LineCursor.constructor | src/main/kotlin/top/kkoishi/dds/decode/AbstractDDSDecoder.kt:20-28 | a new cursor has the given configuration, the initial state and a fresh cache |
| LineDecoder.LineCursor.Create | src/main/kotlin/top/kkoishi/dds/decode/AbstractDDSDecoder.kt:24-25 | construction throws `IllegalArgumentException` exactly when `lineByteSize` is negative |
| LineDecoder.LineCursor.LoadNextLine | src/main/kotlin/top/kkoishi/dds/decode/AbstractDDSDecoder.kt:33-39 | the method's outcome and new state are the load step's |
| LineDecoder.LineCursor.GetInt | src/main/kotlin/top/kkoishi/dds/decode/RGBADDSDecoder.kt:48 | `get()` returns the next little-endian int of the cache and advances the view, or underflows and changes nothing |
| LineDecoder.LineCursor.GetInts | src/main/kotlin/top/kkoishi/dds/decode/RGBADDSDecoder.kt:44 | a bulk `get(line)` fills the array with the next ints and advances; with too few remaining it throws and changes nothing, the array included |
| LineDecoder.LineCursor.GetBytes | src/main/kotlin/top/kkoishi/dds/decode/RGBDDSDecoder.kt:64 | `get(pixel)` fills the array with the next bytes and advances; with too few remaining it throws and changes nothing |
| RGBADecoder.ConvertRow | src/main/kotlin/top/kkoishi/dds/decode/RGBADDSDecoder.kt:47-56 | the conversion path yields one texel per int |
| RGBADecoder.DecodeRow | src/main/kotlin/top/kkoishi/dds/decode/RGBADDSDecoder.kt:43-56 | a decoded line has one texel per int, whichever path is taken |
| RGBADecoder.DecodeStep | src/main/kotlin/top/kkoishi/dds/decode/RGBADDSDecoder.kt:38-60 | a call keeps the state valid, and a line it returns is `lineWidth` texels long |
| RGBADecoder.Run | src/main/kotlin/top/kkoishi/dds/decode/AbstractDDSDecoder.kt:54-58 | n calls give n results and a valid state |
| RGBADecoder.Exhausted | src/main/kotlin/top/kkoishi/dds/decode/RGBADDSDecoder.kt:39-40 | past the last line a call throws `NoSuchElementException` and changes nothing |
| RGBADecoder.DecodeStepOk | src/main/kotlin/top/kkoishi/dds/decode/RGBADDSDecoder.kt:38-60 | a call succeeds exactly when a line is left, its bytes are in the payload and it holds `lineWidth` ints; then the line is the decoded row and `curLine` and `pos` advance, else `curLine` stays |
| RGBADecoder.CopyIsConversion | src/main/kotlin/top/kkoishi/dds/decode/RGBADDSDecoder.kt:28-31 | with the ARGB masks the shift-free copy and the conversion agree, so `skipShifting` is only a shortcut |
| RGBADecoder.ShiftedPixelChannels | src/main/kotlin/top/kkoishi/dds/decode/RGBADDSDecoder.kt:52-55 | bytes 3, 2, 1 and 0 of a converted texel are the alpha, red, green and blue channels of the pixel |
| RGBADecoder.PackedBytes | src/main/kotlin/top/kkoishi/dds/decode/RGBADDSDecoder.kt:52-55 | packing four bytes as ARGB can be undone byte by byte |
| RGBADecoder.ZeroAlphaMask | src/main/kotlin/top/kkoishi/dds/decode/RGBADDSDecoder.kt:52 | with a zero alpha mask the converted texel has alpha 0 |
| RGBADecoder.RunDecodesRows | src/main/kotlin/top/kkoishi/dds/decode/RGBADDSDecoder.kt:38-60 | over a complete payload, consecutive calls return rows k, k+1, … in order, each the decoding of its own bytes |
| RGBADecoder.AllLinesDecode | src/main/kotlin/top/kkoishi/dds/decode/AbstractDDSDecoder.kt:55 | over a complete payload, the iterator yields every row in order and then reports no next line, and one more call throws |
| RGBADecoder.RGBADDSDecoder.constructor | src/main/kotlin/top/kkoishi/dds/decode/RGBADDSDecoder.kt:19-36 | the decoder keeps the pixel format's masks over the given cursor |
| RGBADecoder.RGBADDSDecoder.Create | src/main/kotlin/top/kkoishi/dds/decode/RGBADDSDecoder.kt:19-36 | construction throws exactly when the line byte size is negative; otherwise a fresh decoder in the initial state |
| RGBADecoder.RGBADDSDecoder.DecodeDataLine | src/main/kotlin/top/kkoishi/dds/decode/RGBADDSDecoder.kt:38-60 | the result and new state are those of the decode step |
| RGBADecoder.RGBADDSDecoder.ConvertLine | src/main/kotlin/top/kkoishi/dds/decode/RGBADDSDecoder.kt:46-56 | the conversion loop fills the line with the converted ints, or underflows after reading every int the view has |
| RGBDecoder.CopyRow | src/main/kotlin/top/kkoishi/dds/decode/RGBDDSDecoder.kt:48-50 | the copy path yields one texel per 3-byte pixel |
| RGBDecoder.ConvertRow | src/main/kotlin/top/kkoishi/dds/decode/RGBDDSDecoder.kt:52-58 | the conversion path yields one texel per 3-byte pixel |
| RGBDecoder.DecodeRow | src/main/kotlin/top/kkoishi/dds/decode/RGBDDSDecoder.kt:47-58 | a decoded line has one texel per pixel, whichever path is taken |
| RGBDecoder.DecodeStep | src/main/kotlin/top/kkoishi/dds/decode/RGBDDSDecoder.kt:40-61 | a call keeps the state valid, and a line it returns is `lineWidth` texels long |
| RGBDecoder.Run | src/main/kotlin/top/kkoishi/dds/decode/AbstractDDSDecoder.kt:54-58 | n calls give n results and a valid state |
| RGBDecoder.DecodeStepOk | src/main/kotlin/top/kkoishi/dds/decode/RGBDDSDecoder.kt:40-61 | a call succeeds exactly when a line is left, its bytes are in the payload, the bit count is 24 and the row holds `lineWidth` pixels; `curLine` never changes |
| RGBDecoder.DecodeStepRow | src/main/kotlin/top/kkoishi/dds/decode/RGBDDSDecoder.kt:43-58 | a returned line is the decoding of the next `lineByteSize` bytes, and `pos` moves past them |
| RGBDecoder.UnsupportedAfterLoad | src/main/kotlin/top/kkoishi/dds/decode/RGBDDSDecoder.kt:43-46 | a bit count other than 24 throws, but only after the line was loaded and `pos` advanced |
| RGBDecoder.PackedPixelBytes | src/main/kotlin/top/kkoishi/dds/decode/RGBDDSDecoder.kt:63-69 | a packed pixel is opaque, with red from the third byte, green from the second and blue from the third again |
| RGBDecoder.ByteOfSignExtend | src/main/kotlin/top/kkoishi/dds/decode/RGBDDSDecoder.kt:66-68 | `toInt() and 0xFF` undoes the sign extension of a byte |
| RGBDecoder.FirstByteIgnored | src/main/kotlin/top/kkoishi/dds/decode/RGBDDSDecoder.kt:63-69 | the first byte of a pixel never affects the packed value |
| RGBDecoder.ConvertedAlpha | src/main/kotlin/top/kkoishi/dds/decode/RGBDDSDecoder.kt:55-57 | the conversion path drops alpha, so its texels are fully transparent |
| RGBDecoder.CopyIsOpaqueConversion | src/main/kotlin/top/kkoishi/dds/decode/RGBDDSDecoder.kt:32-34 | with the RGB masks, the conversion equals the copy with its alpha byte cleared, so the two paths differ only in alpha |
| RGBDecoder.RunKeepsLine | src/main/kotlin/top/kkoishi/dds/decode/RGBDDSDecoder.kt:40-61 | while the payload lasts every call succeeds, `curLine` stays, and `pos` advances one line per call |
| RGBDecoder.RunSnoc | src/main/kotlin/top/kkoishi/dds/decode/AbstractDDSDecoder.kt:54-58 | n+1 calls are n calls followed by one more |
| RGBDecoder.RunsOutOfPayload | src/main/kotlin/top/kkoishi/dds/decode/AbstractDDSDecoder.kt:33-39 | the iterator never ends on its own: after the payload's whole lines it still reports a next line, and the next call throws `IndexOutOfBoundsException` |
| RGBDecoder.RGBDDSDecoder.constructor | src/main/kotlin/top/kkoishi/dds/decode/RGBDDSDecoder.kt:24-38 | the decoder keeps the pixel format's masks and bit count over the given cursor |
| RGBDecoder.RGBDDSDecoder.Create | src/main/kotlin/top/kkoishi/dds/decode/RGBDDSDecoder.kt:24-38 | construction throws exactly when the line byte size is negative; otherwise a fresh decoder in the initial state |
| RGBDecoder.RGBDDSDecoder.DecodeDataLine | src/main/kotlin/top/kkoishi/dds/decode/RGBDDSDecoder.kt:40-61 | the result and new state are those of the decode step |
| RGBDecoder.RGBDDSDecoder.Read3BytesPixelAsInt | src/main/kotlin/top/kkoishi/dds/decode/RGBDDSDecoder.kt:63-69 | returns the packed pixel at the cursor and advances 3 bytes, or underflows and changes nothing |
| RGBDecoder.RGBDDSDecoder.CopyPixels | src/main/kotlin/top/kkoishi/dds/decode/RGBDDSDecoder.kt:48-50 | fills the line with the packed pixels, or underflows after consuming every whole pixel the line holds |
| RGBDecoder.RGBDDSDecoder.ConvertPixels | src/main/kotlin/top/kkoishi/dds/decode/RGBDDSDecoder.kt:52-58 | fills the line with the converted pixels, or underflows after consuming every whole pixel the line holds |
| DXTDecoder.ConfigOf | src/main/kotlin/top/kkoishi/dds/decode/compress/AbstractDXTDDSDecoder.kt:70-79 | `maxLine`, `lineWidth` and the payload come from the header; block counts and array lengths are computed with 32-bit wrapping |
| DXTDecoder.InitialState | src/main/kotlin/top/kkoishi/dds/decode/compress/AbstractDXTDDSDecoder.kt:70-79 | a fresh decoder is at line 0, block 0, position 0, with arrays of the configured lengths |
| DXTDecoder.LoadNextBlocksLineStep | src/main/kotlin/top/kkoishi/dds/decode/compress/AbstractDXTDDSDecoder.kt:86-90 | loading keeps the state valid (the copy, `pos` and `curBlock` are stated by `LoadsEveryFourthLine`) |
| DXTDecoder.BC1Blocks | src/main/kotlin/top/kkoishi/dds/decode/compress/DXT1DDSDecoder.kt:18-19 | a row of n blocks decodes to n blocks of 16 texels |
| DXTDecoder.DecodeBlockRow | src/main/kotlin/top/kkoishi/dds/decode/compress/DXT1DDSDecoder.kt:18-19 | the decoded row holds 16 texels per block |
| DXTDecoder.DecodeBlockRowAt | src/main/kotlin/top/kkoishi/dds/decode/compress/DXT1DDSDecoder.kt:18-19 | texel j of block i in the cache is texel j of the BC1 decoding of bytes 8i..8i+7 |
| DXTDecoder.DecodeBlockRowSnoc | src/main/kotlin/top/kkoishi/dds/decode/compress/DXT1DDSDecoder.kt:18-19 | decoding one more block appends its 16 texels |
| DXTDecoder.CopyRow | src/main/kotlin/top/kkoishi/dds/decode/compress/DXT1DDSDecoder.kt:25-29 | a line copied from n blocks holds four texels per block |
| DXTDecoder.CopyRowAt | src/main/kotlin/top/kkoishi/dds/decode/compress/DXT1DDSDecoder.kt:25-29 | texel 4i+k of the line is texel (sub, k) of block i |
| DXTDecoder.DecodeStep | src/main/kotlin/top/kkoishi/dds/decode/compress/DXT1DDSDecoder.kt:12-32 | a call keeps the state valid, and a line it returns is `lineWidth` texels long |
| DXTDecoder.Run | src/main/kotlin/top/kkoishi/dds/decode/compress/AbstractDXTDDSDecoder.kt:105-109 | n calls give n results and a valid state |
| DXTDecoder.ConfigGeometry | src/main/kotlin/top/kkoishi/dds/decode/compress/AbstractDXTDDSDecoder.kt:74-78 | when neither array length is negative, the lengths are the unwrapped `8*blockWidth` and `16*blockWidth` |
| DXTDecoder.Exhausted | src/main/kotlin/top/kkoishi/dds/decode/compress/DXT1DDSDecoder.kt:13-14 | past the last line a call throws `NoSuchElementException` and changes nothing |
| DXTDecoder.DecodeStepOk | src/main/kotlin/top/kkoishi/dds/decode/compress/DXT1DDSDecoder.kt:12-32 | a call succeeds exactly when a line is left, the block row it needs is in the payload and the blocks fit the line; only then does `curLine` advance |
| DXTDecoder.LoadsEveryFourthLine | src/main/kotlin/top/kkoishi/dds/decode/compress/DXT1DDSDecoder.kt:15-20 | only lines 0, 4, 8, … load a block row (copying the next `blockBytes`, advancing `pos` and `curBlock`); other lines leave the caches and counters alone |
| DXTDecoder.StepCopiesDecodedRow | src/main/kotlin/top/kkoishi/dds/decode/compress/DXT1DDSDecoder.kt:15-29 | after a successful call the cache holds the decoded block row, and the line is row `curLine % 4` of every block, then zeros |
| DXTDecoder.LineTexels | src/main/kotlin/top/kkoishi/dds/decode/compress/DXT1DDSDecoder.kt:15-29 | texel 4i+k of a returned line is texel (curLine % 4, k) of the BC1 decoding of block i of the loaded row |
| DXTDecoder.RowTexel | src/main/kotlin/top/kkoishi/dds/decode/compress/DXT1DDSDecoder.kt:25-29 | the copied, zero-padded row picks each block's texels in place |
| DXTDecoder.OverrunAfterLoad | src/main/kotlin/top/kkoishi/dds/decode/compress/DXT1DDSDecoder.kt:16-29 | when the blocks overflow the line, the call throws after loading: `pos` and `curBlock` advance but `curLine` does not |
| DXTDecoder.RaggedWidth | src/main/kotlin/top/kkoishi/dds/decode/compress/AbstractDXTDDSDecoder.kt:75 | a width that is not a multiple of 4 is narrower than its blocks |
| DXTDecoder.WideWidthUnbuildable | src/main/kotlin/top/kkoishi/dds/decode/compress/AbstractDXTDDSDecoder.kt:75-78 | for widths 0x1FFFFFFD..0x7FFFFFFC one of the two wrapped cache lengths is negative, so the decoder cannot be built |
| DXTDecoder.RaggedWidthFails | src/main/kotlin/top/kkoishi/dds/decode/compress/DXT1DDSDecoder.kt:21-29 | for such a width, decoding a block row's first line always throws `IndexOutOfBoundsException` |
| DXTDecoder.WholeBlocks | src/main/kotlin/top/kkoishi/dds/decode/compress/AbstractDXTDDSDecoder.kt:75 | the blocks fit in the line exactly when the width is a multiple of 4 |
| DXTDecoder.StepKeepsSynced | src/main/kotlin/top/kkoishi/dds/decode/compress/DXT1DDSDecoder.kt:15-30 | a successful call keeps `pos` and `curBlock` in step with the number of block rows loaded |
| DXTDecoder.SyncedAdvance | src/main/kotlin/top/kkoishi/dds/decode/compress/DXT1DDSDecoder.kt:15-30 | advancing one line keeps `pos` and `curBlock` in step exactly when a block row is loaded on the lines that start one |
| DXTDecoder.RunSucceeds | src/main/kotlin/top/kkoishi/dds/decode/compress/DXT1DDSDecoder.kt:12-32 | over a payload that holds every block row and a width of whole blocks, n calls all succeed and keep the counters in step |
| DXTDecoder.StepSucceeds | src/main/kotlin/top/kkoishi/dds/decode/compress/DXT1DDSDecoder.kt:12-32 | from a synced cursor over a payload that holds every block row, with a width of whole blocks, one call succeeds, moves to the next line and stays synced |
| DXTDecoder.StepDecodesBlockRow | src/main/kotlin/top/kkoishi/dds/decode/compress/DXT1DDSDecoder.kt:12-32 | from a synced cursor whose caches hold the current block row, a call returns line `curLine`: row `curLine % 4` of the decoded block row `curLine / 4`, padded with zeros |
| DXTDecoder.StepKeepsRow | src/main/kotlin/top/kkoishi/dds/decode/compress/DXT1DDSDecoder.kt:15-30 | that call succeeds, moves to the next line, stays synced, and leaves the caches holding block row `curLine / 4` and its decoding |
| DXTDecoder.CachedRowAdvance | src/main/kotlin/top/kkoishi/dds/decode/compress/DXT1DDSDecoder.kt:15-20 | the row a call loads on lines 0, 4, 8, … (or keeps on the others) is block row `curLine / 4`, and it stays cached for the next line unless that line starts a new row |
| DXTDecoder.RunLineAt | src/main/kotlin/top/kkoishi/dds/decode/compress/DXT1DDSDecoder.kt:12-32 | over a payload that holds every block row and a width of whole blocks, the calls return lines `curLine`, `curLine + 1`, … in order, line k decoded from block row k / 4 |
| DXTDecoder.RunWithoutBlocks | src/main/kotlin/top/kkoishi/dds/decode/compress/DXT1DDSDecoder.kt:21-29 | when `blockWidth` is not positive the copy loop never runs, so every line a run returns is `lineWidth` zeros |
| DXTDecoder.AllLinesDecode | src/main/kotlin/top/kkoishi/dds/decode/compress/AbstractDXTDDSDecoder.kt:106 | the iterator then yields every line and stops, and one more call throws; line i is row i % 4 of the BC1 decoding of block row i / 4 of the payload, padded with zeros, or all zeros when a row has no block |
| DXTDecoder.PayloadHoldsBlockRows | src/main/kotlin/top/kkoishi/dds/DDSRef.kt:109-111 | the payload the container reads for a DXT1 surface is exactly `maxBlock` block rows of `blockBytes` |
| DXTDecoder.DXT1DDSDecoder.constructor | src/main/kotlin/top/kkoishi/dds/decode/compress/AbstractDXTDDSDecoder.kt:70-79 | a new decoder has the given configuration, the initial state and fresh arrays |
| DXTDecoder.DXT1DDSDecoder.Create | src/main/kotlin/top/kkoishi/dds/decode/compress/AbstractDXTDDSDecoder.kt:76-78 | construction throws `NegativeArraySizeException` exactly when a wrapped array length is negative |
| DXTDecoder.DXT1DDSDecoder.DecodeDataLine | src/main/kotlin/top/kkoishi/dds/decode/compress/DXT1DDSDecoder.kt:12-32 | the result and new state are those of the decode step |
| DXTDecoder.DXT1DDSDecoder.LoadNextBlocksLine | src/main/kotlin/top/kkoishi/dds/decode/compress/AbstractDXTDDSDecoder.kt:86-90 | the outcome and new state are those of the load step |
| DXTDecoder.DXT1DDSDecoder.DecodeBlocksLine | src/main/kotlin/top/kkoishi/dds/decode/compress/DXT1DDSDecoder.kt:18-19 | the block loop leaves the cache holding the decoded block row |
| DXTDecoder.DXT1DDSDecoder.DecodeBlockAt | src/main/kotlin/top/kkoishi/dds/decode/compress/DXT1DDSDecoder.kt:19 | one pass of the block loop extends the decoded prefix of the cache by the BC1 decoding of the next block |
| DXTDecoder.DXT1DDSDecoder.CopyFour | src/main/kotlin/top/kkoishi/dds/decode/compress/DXT1DDSDecoder.kt:27 | `arraycopy` of four texels writes exactly those four slots |
| DXTDecoder.DXT1DDSDecoder.CopyBlockRows | src/main/kotlin/top/kkoishi/dds/decode/compress/DXT1DDSDecoder.kt:25-29 | the copy loop fills the line with row `subLine` of every block and leaves the rest zero; it throws when the blocks overflow the line |
| DXTDecoder.DXT1DDSDecoder.CopyBlockAt | src/main/kotlin/top/kkoishi/dds/decode/compress/DXT1DDSDecoder.kt:27-28 | one pass of the copy loop extends the copied prefix of the line by row `subLine` of the next block and leaves the rest zero |
| Dispatch.SelectDecoder | src/main/kotlin/top/kkoishi/dds/decode/DDSDecoder.kt:50-78 | with `DDPF_FOURCC`, each tag selects its DXT decoder, the NUL tag and unknown tags throw; otherwise RGBA iff RGB and ALPHAPIXELS, RGB iff RGB alone, else throw; compressed iff FourCC |
| Dispatch.FourCCTakesPrecedence | src/main/kotlin/top/kkoishi/dds/decode/DDSDecoder.kt:50-53 | with `DDPF_FOURCC` set, the other flags never change the choice |
| Dispatch.TagIgnoredWithoutFourCC | src/main/kotlin/top/kkoishi/dds/decode/DDSDecoder.kt:71-78 | without `DDPF_FOURCC`, the tag never changes the choice |
| Dispatch.AgreesWithBlockSize | src/main/kotlin/top/kkoishi/dds/decode/DDSDecoder.kt:53-59 | the DXT decoder chosen matches the block size the container used for the payload, and both refuse the NUL tag alike |
| Dispatch.CreateDecoder | src/main/kotlin/top/kkoishi/dds/decode/DDSDecoder.kt:47-80 | selection errors propagate; otherwise the chosen class is constructed, failing exactly as its constructor does, in its initial state |

## Left out

- `DDSDecoder.decodeToPng`, the PNG encoder, `dataLineStream`, `spliterator` and the stream plumbing. They are I/O and JVM library code. The iterator's `hasNext`/`next` are modelled as `HasNext` and the decoders' `Run`.
- `Main.kt`, `Test.kt`, `DDSReadable` and every `toString`. These are entry points and formatting only.
- `DDSRef.bdata2` is never read or written by the code.
- The `DXGI_FORMAT_BC4_UNORM_BLOCK_SIZE_BYTES` constant has no user.
- The `DXT3DSSDecoder` and `DXT5DDSDecoder` classes are not part of this model. Their selection is modelled (`Dispatch.SelectDecoder`), and so are the BC2/BC3 block codecs they call.
- Native byte order. `lineByteCache.order(ByteOrder.nativeOrder())` is modelled as little-endian, which is what the format stores.
- The FourCC is compared as four raw bytes. The source turns it into a `String` with the platform charset first; for the ASCII tags compared here the two agree.
- Out-of-memory errors on very large arrays are not modelled.
- `DataInput.ByteInput` holds the whole stream as a byte sequence. Blocking reads and `IOException`s other than end of stream are not modelled.
- `DXTDecoder.DXT1DDSDecoder.LoadNextBlocksLine`: `curBlock++` is not wrapped at 32 bits. Nothing reads `curBlock`.
- Phase methods: `Header.ReadWords`, `Header.ReadReserved1`, `Header.ReadTrailing`, `PixelFormat.ReadFields` and `Container.ReadBody` split single source methods into phases. The splits only bound proof size; each phase reads the same fields in the same order.
- `LineDecoder.LineCursor.GetBytes` requires that the destination is not the cache itself. The source always passes a separate array.
- `RGBDecoder.RGBDDSDecoder.Read3BytesPixelAsInt` requires its pixel array to be distinct from the cache.
- `RGBDecoder.RGBDDSDecoder.CopyPixels` additionally requires `bytePos == 0`, which holds right after `loadNextLine`.
- `RGBDecoder.RGBDDSDecoder.ConvertPixels` has the same two requirements.
- `RGBADecoder.RGBADDSDecoder.ConvertLine` requires the int view to be at its start, which holds right after `loadNextLine`.
- `DXTDecoder.DXT1DDSDecoder.CopyBlockRows` requires the line to be a fresh zeroed array distinct from the cache, as `IntArray(lineWidth)` is.
- `DXTDecoder.DXT1DDSDecoder.CopyFour` requires its two arrays to be distinct, as they are at its one call.
- `DXGIBCUtils.DecompressBC1DXT1DataBlock` requires its offsets to lie inside the arrays. The decoders only call it that way; an out-of-range offset would throw `ArrayIndexOutOfBoundsException`, which is not modelled.
- `DXGIBCUtils.DecompressBC2DXT3DataBlock` and `DXGIBCUtils.DecompressBC3DXT5DataBlock` have the same in-range offset requirement.
- `DXGIBCUtils.WriteTexels` and `DXGIBCUtils.OverlayBC3Alpha` require their local table to be distinct from `dest`, as a freshly allocated array is.
- `DXTDecoder.RaggedWidthFails`, `DXTDecoder.RaggedWidth` and `DXTDecoder.WholeBlocks` are stated for widths below 0x7FFFFFFC, where `lineWidth + 3` does not wrap. `DXTDecoder.RaggedWidthFails` also needs a built decoder (its valid-state precondition), and one exists only for widths up to 0x1FFFFFFC (`DXTDecoder.WideWidthUnbuildable`).
- `DXTDecoder.PayloadHoldsBlockRows` and `Container.CompressedSizeNoWrap` are stated for surfaces whose block product fits in an `Int`.
- `Container.UncompressedSizeNoWrap` is likewise stated only where the product fits. Beyond that the model wraps exactly as the source does.
- `DXTDecoder.RunLineAt`, `DXTDecoder.StepDecodesBlockRow`, `DXTDecoder.StepKeepsRow` and `DXTDecoder.AllLinesDecode` require the payload to hold every block row and the line to fit its blocks. `DDSHeader.validate` checks neither. The payload bound comes from `DDSRef.read`, which sizes `bdata` with `calcCompressedDataSize`, and holds only while the block product fits in an `Int` (`DXTDecoder.PayloadHoldsBlockRows`). Nothing in the source enforces `4 * blockWidth <= lineWidth`; it is assumed here. A ragged width up to 0x1FFFFFFC passes every check and then fails at decode (`DXTDecoder.RaggedWidthFails`). A wider one already fails when the decoder is built (`DXTDecoder.WideWidthUnbuildable`).
