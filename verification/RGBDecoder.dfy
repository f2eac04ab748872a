/**
 * The decoder for uncompressed 24-bit pixels without alpha
 * (RGBDDSDecoder.kt): each line is `lineWidth` pixels of three bytes,
 * packed as an opaque word when the masks already describe RGB, and
 * otherwise unpacked channel by channel with the pixel format's masks.
 *
 * As written, the packed word takes its blue byte from the third byte of
 * the pixel (the same byte as red), and a call never advances `curLine`:
 * only `pos` moves, until the payload runs out.
 */
module RGBDecoder {
  import opened KotlinInt
  import opened Errors
  import opened LineDecoder
  import C = Container
  import PF = PixelFormat

  /** The red, green and blue masks of the pixel format. */
  datatype RGBMasks = RGBMasks(r: bv32, g: bv32, b: bv32)

  /** The masks `skipShifting` recognises: R = 0xFF0000, G = 0xFF00, B = 0xFF. */
  const RGB_MASKS: RGBMasks := RGBMasks(0xFF_0000, 0xFF00, 0xFF)

  function MasksOf(pf: PF.DDSPixelFormat): RGBMasks {
    RGBMasks(pf.dwRBitMask, pf.dwGBitMask, pf.dwBBitMask)
  }

  /** The shift of each channel: its mask's trailing-zero count, as `init` computes it. */
  function ShiftsOf(m: RGBMasks): RGBMasks {
    RGBMasks(NumberOfTrailingZeros(m.r), NumberOfTrailingZeros(m.g), NumberOfTrailingZeros(m.b))
  }

  /**
   * `read3BytesPixelAsInt` on the three bytes it consumed: alpha 0xFF,
   * red from `p2`, green from `p1`, blue from `p2` again.
   */
  function PackedPixel(p0: bv8, p1: bv8, p2: bv8): bv32 {
    0xFF00_0000 | (((SignExtend(p2) & 0xFF) << 16) | ((SignExtend(p1) & 0xFF) << 8) | (SignExtend(p2) & 0xFF))
  }

  /** The packed pixel whose bytes start at byte `k` of the line. */
  function PixelAt(cache: seq<bv8>, k: int): bv32
    requires 0 <= k && k + 3 <= |cache|
  {
    PackedPixel(cache[k], cache[k + 1], cache[k + 2])
  }

  /** A pixel of the conversion path: red, green and blue by mask and shift; the alpha byte stays 0. */
  function ShiftedPixel(pixel: bv32, m: RGBMasks, sh: RGBMasks): bv32 {
    (Channel(pixel, m.r, sh.r) << 16) | (Channel(pixel, m.g, sh.g) << 8) | Channel(pixel, m.b, sh.b)
  }

  /** The first `w` packed pixels of a line. */
  function CopyRow(cache: seq<bv8>, w: int): (line: seq<bv32>)
    requires 0 <= w && 3 * w <= |cache|
    ensures |line| == w
  {
    seq(w, i requires 0 <= i < w => PixelAt(cache, 3 * i))
  }

  /** The first `w` packed pixels of a line, each through the conversion path. */
  function ConvertRow(cache: seq<bv8>, w: int, m: RGBMasks): (line: seq<bv32>)
    requires 0 <= w && 3 * w <= |cache|
    ensures |line| == w
  {
    var sh := ShiftsOf(m);
    seq(w, i requires 0 <= i < w => ShiftedPixel(PixelAt(cache, 3 * i), m, sh))
  }

  /** A decoded line: packed pixels with RGB masks, converted ones otherwise. */
  function DecodeRow(cache: seq<bv8>, w: int, m: RGBMasks): (line: seq<bv32>)
    requires 0 <= w && 3 * w <= |cache|
    ensures |line| == w
  {
    if m == RGB_MASKS then CopyRow(cache, w) else ConvertRow(cache, w, m)
  }

  /**
   * `decodeDataLine` with masks `m` and bit count `bitCount`: the result and
   * the state after it. The line array is allocated before the bit count is
   * checked, and both after the line was loaded; `get(pixel)` underflows
   * at the first pixel whose three bytes pass the end of the line.
   * `curLine` is left as it was.
   */
  function DecodeStep(c: LineConfig, m: RGBMasks, bitCount: int, s: LineState): (r: (Result<seq<bv32>>, LineState))
    requires ValidState(c, s)
    ensures ValidState(c, r.1)
    ensures r.0.Ok? ==> |r.0.value| == c.lineWidth
  {
    if s.curLine >= c.maxLine then (Err(NoSuchElement), s)
    else
      var (loaded, t) := LoadNextLineStep(c, s);
      if loaded.Fail? then (Err(loaded.error), t)
      else if c.lineWidth < 0 then (Err(NegativeArraySize), t)
      else if bitCount != 24 then (Err(UnsupportedOperation), t)
      else if 3 * c.lineWidth > c.lineByteSize then (Err(BufferUnderflow), t.(bytePos := 3 * (c.lineByteSize / 3)))
      else (Ok(DecodeRow(t.cache, c.lineWidth, m)), t.(bytePos := 3 * c.lineWidth))
  }

  /** `n` calls of `decodeDataLine` in a row: what each returned, and the state after the last. */
  function Run(c: LineConfig, m: RGBMasks, bitCount: int, s: LineState, n: nat): (r: (seq<Result<seq<bv32>>>, LineState))
    requires ValidState(c, s)
    ensures |r.0| == n && ValidState(c, r.1)
    decreases n
  {
    if n == 0 then ([], s)
    else
      var (line, t) := DecodeStep(c, m, bitCount, s);
      var (lines, u) := Run(c, m, bitCount, t, n - 1);
      ([line] + lines, u)
  }

  /**
   * A call succeeds exactly when a line is left, the next row lies inside
   * the payload, the bit count is 24 and the row holds `lineWidth` pixels
   * of three bytes. No call changes `curLine`.
   */
  lemma DecodeStepOk(c: LineConfig, m: RGBMasks, bitCount: int, s: LineState)
    requires ValidState(c, s)
    ensures var (r, t) := DecodeStep(c, m, bitCount, s);
      && (r.Ok? <==> HasNext(c, s) && 0 <= s.pos && s.pos + c.lineByteSize <= |c.bdata|
                     && bitCount == 24 && 0 <= c.lineWidth && 3 * c.lineWidth <= c.lineByteSize)
      && t.curLine == s.curLine
  {
    LoadNextLineSpec(c, s);
  }

  /** A successful call returns the row at `pos` decoded and advances `pos` by one row. */
  lemma DecodeStepRow(c: LineConfig, m: RGBMasks, bitCount: int, s: LineState)
    requires ValidState(c, s)
    ensures var (r, t) := DecodeStep(c, m, bitCount, s);
      r.Ok? ==> && 0 <= s.pos && s.pos + c.lineByteSize <= |c.bdata|
                && 0 <= c.lineWidth && 3 * c.lineWidth <= c.lineByteSize
                && r.value == DecodeRow(c.bdata[s.pos..s.pos + c.lineByteSize], c.lineWidth, m)
                && t.pos == s.pos + c.lineByteSize
  {
    if HasNext(c, s) && 0 <= s.pos && s.pos + c.lineByteSize <= |c.bdata| {
      var (o, t) := LoadNextLineStep(c, s);
      assert o.Pass? && t.cache == c.bdata[s.pos..s.pos + c.lineByteSize] && t.pos == s.pos + c.lineByteSize;
    }
  }

  /**
   * A bit count other than 24 is rejected only after the line was loaded:
   * the call throws `UnsupportedOperationException` yet `pos` has moved on
   * by one row.
   */
  lemma UnsupportedAfterLoad(c: LineConfig, m: RGBMasks, bitCount: int, s: LineState)
    requires ValidState(c, s) && HasNext(c, s) && bitCount != 24 && 0 <= c.lineWidth
    requires 0 <= s.pos && s.pos + c.lineByteSize <= |c.bdata|
    ensures var (r, t) := DecodeStep(c, m, bitCount, s);
      r == Err(UnsupportedOperation) && t.pos == s.pos + c.lineByteSize && t.curLine == s.curLine
  {
    LoadNextLineSpec(c, s);
  }

  /** The packed word: alpha 0xFF, red and blue both the third byte, green the second. */
  lemma PackedPixelBytes(p0: bv8, p1: bv8, p2: bv8)
    ensures PackedPixel(p0, p1, p2) >> 24 == 0xFF
    ensures (PackedPixel(p0, p1, p2) >> 16) & 0xFF == p2 as bv32
    ensures (PackedPixel(p0, p1, p2) >> 8) & 0xFF == p1 as bv32
    ensures PackedPixel(p0, p1, p2) & 0xFF == p2 as bv32
  {
    ByteOfSignExtend(p1);
    ByteOfSignExtend(p2);
  }

  /** `Byte.toInt() and 0xFF` is the byte's unsigned value. */
  lemma ByteOfSignExtend(b: bv8)
    ensures SignExtend(b) & 0xFF == b as bv32
  {
  }

  /** The first byte of a pixel never reaches the packed word. */
  lemma FirstByteIgnored(p0: bv8, q0: bv8, p1: bv8, p2: bv8)
    ensures PackedPixel(p0, p1, p2) == PackedPixel(q0, p1, p2)
  {
  }

  /** The conversion path leaves alpha 0: its pixels come out transparent, not opaque. */
  lemma ConvertedAlpha(pixel: bv32, m: RGBMasks, sh: RGBMasks)
    ensures ShiftedPixel(pixel, m, sh) >> 24 == 0
  {
    var r, g, b := Channel(pixel, m.r, sh.r), Channel(pixel, m.g, sh.g), Channel(pixel, m.b, sh.b);
    assert r <= 0xFF && g <= 0xFF && b <= 0xFF;
  }

  /**
   * With RGB masks the conversion path would return the packed pixel
   * without its alpha byte: the copy path is that conversion made opaque.
   */
  lemma CopyIsOpaqueConversion(pixel: bv32)
    ensures ShiftedPixel(pixel, RGB_MASKS, ShiftsOf(RGB_MASKS)) == pixel & 0xFF_FFFF
  {
    ByteMaskChannels(pixel);
  }

  /**
   * From a state with a line left, `n` calls whose rows all lie inside the
   * payload all succeed; `curLine` stays where it was and `pos` advances by
   * `n` rows.
   */
  lemma {:induction false} RunKeepsLine(c: LineConfig, m: RGBMasks, bitCount: int, s: LineState, n: nat)
    requires ValidState(c, s) && HasNext(c, s) && bitCount == 24
    requires 0 <= c.lineWidth && 3 * c.lineWidth <= c.lineByteSize
    requires 0 <= s.pos && s.pos + n * c.lineByteSize <= |c.bdata|
    ensures var (lines, t) := Run(c, m, bitCount, s, n);
      && t.curLine == s.curLine && t.pos == s.pos + n * c.lineByteSize
      && forall i | 0 <= i < n :: lines[i].Ok?
    decreases n
  {
    if n > 0 {
      assert s.pos + c.lineByteSize + (n - 1) * c.lineByteSize <= |c.bdata|;
      DecodeStepOk(c, m, bitCount, s);
      var (line, t) := DecodeStep(c, m, bitCount, s);
      RunKeepsLine(c, m, bitCount, t, n - 1);
    }
  }

  /** `n + 1` calls are `n` calls followed by one more. */
  lemma {:induction false} RunSnoc(c: LineConfig, m: RGBMasks, bitCount: int, s: LineState, n: nat)
    requires ValidState(c, s)
    ensures var (lines, t) := Run(c, m, bitCount, s, n);
      Run(c, m, bitCount, s, n + 1) == (lines + [DecodeStep(c, m, bitCount, t).0], DecodeStep(c, m, bitCount, t).1)
    decreases n
  {
    if n > 0 {
      var (line, t) := DecodeStep(c, m, bitCount, s);
      RunSnoc(c, m, bitCount, t, n - 1);
      var (rest, u) := Run(c, m, bitCount, t, n - 1);
      assert Run(c, m, bitCount, s, n) == ([line] + rest, u);
      assert Run(c, m, bitCount, s, n + 1) == ([line] + Run(c, m, bitCount, t, n).0, Run(c, m, bitCount, t, n).1);
      assert [line] + (rest + [DecodeStep(c, m, bitCount, u).0]) == ([line] + rest) + [DecodeStep(c, m, bitCount, u).0];
    } else {
      var (line, t) := DecodeStep(c, m, bitCount, s);
      assert Run(c, m, bitCount, t, 0) == ([], t);
      assert [line] + [] == [] + [line];
    }
  }

  /** How many whole lines of `lineByteSize` bytes the payload still holds from `pos` on. */
  function WholeLinesLeft(c: LineConfig, s: LineState): (n: nat)
    requires 0 < c.lineByteSize && 0 <= s.pos <= |c.bdata|
    ensures n * c.lineByteSize <= |c.bdata| - s.pos < n * c.lineByteSize + c.lineByteSize
  {
    var x := |c.bdata| - s.pos;
    assert x / c.lineByteSize * c.lineByteSize + x % c.lineByteSize == x;
    x / c.lineByteSize
  }

  /**
   * The line counter never reaches `maxLine`: from a state with a line
   * left, the `n` calls that fit in the rest of the payload succeed, and
   * the next one throws `IndexOutOfBoundsException` from `loadNextLine`
   * while `hasNext` still holds.
   */
  lemma RunsOutOfPayload(c: LineConfig, m: RGBMasks, bitCount: int, s: LineState)
    requires ValidState(c, s) && HasNext(c, s) && bitCount == 24
    requires 0 <= c.lineWidth && 3 * c.lineWidth <= c.lineByteSize && 0 < c.lineByteSize
    requires 0 <= s.pos <= |c.bdata|
    ensures var n := WholeLinesLeft(c, s);
      var (lines, t) := Run(c, m, bitCount, s, n + 1);
      && (forall i | 0 <= i < n :: lines[i].Ok?)
      && lines[n] == Err(IndexOutOfBounds) && HasNext(c, t)
  {
    var n := WholeLinesLeft(c, s);
    RunKeepsLine(c, m, bitCount, s, n);
    RunSnoc(c, m, bitCount, s, n);
    var (lines, t) := Run(c, m, bitCount, s, n);
    LoadNextLineSpec(c, t);
  }

  /**
   * `RGBDDSDecoder`: the cursor plus the three masks, the shifts `init`
   * derives from them, and the pixel format's bit count.
   */
  class RGBDDSDecoder {
    const cursor: LineCursor
    const rBitMask: bv32
    const gBitMask: bv32
    const bBitMask: bv32
    const rBitShift: bv32
    const gBitShift: bv32
    const bBitShift: bv32
    const rgbBitCount: int
    const skipShifting: bool

    function Masks(): RGBMasks {
      RGBMasks(rBitMask, gBitMask, bBitMask)
    }

    function Shifts(): RGBMasks {
      RGBMasks(rBitShift, gBitShift, bBitShift)
    }

    predicate Valid()
      reads this, cursor, cursor.lineByteCache
    {
      && cursor.Valid()
      && Shifts() == ShiftsOf(Masks())
      && skipShifting == (Masks() == RGB_MASKS)
    }

    /** `init`, once the cursor exists: the masks, the bit count, `skipShifting` and the shifts. */
    constructor (cursor: LineCursor, pf: PF.DDSPixelFormat)
      requires cursor.Valid()
      ensures Valid() && this.cursor == cursor && Masks() == MasksOf(pf) && rgbBitCount == pf.dwRGBBitCount
    {
      this.cursor := cursor;
      rBitMask := pf.dwRBitMask;
      gBitMask := pf.dwGBitMask;
      bBitMask := pf.dwBBitMask;
      rgbBitCount := pf.dwRGBBitCount;
      skipShifting := pf.dwRBitMask == 0xFF_0000 && pf.dwGBitMask == 0xFF00 && pf.dwBBitMask == 0xFF;
      rBitShift := NumberOfTrailingZeros(pf.dwRBitMask);
      gBitShift := NumberOfTrailingZeros(pf.dwGBitMask);
      bBitShift := NumberOfTrailingZeros(pf.dwBBitMask);
    }

    /** `RGBDDSDecoder(dds)`: fails as the cursor's `init` does. */
    static method Create(dds: C.DDSRef) returns (r: Result<RGBDDSDecoder>)
      ensures r.Err? <==> ConfigOf(dds).lineByteSize < 0
      ensures r.Err? ==> r.error == IllegalArgument(NegativeCapacity)
      ensures r.Ok? ==> && fresh(r.value) && fresh(r.value.cursor) && fresh(r.value.cursor.lineByteCache)
                        && r.value.Valid() && r.value.Masks() == MasksOf(dds.header.ddspf)
                        && r.value.rgbBitCount == dds.header.ddspf.dwRGBBitCount
                        && r.value.cursor.Config() == ConfigOf(dds)
                        && r.value.cursor.State() == InitialState(ConfigOf(dds))
    {
      var cursor :- LineCursor.Create(dds);
      var decoder := new RGBDDSDecoder(cursor, dds.header.ddspf);
      return Ok(decoder);
    }

    /** `decodeDataLine`. */
    method DecodeDataLine() returns (r: Result<seq<bv32>>)
      requires Valid()
      modifies cursor, cursor.lineByteCache
      ensures Valid()
      ensures (r, cursor.State()) == DecodeStep(cursor.Config(), Masks(), rgbBitCount, old(cursor.State()))
    {
      if cursor.curLine >= cursor.maxLine {
        return Err(NoSuchElement);
      }
      var loaded := cursor.LoadNextLine();
      if loaded.Fail? {
        return Err(loaded.error);
      }
      if cursor.lineWidth < 0 {
        return Err(NegativeArraySize);
      }
      ghost var t := cursor.State();
      var line := new bv32[cursor.lineWidth];
      if rgbBitCount != 24 {
        return Err(UnsupportedOperation);
      }
      var pixel := new bv8[3];
      var filled;
      if skipShifting {
        filled := CopyPixels(line, pixel);
        assert filled.Pass? ==> line[..] == DecodeRow(t.cache, line.Length, Masks());
      } else {
        filled := ConvertPixels(line, pixel);
        assert filled.Pass? ==> line[..] == DecodeRow(t.cache, line.Length, Masks());
      }
      if filled.Fail? {
        return Err(filled.error);
      }
      return Ok(line[..]);
    }

    /**
     * `read3BytesPixelAsInt`: `get(pixel)` takes the next three bytes of
     * the line, or throws `BufferUnderflowException` and reads nothing when
     * fewer remain.
     */
    method Read3BytesPixelAsInt(pixel: array<bv8>) returns (r: Result<bv32>)
      requires Valid() && pixel.Length == 3 && pixel != cursor.lineByteCache
      modifies cursor, pixel
      ensures Valid()
      ensures old(cursor.bytePos) + 3 <= cursor.lineByteSize ==>
        && r == Ok(PixelAt(cursor.lineByteCache[..], old(cursor.bytePos)))
        && cursor.State() == old(cursor.State()).(bytePos := old(cursor.bytePos) + 3)
      ensures old(cursor.bytePos) + 3 > cursor.lineByteSize ==>
        r == Err(BufferUnderflow) && cursor.State() == old(cursor.State())
    {
      var got := cursor.GetBytes(pixel);
      if got.Fail? {
        return Err(got.error);
      }
      return Ok(0xFF00_0000 | (((SignExtend(pixel[2]) & 0xFF) << 16) | ((SignExtend(pixel[1]) & 0xFF) << 8)
                               | (SignExtend(pixel[2]) & 0xFF)));
    }

    /** The loop of the copy path: one packed pixel per column, until the line is full or the buffer underflows. */
    method CopyPixels(line: array<bv32>, pixel: array<bv8>) returns (o: Outcome)
      requires Valid() && cursor.bytePos == 0 && pixel.Length == 3 && pixel != cursor.lineByteCache
      modifies cursor, line, pixel
      ensures Valid()
      ensures 3 * line.Length > cursor.lineByteSize ==>
        o == Fail(BufferUnderflow) && cursor.State() == old(cursor.State()).(bytePos := 3 * (cursor.lineByteSize / 3))
      ensures 3 * line.Length <= cursor.lineByteSize ==>
        && o == Pass && cursor.State() == old(cursor.State()).(bytePos := 3 * line.Length)
        && line[..] == CopyRow(cursor.lineByteCache[..], line.Length)
    {
      ghost var t := cursor.State();
      var index := 0;
      while index < line.Length
        invariant 0 <= index <= line.Length && 3 * index <= cursor.lineByteSize
        invariant Valid() && cursor.State() == t.(bytePos := 3 * index)
        invariant forall k | 0 <= k < index :: line[k] == PixelAt(t.cache, 3 * k)
      {
        var packed := Read3BytesPixelAsInt(pixel);
        if packed.Err? {
          assert index == cursor.lineByteSize / 3;
          return Fail(packed.error);
        }
        line[index] := packed.value;
        index := index + 1;
      }
      assert line[..] == CopyRow(t.cache, line.Length);
      return Pass;
    }

    /** The loop of the conversion path: one packed pixel per column, unpacked by the masks. */
    method ConvertPixels(line: array<bv32>, pixel: array<bv8>) returns (o: Outcome)
      requires Valid() && cursor.bytePos == 0 && pixel.Length == 3 && pixel != cursor.lineByteCache
      modifies cursor, line, pixel
      ensures Valid()
      ensures 3 * line.Length > cursor.lineByteSize ==>
        o == Fail(BufferUnderflow) && cursor.State() == old(cursor.State()).(bytePos := 3 * (cursor.lineByteSize / 3))
      ensures 3 * line.Length <= cursor.lineByteSize ==>
        && o == Pass && cursor.State() == old(cursor.State()).(bytePos := 3 * line.Length)
        && line[..] == ConvertRow(cursor.lineByteCache[..], line.Length, Masks())
    {
      ghost var t := cursor.State();
      var index := 0;
      while index < line.Length
        invariant 0 <= index <= line.Length && 3 * index <= cursor.lineByteSize
        invariant Valid() && cursor.State() == t.(bytePos := 3 * index)
        invariant forall k | 0 <= k < index :: line[k] == ShiftedPixel(PixelAt(t.cache, 3 * k), Masks(), Shifts())
      {
        var pixelInt := Read3BytesPixelAsInt(pixel);
        if pixelInt.Err? {
          assert index == cursor.lineByteSize / 3;
          return Fail(pixelInt.error);
        }
        line[index] := ShiftedPixel(pixelInt.value, Masks(), Shifts());
        index := index + 1;
      }
      assert line[..] == ConvertRow(t.cache, line.Length, Masks());
      return Pass;
    }
  }
}
