/**
 * The decoder for uncompressed pixels with an alpha channel
 * (RGBADDSDecoder.kt): each line is `lineWidth` little-endian 32-bit
 * pixels, copied as they are when the masks already describe ARGB, and
 * otherwise unpacked channel by channel with the pixel format's masks.
 */
module RGBADecoder {
  import opened KotlinInt
  import opened Errors
  import opened DataInput
  import opened LineDecoder
  import C = Container
  import PF = PixelFormat

  /** The red, green, blue and alpha masks of the pixel format. */
  datatype ChannelMasks = ChannelMasks(r: bv32, g: bv32, b: bv32, a: bv32)

  /** The masks `skipShifting` recognises: A = 0xFF000000, R = 0xFF0000, G = 0xFF00, B = 0xFF. */
  const ARGB_MASKS: ChannelMasks := ChannelMasks(0xFF_0000, 0xFF00, 0xFF, 0xFF00_0000)

  function MasksOf(pf: PF.DDSPixelFormat): ChannelMasks {
    ChannelMasks(pf.dwRBitMask, pf.dwGBitMask, pf.dwBBitMask, pf.dwABitMask)
  }

  /** The shift of each channel: its mask's trailing-zero count, as `init` computes it. */
  function ShiftsOf(m: ChannelMasks): ChannelMasks {
    ChannelMasks(NumberOfTrailingZeros(m.r), NumberOfTrailingZeros(m.g),
                 NumberOfTrailingZeros(m.b), NumberOfTrailingZeros(m.a))
  }

  /** A pixel of the conversion path: every channel by its mask and shift, packed as ARGB. */
  function ShiftedPixel(pixel: bv32, m: ChannelMasks, sh: ChannelMasks): bv32 {
    (Channel(pixel, m.a, sh.a) << 24) | (Channel(pixel, m.r, sh.r) << 16)
    | (Channel(pixel, m.g, sh.g) << 8) | Channel(pixel, m.b, sh.b)
  }

  /** Each int of a row through the conversion path. */
  function ConvertRow(ints: seq<bv32>, m: ChannelMasks): (line: seq<bv32>)
    ensures |line| == |ints|
  {
    var sh := ShiftsOf(m);
    seq(|ints|, i requires 0 <= i < |ints| => ShiftedPixel(ints[i], m, sh))
  }

  /** A decoded line: the row's ints as they are with ARGB masks, each converted otherwise. */
  function DecodeRow(ints: seq<bv32>, m: ChannelMasks): (line: seq<bv32>)
    ensures |line| == |ints|
  {
    if m == ARGB_MASKS then ints else ConvertRow(ints, m)
  }

  /**
   * `decodeDataLine` as a step of the cursor: `NoSuchElementException`
   * past the last line; the load (and its exception); the line array
   * (`NegativeArraySizeException`); then the row, where a view holding
   * fewer than `lineWidth` ints underflows — the bulk copy before reading
   * anything, the conversion loop after reading all there is.
   */
  function DecodeStep(c: LineConfig, m: ChannelMasks, s: LineState): (r: (Result<seq<bv32>>, LineState))
    requires ValidState(c, s)
    ensures ValidState(c, r.1)
    ensures r.0.Ok? ==> |r.0.value| == c.lineWidth
  {
    if s.curLine >= c.maxLine then (Err(NoSuchElement), s)
    else
      var (loaded, t) := LoadNextLineStep(c, s);
      if loaded.Fail? then (Err(loaded.error), t)
      else if c.lineWidth < 0 then (Err(NegativeArraySize), t)
      else if c.lineWidth > IntCapacity(c) then
        (Err(BufferUnderflow), if m == ARGB_MASKS then t else t.(intPos := IntCapacity(c)))
      else (Ok(DecodeRow(Ints(t.cache, 0, c.lineWidth), m)), t.(intPos := c.lineWidth, curLine := s.curLine + 1))
  }

  /** `n` calls of `decodeDataLine` in a row: what each returned, and the state after the last. */
  function Run(c: LineConfig, m: ChannelMasks, s: LineState, n: nat): (r: (seq<Result<seq<bv32>>>, LineState))
    requires ValidState(c, s)
    ensures |r.0| == n && ValidState(c, r.1)
    decreases n
  {
    if n == 0 then ([], s)
    else
      var (line, t) := DecodeStep(c, m, s);
      var (lines, u) := Run(c, m, t, n - 1);
      ([line] + lines, u)
  }

  /** Past the last line every call throws and changes nothing. */
  lemma Exhausted(c: LineConfig, m: ChannelMasks, s: LineState)
    requires ValidState(c, s) && !HasNext(c, s)
    ensures DecodeStep(c, m, s) == (Err(NoSuchElement), s)
  {
  }

  /**
   * A call succeeds exactly when a line is left, the next row lies inside
   * the payload and its ints cover `lineWidth` pixels; it then returns that
   * row decoded, moves to the next line and advances `pos` by one row.
   */
  lemma DecodeStepOk(c: LineConfig, m: ChannelMasks, s: LineState)
    requires ValidState(c, s)
    ensures var (r, t) := DecodeStep(c, m, s);
      && (r.Ok? <==> HasNext(c, s) && 0 <= s.pos && s.pos + c.lineByteSize <= |c.bdata|
                     && 0 <= c.lineWidth <= c.lineByteSize / 4)
      && (r.Ok? ==> && r.value == DecodeRow(Ints(c.bdata[s.pos..s.pos + c.lineByteSize], 0, c.lineWidth), m)
                    && t.curLine == s.curLine + 1 && t.pos == s.pos + c.lineByteSize)
      && (r.Err? ==> t.curLine == s.curLine)
  {
  }

  /** With ARGB masks the conversion path would return each pixel unchanged, so the copy path is its shortcut. */
  lemma CopyIsConversion(pixel: bv32)
    ensures ShiftedPixel(pixel, ARGB_MASKS, ShiftsOf(ARGB_MASKS)) == pixel
  {
    ByteMaskChannels(pixel);
  }

  /** A converted pixel holds the four channels, alpha in the top byte and blue in the bottom one. */
  lemma ShiftedPixelChannels(pixel: bv32, m: ChannelMasks, sh: ChannelMasks)
    ensures ShiftedPixel(pixel, m, sh) >> 24 == Channel(pixel, m.a, sh.a)
    ensures (ShiftedPixel(pixel, m, sh) >> 16) & 0xFF == Channel(pixel, m.r, sh.r)
    ensures (ShiftedPixel(pixel, m, sh) >> 8) & 0xFF == Channel(pixel, m.g, sh.g)
    ensures ShiftedPixel(pixel, m, sh) & 0xFF == Channel(pixel, m.b, sh.b)
  {
    PackedBytes(Channel(pixel, m.a, sh.a), Channel(pixel, m.r, sh.r), Channel(pixel, m.g, sh.g), Channel(pixel, m.b, sh.b));
  }

  lemma PackedBytes(a: bv32, r: bv32, g: bv32, b: bv32)
    requires a <= 0xFF && r <= 0xFF && g <= 0xFF && b <= 0xFF
    ensures var p := (a << 24) | (r << 16) | (g << 8) | b;
      p >> 24 == a && (p >> 16) & 0xFF == r && (p >> 8) & 0xFF == g && p & 0xFF == b
  {
  }

  /** A zero alpha mask gives alpha 0 on the conversion path: such pixels come out transparent, not opaque. */
  lemma ZeroAlphaMask(pixel: bv32, m: ChannelMasks)
    requires m.a == 0
    ensures ShiftedPixel(pixel, m, ShiftsOf(m)) >> 24 == 0
  {
    ShiftedPixelChannels(pixel, m, ShiftsOf(m));
    ZeroMaskChannel(pixel);
  }

  /**
   * From line `k` at `pos == k * lineByteSize`, with a payload of at least
   * `maxLine` rows whose ints cover a line, the next `n` calls (`k + n <=
   * maxLine`) all return their row decoded.
   */
  lemma {:induction false} RunDecodesRows(c: LineConfig, m: ChannelMasks, s: LineState, n: nat)
    requires ValidState(c, s) && 0 <= s.curLine && s.curLine + n <= c.maxLine
    requires s.pos == s.curLine * c.lineByteSize && c.maxLine * c.lineByteSize <= |c.bdata|
    requires 0 <= c.lineWidth <= c.lineByteSize / 4
    ensures var (lines, t) := Run(c, m, s, n);
      && t.curLine == s.curLine + n && t.pos == t.curLine * c.lineByteSize
      && forall i | 0 <= i < n :: lines[i] == Ok(RowAt(c, m, s.curLine + i))
    decreases n
  {
    if n > 0 {
      var k := s.curLine;
      RowInPayload(c, k);
      DecodeStepOk(c, m, s);
      var (line, t) := DecodeStep(c, m, s);
      assert t.pos == (k + 1) * c.lineByteSize;
      RunDecodesRows(c, m, t, n - 1);
    }
  }

  /** Line `k` of the payload, decoded. */
  function RowAt(c: LineConfig, m: ChannelMasks, k: int): seq<bv32>
    requires 0 <= k < c.maxLine && 0 <= c.lineByteSize && c.maxLine * c.lineByteSize <= |c.bdata|
    requires 0 <= c.lineWidth <= c.lineByteSize / 4
  {
    RowInPayload(c, k);
    DecodeRow(Ints(c.bdata[k * c.lineByteSize..(k + 1) * c.lineByteSize], 0, c.lineWidth), m)
  }

  lemma RowInPayload(c: LineConfig, k: int)
    requires 0 <= k < c.maxLine && 0 <= c.lineByteSize && c.maxLine * c.lineByteSize <= |c.bdata|
    ensures 0 <= k * c.lineByteSize && (k + 1) * c.lineByteSize <= |c.bdata|
  {
    assert (k + 1) * c.lineByteSize <= c.maxLine * c.lineByteSize by {
      MulMonotone(k + 1, c.maxLine, c.lineByteSize);
    }
  }

  lemma MulMonotone(a: int, b: int, n: int)
    requires a <= b && 0 <= n
    ensures a * n <= b * n
  {
  }

  /**
   * All lines decode: from a fresh decoder over a payload of `maxLine`
   * rows whose ints cover a line, the first `maxLine` calls return the rows
   * decoded in order, and the next one finds no line left.
   */
  lemma AllLinesDecode(c: LineConfig, m: ChannelMasks)
    requires 0 <= c.lineByteSize && 0 <= c.maxLine && c.maxLine * c.lineByteSize <= |c.bdata|
    requires 0 <= c.lineWidth <= c.lineByteSize / 4
    ensures var (lines, t) := Run(c, m, InitialState(c), c.maxLine);
      && (forall k | 0 <= k < c.maxLine :: lines[k] == Ok(RowAt(c, m, k)))
      && !HasNext(c, t) && DecodeStep(c, m, t).0 == Err(NoSuchElement)
  {
    RunDecodesRows(c, m, InitialState(c), c.maxLine);
  }

  /**
   * `RGBADDSDecoder`: the cursor plus the four masks and the shifts `init`
   * derives from them.
   */
  class RGBADDSDecoder {
    const cursor: LineCursor
    const rBitMask: bv32
    const gBitMask: bv32
    const bBitMask: bv32
    const aBitMask: bv32
    const rBitShift: bv32
    const gBitShift: bv32
    const bBitShift: bv32
    const aBitShift: bv32
    const skipShifting: bool

    function Masks(): ChannelMasks {
      ChannelMasks(rBitMask, gBitMask, bBitMask, aBitMask)
    }

    function Shifts(): ChannelMasks {
      ChannelMasks(rBitShift, gBitShift, bBitShift, aBitShift)
    }

    predicate Valid()
      reads this, cursor, cursor.lineByteCache
    {
      && cursor.Valid()
      && Shifts() == ShiftsOf(Masks())
      && skipShifting == (Masks() == ARGB_MASKS)
    }

    /** `init`, once the cursor exists: the masks, `skipShifting` and the shifts. */
    constructor (cursor: LineCursor, pf: PF.DDSPixelFormat)
      requires cursor.Valid()
      ensures Valid() && this.cursor == cursor && Masks() == MasksOf(pf)
    {
      this.cursor := cursor;
      rBitMask := pf.dwRBitMask;
      gBitMask := pf.dwGBitMask;
      bBitMask := pf.dwBBitMask;
      aBitMask := pf.dwABitMask;
      skipShifting := pf.dwABitMask == 0xFF00_0000 && pf.dwRBitMask == 0xFF_0000
                      && pf.dwGBitMask == 0xFF00 && pf.dwBBitMask == 0xFF;
      rBitShift := NumberOfTrailingZeros(pf.dwRBitMask);
      gBitShift := NumberOfTrailingZeros(pf.dwGBitMask);
      bBitShift := NumberOfTrailingZeros(pf.dwBBitMask);
      aBitShift := NumberOfTrailingZeros(pf.dwABitMask);
    }

    /** `RGBADDSDecoder(dds)`: fails as the cursor's `init` does. */
    static method Create(dds: C.DDSRef) returns (r: Result<RGBADDSDecoder>)
      ensures r.Err? <==> ConfigOf(dds).lineByteSize < 0
      ensures r.Err? ==> r.error == IllegalArgument(NegativeCapacity)
      ensures r.Ok? ==> && fresh(r.value) && fresh(r.value.cursor) && fresh(r.value.cursor.lineByteCache)
                        && r.value.Valid() && r.value.Masks() == MasksOf(dds.header.ddspf)
                        && r.value.cursor.Config() == ConfigOf(dds)
                        && r.value.cursor.State() == InitialState(ConfigOf(dds))
    {
      var cursor :- LineCursor.Create(dds);
      var decoder := new RGBADDSDecoder(cursor, dds.header.ddspf);
      return Ok(decoder);
    }

    /** `decodeDataLine`. */
    method DecodeDataLine() returns (r: Result<seq<bv32>>)
      requires Valid()
      modifies cursor, cursor.lineByteCache
      ensures Valid()
      ensures (r, cursor.State()) == DecodeStep(cursor.Config(), Masks(), old(cursor.State()))
    {
      if cursor.curLine >= cursor.maxLine {
        return Err(NoSuchElement);
      }
      var loaded := cursor.LoadNextLine();
      if loaded.Fail? {
        return Err(loaded.error);
      }
      if cursor.lineWidth < 0 {
        return Err(NegativeArraySize);
      }
      ghost var t := cursor.State();
      var line := new bv32[cursor.lineWidth];
      var filled;
      if skipShifting {
        filled := cursor.GetInts(line);
        assert filled.Pass? ==> line[..] == DecodeRow(Ints(t.cache, 0, line.Length), Masks());
      } else {
        filled := ConvertLine(line);
        assert filled.Pass? ==> line[..] == DecodeRow(Ints(t.cache, 0, line.Length), Masks());
      }
      if filled.Fail? {
        return Err(filled.error);
      }
      cursor.curLine := cursor.curLine + 1;
      return Ok(line[..]);
    }

    /**
     * The conversion loop of `decodeDataLine`: `get()` one int per pixel
     * and unpack its channels, until the line is full or the view
     * underflows.
     */
    method ConvertLine(line: array<bv32>) returns (o: Outcome)
      requires Valid() && cursor.intPos == 0
      modifies cursor, line
      ensures Valid()
      ensures line.Length > IntCapacity(cursor.Config()) ==>
        o == Fail(BufferUnderflow) && cursor.State() == old(cursor.State()).(intPos := IntCapacity(cursor.Config()))
      ensures line.Length <= IntCapacity(cursor.Config()) ==>
        && o == Pass && cursor.State() == old(cursor.State()).(intPos := line.Length)
        && line[..] == ConvertRow(Ints(cursor.lineByteCache[..], 0, line.Length), Masks())
    {
      ghost var t := cursor.State();
      var index := 0;
      while index < line.Length
        invariant 0 <= index <= line.Length && index <= IntCapacity(cursor.Config())
        invariant cursor.Valid() && cursor.State() == t.(intPos := index)
        invariant forall k | 0 <= k < index :: line[k] == ShiftedPixel(LeWordAt(t.cache, 4 * k), Masks(), Shifts())
      {
        var pixel := cursor.GetInt();
        if pixel.Err? {
          return Fail(pixel.error);
        }
        line[index] := ShiftedPixel(pixel.value, Masks(), Shifts());
        index := index + 1;
      }
      assert line[..] == ConvertRow(Ints(t.cache, 0, line.Length), Masks());
      return Pass;
    }
  }
}
