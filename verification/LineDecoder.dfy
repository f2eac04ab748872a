/**
 * The scan state shared by the uncompressed decoders (AbstractDDSDecoder.kt):
 * the next line to decode, the read position in the payload, and a
 * one-line byte buffer with a 32-bit little-endian view over it.
 *
 * `LineConfig` holds what `init` fixes and `LineState` what changes; the
 * pure functions over them (`LoadNextLineStep`, ...) are the state machine the
 * `LineCursor` methods are proved against, and the decoders' lemmas about
 * several calls in a row are stated over them.
 */
module LineDecoder {
  import opened KotlinInt
  import opened Errors
  import opened DataInput
  import C = Container

  /** The fields `init` sets: the payload, `maxLine`, `lineWidth` and `lineByteSize`. */
  datatype LineConfig = LineConfig(bdata: seq<bv8>, maxLine: int, lineWidth: int, lineByteSize: int)

  /**
   * The fields that change: `curLine`, `pos`, the position of
   * `lineByteCache` (`bytePos`), the position of its int view
   * `linePixelsIntCache` (`intPos`), and the bytes of the buffer.
   * The buffer's limit is always `lineByteSize`: it starts at the capacity,
   * and every `flip` sets it to the `lineByteSize` bytes just put.
   */
  datatype LineState = LineState(curLine: int, pos: int, bytePos: int, intPos: int, cache: seq<bv8>)

  /**
   * `init`: `maxLine = dwHeight`, `lineWidth = dwWidth` and
   * `lineByteSize = dwRGBBitCount / 8 * lineWidth` in `Int` arithmetic.
   */
  function ConfigOf(dds: C.DDSRef): (c: LineConfig)
    ensures c.bdata == dds.bdata && c.maxLine == dds.header.dwHeight && c.lineWidth == dds.header.dwWidth
    ensures IsInt(c.lineByteSize)
  {
    var h := dds.header;
    LineConfig(dds.bdata, h.dwHeight, h.dwWidth, Mul32(TDiv(h.ddspf.dwRGBBitCount, 8), h.dwWidth))
  }

  /** The capacity of the int view: `asIntBuffer` on a buffer at position 0 holds `lineByteSize / 4` ints. */
  function IntCapacity(c: LineConfig): int {
    c.lineByteSize / 4
  }

  predicate ValidState(c: LineConfig, s: LineState) {
    && 0 <= c.lineByteSize
    && |s.cache| == c.lineByteSize
    && 0 <= s.bytePos <= c.lineByteSize
    && 0 <= s.intPos <= IntCapacity(c)
  }

  /** The state right after `init`: nothing read, a zeroed buffer. */
  function InitialState(c: LineConfig): (s: LineState)
    requires c.lineByteSize >= 0
    ensures ValidState(c, s) && s.curLine == 0 && s.pos == 0
  {
    LineState(0, 0, 0, 0, seq(c.lineByteSize, _ => 0))
  }

  /** The iterator's `hasNext`. */
  predicate HasNext(c: LineConfig, s: LineState) {
    s.curLine < c.maxLine
  }

  /**
   * `loadNextLine`: `rewind`; `put(bdata, pos, lineByteSize)`, which throws
   * `IndexOutOfBoundsException` before copying anything when the range is
   * outside `bdata`; `flip`; rewind of the int view; `pos += lineByteSize`.
   */
  function LoadNextLineStep(c: LineConfig, s: LineState): (Outcome, LineState)
    requires c.lineByteSize >= 0
  {
    var rewound := s.(bytePos := 0);
    if s.pos < 0 || s.pos + c.lineByteSize > |c.bdata| then (Fail(IndexOutOfBounds), rewound)
    else (Pass, rewound.(cache := c.bdata[s.pos..s.pos + c.lineByteSize], intPos := 0, pos := s.pos + c.lineByteSize))
  }

  /** The `n` little-endian ints of the view starting at int `from`. */
  function Ints(cache: seq<bv8>, from: int, n: int): (ints: seq<bv32>)
    requires 0 <= from && 0 <= n && 4 * (from + n) <= |cache|
    ensures |ints| == n
  {
    seq(n, i requires 0 <= i < n => LeWordAt(cache, 4 * (from + i)))
  }

  /** `(pixel and mask) shr shift and 0xFF`: one colour channel by mask and shift. */
  function Channel(pixel: bv32, mask: bv32, shift: bv32): (r: bv32)
    ensures r <= 0xFF
  {
    Shr(pixel & mask, shift) & 0xFF
  }

  /** A load succeeds exactly when the next line lies inside the payload; only then does anything but the buffer position change. */
  lemma LoadNextLineSpec(c: LineConfig, s: LineState)
    requires ValidState(c, s)
    ensures var (o, t) := LoadNextLineStep(c, s);
      && (o.Pass? <==> 0 <= s.pos && s.pos + c.lineByteSize <= |c.bdata|)
      && ValidState(c, t) && t.curLine == s.curLine && t.bytePos == 0
      && (o.Pass? ==> t.pos == s.pos + c.lineByteSize && t.intPos == 0 && t.cache == c.bdata[s.pos..t.pos])
      && (o.Fail? ==> o.error == IndexOutOfBounds && t == s.(bytePos := 0))
  {
  }

  /** A zero mask yields a zero channel: its trailing-zero count 32 is taken as a shift by 0. */
  lemma ZeroMaskChannel(pixel: bv32)
    ensures Channel(pixel, 0, NumberOfTrailingZeros(0)) == 0
  {
  }

  /** The channel of a whole-byte mask `0xFF << 8 * k` is byte `k` of the pixel. */
  lemma ByteMaskChannels(pixel: bv32)
    ensures Channel(pixel, 0xFF, NumberOfTrailingZeros(0xFF)) == pixel & 0xFF
    ensures Channel(pixel, 0xFF00, NumberOfTrailingZeros(0xFF00)) == (pixel >> 8) & 0xFF
    ensures Channel(pixel, 0xFF_0000, NumberOfTrailingZeros(0xFF_0000)) == (pixel >> 16) & 0xFF
    ensures Channel(pixel, 0xFF00_0000, NumberOfTrailingZeros(0xFF00_0000)) == pixel >> 24
  {
    StandardShifts();
  }

  /** The trailing-zero counts of the four whole-byte masks. */
  lemma StandardShifts()
    ensures NumberOfTrailingZeros(0xFF) == 0 && NumberOfTrailingZeros(0xFF00) == 8
    ensures NumberOfTrailingZeros(0xFF_0000) == 16 && NumberOfTrailingZeros(0xFF00_0000) == 24
  {
  }

  /**
   * `AbstractDDSDecoder`'s cursor: the payload and line geometry are
   * constants, `lineByteCache` a byte array of `lineByteSize` bytes read
   * through two positions (its own and its int view's).
   */
  class LineCursor {
    const bdata: seq<bv8>
    const maxLine: int
    const lineWidth: int
    const lineByteSize: int
    const lineByteCache: array<bv8>
    var curLine: int
    var pos: int
    var bytePos: int
    var intPos: int

    function Config(): LineConfig {
      LineConfig(bdata, maxLine, lineWidth, lineByteSize)
    }

    function State(): LineState
      reads this, lineByteCache
    {
      LineState(curLine, pos, bytePos, intPos, lineByteCache[..])
    }

    predicate Valid()
      reads this, lineByteCache
    {
      lineByteCache.Length == lineByteSize && ValidState(Config(), State())
    }

    /** The part of `init` after the buffer was allocated. */
    constructor (c: LineConfig)
      requires c.lineByteSize >= 0
      ensures Valid() && Config() == c && State() == InitialState(c)
      ensures fresh(lineByteCache)
    {
      bdata, maxLine, lineWidth, lineByteSize := c.bdata, c.maxLine, c.lineWidth, c.lineByteSize;
      lineByteCache := new bv8[c.lineByteSize](_ => 0);
      curLine, pos, bytePos, intPos := 0, 0, 0, 0;
    }

    /**
     * `init`: `ByteBuffer.allocate(lineByteSize)` throws
     * `IllegalArgumentException` for a negative capacity.
     */
    static method Create(dds: C.DDSRef) returns (r: Result<LineCursor>)
      ensures r.Err? <==> ConfigOf(dds).lineByteSize < 0
      ensures r.Err? ==> r.error == IllegalArgument(NegativeCapacity)
      ensures r.Ok? ==> && fresh(r.value) && fresh(r.value.lineByteCache) && r.value.Valid()
                        && r.value.Config() == ConfigOf(dds) && r.value.State() == InitialState(ConfigOf(dds))
    {
      var c := ConfigOf(dds);
      if c.lineByteSize < 0 {
        return Err(IllegalArgument(NegativeCapacity));
      }
      var cursor := new LineCursor(c);
      return Ok(cursor);
    }

    /** The iterator's `hasNext`. */
    predicate HasNextLine()
      reads this
    {
      curLine < maxLine
    }

    /** `loadNextLine`. */
    method LoadNextLine() returns (o: Outcome)
      requires Valid()
      modifies this, lineByteCache
      ensures Valid()
      ensures (o, State()) == LoadNextLineStep(Config(), old(State()))
    {
      bytePos := 0;
      if pos < 0 || pos + lineByteSize > |bdata| {
        return Fail(IndexOutOfBounds);
      }
      forall i | 0 <= i < lineByteSize {
        lineByteCache[i] := bdata[pos + i];
      }
      // `flip` leaves the limit at the bytes just put and the position at 0
      bytePos := 0;
      intPos := 0;
      pos := pos + lineByteSize;
      assert lineByteCache[..] == bdata[old(pos)..old(pos) + lineByteSize];
      return Pass;
    }

    /** `linePixelsIntCache.get()`: the next int of the view, or `BufferUnderflowException` at its end. */
    method GetInt() returns (r: Result<bv32>)
      requires Valid()
      modifies this
      ensures Valid()
      ensures old(intPos) < IntCapacity(Config()) ==>
        r == Ok(LeWordAt(lineByteCache[..], 4 * old(intPos))) && State() == old(State()).(intPos := old(intPos) + 1)
      ensures old(intPos) >= IntCapacity(Config()) ==> r == Err(BufferUnderflow) && State() == old(State())
    {
      if intPos >= lineByteSize / 4 {
        return Err(BufferUnderflow);
      }
      var i := 4 * intPos;
      var word := LittleEndian32(lineByteCache[i], lineByteCache[i + 1], lineByteCache[i + 2], lineByteCache[i + 3]);
      intPos := intPos + 1;
      return Ok(word);
    }

    /**
     * `linePixelsIntCache.get(dst)`: fills `dst` with the next ints of the
     * view, or throws `BufferUnderflowException` and reads nothing when
     * fewer remain.
     */
    method GetInts(dst: array<bv32>) returns (o: Outcome)
      requires Valid()
      modifies this, dst
      ensures Valid()
      ensures dst.Length > IntCapacity(Config()) - old(intPos) ==>
        o == Fail(BufferUnderflow) && State() == old(State()) && dst[..] == old(dst[..])
      ensures dst.Length <= IntCapacity(Config()) - old(intPos) ==>
        && o == Pass && dst[..] == Ints(lineByteCache[..], old(intPos), dst.Length)
        && State() == old(State()).(intPos := old(intPos) + dst.Length)
    {
      if dst.Length > lineByteSize / 4 - intPos {
        return Fail(BufferUnderflow);
      }
      var bytes := lineByteCache[..];
      forall i | 0 <= i < dst.Length {
        dst[i] := LeWordAt(bytes, 4 * (intPos + i));
      }
      assert dst[..] == Ints(bytes, intPos, dst.Length);
      intPos := intPos + dst.Length;
      assert lineByteCache[..] == bytes;
      return Pass;
    }

    /**
     * `lineByteCache.get(dst)`: fills `dst` with the next bytes, or throws
     * `BufferUnderflowException` and reads nothing when fewer remain
     * before the limit.
     */
    method GetBytes(dst: array<bv8>) returns (o: Outcome)
      requires Valid() && dst != lineByteCache
      modifies this, dst
      ensures Valid()
      ensures dst.Length > lineByteSize - old(bytePos) ==>
        o == Fail(BufferUnderflow) && State() == old(State()) && dst[..] == old(dst[..])
      ensures dst.Length <= lineByteSize - old(bytePos) ==>
        && o == Pass && dst[..] == lineByteCache[old(bytePos)..old(bytePos) + dst.Length]
        && State() == old(State()).(bytePos := old(bytePos) + dst.Length)
    {
      if dst.Length > lineByteSize - bytePos {
        return Fail(BufferUnderflow);
      }
      forall i | 0 <= i < dst.Length {
        dst[i] := lineByteCache[bytePos + i];
      }
      bytePos := bytePos + dst.Length;
      return Pass;
    }
  }
}
