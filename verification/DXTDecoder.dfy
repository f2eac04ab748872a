/**
 * The decoder for BC1/DXT1 compressed payloads (AbstractDXTDDSDecoder.kt and
 * DXT1DDSDecoder.kt). The payload is a sequence of block rows, each
 * `blockWidth` blocks of 8 bytes covering four lines of texels. Every
 * fourth call loads the next block row and decodes all its blocks into a
 * cache of `16 * blockWidth` texels; each call then copies its line's four
 * texels out of every block.
 *
 * `DXTConfig` holds what `init` fixes and `DXTState` what changes; the
 * `DXT1DDSDecoder` methods are proved against the pure step functions.
 */
module DXTDecoder {
  import opened KotlinInt
  import opened Errors
  import C = Container
  import BC = DXGIBCUtils

  /**
   * The fields `init` sets: the payload, `maxLine`, `lineWidth`,
   * `maxBlock`, `blockWidth`, `blockBytes`, and the length of
   * `blocksCache`.
   */
  datatype DXTConfig = DXTConfig(bdata: seq<bv8>, maxLine: int, lineWidth: int, maxBlock: int,
                                 blockWidth: int, blockBytes: int, cacheSize: int)

  /**
   * `init` in `Int` arithmetic: `maxBlock = (maxLine + 3) / 4`,
   * `blockWidth = (lineWidth + 3) / 4`, `blockBytes = 8 * blockWidth` and a
   * cache of `16 * blockWidth` texels, every sum and product wrapping at
   * 32 bits.
   */
  function ConfigOf(dds: C.DDSRef): (c: DXTConfig)
    ensures c.bdata == dds.bdata && c.maxLine == dds.header.dwHeight && c.lineWidth == dds.header.dwWidth
  {
    var h := dds.header;
    var blockWidth := TDiv(Add32(h.dwWidth, 3), 4);
    DXTConfig(dds.bdata, h.dwHeight, h.dwWidth, TDiv(Add32(h.dwHeight, 3), 4), blockWidth,
              Mul32(BC.DXGI_FORMAT_BC1_DXT1_BLOCK_SIZE_BYTES, blockWidth), Mul32(16, blockWidth))
  }

  /**
   * A configuration whose two arrays exist: neither length is negative, and
   * with blocks in a row the lengths are the unwrapped products.
   */
  predicate ValidConfig(c: DXTConfig) {
    && 0 <= c.blockBytes && 0 <= c.cacheSize
    && (0 < c.blockWidth ==> c.blockBytes == 8 * c.blockWidth && c.cacheSize == 16 * c.blockWidth)
  }

  /** The fields that change: `curLine`, `curBlock`, `pos`, and the contents of `blocksLineCache` and `blocksCache`. */
  datatype DXTState = DXTState(curLine: int, curBlock: int, pos: int, lineCache: seq<bv8>, blocks: seq<bv32>)

  predicate ValidState(c: DXTConfig, s: DXTState) {
    && ValidConfig(c)
    && 0 <= s.curLine
    && |s.lineCache| == c.blockBytes
    && |s.blocks| == c.cacheSize
  }

  /** The state right after `init`: nothing read, zeroed arrays. */
  function InitialState(c: DXTConfig): (s: DXTState)
    requires ValidConfig(c)
    ensures ValidState(c, s) && s.curLine == 0 && s.curBlock == 0 && s.pos == 0
  {
    DXTState(0, 0, 0, seq(c.blockBytes, _ => 0), seq(c.cacheSize, _ => 0))
  }

  /** The iterator's `hasNext`. */
  predicate HasNext(c: DXTConfig, s: DXTState) {
    s.curLine < c.maxLine
  }

  /**
   * `loadNextBlocksLine`: `arraycopy(bdata, pos, blocksLineCache, 0,
   * blockBytes)`, which throws `IndexOutOfBoundsException` before copying
   * anything when the range is outside `bdata`; then `pos += blockBytes`
   * and `curBlock++`.
   */
  function LoadNextBlocksLineStep(c: DXTConfig, s: DXTState): (r: (Outcome, DXTState))
    requires ValidState(c, s)
    ensures ValidState(c, r.1)
  {
    if s.pos < 0 || s.pos + c.blockBytes > |c.bdata| then (Fail(IndexOutOfBounds), s)
    else (Pass, s.(lineCache := c.bdata[s.pos..s.pos + c.blockBytes], pos := s.pos + c.blockBytes, curBlock := s.curBlock + 1))
  }

  /** Blocks of 16 texels laid side by side, in order. */
  function Tile(blocks: seq<seq<bv32>>): (row: seq<bv32>)
    requires forall i | 0 <= i < |blocks| :: |blocks[i]| == 16
    ensures |row| == 16 * |blocks|
    decreases |blocks|
  {
    if |blocks| == 0 then [] else Tile(blocks[..|blocks| - 1]) + blocks[|blocks| - 1]
  }

  /** Texel `j` of block `i` sits at `16 * i + j` of the tiling. */
  lemma {:induction false} TileAt(blocks: seq<seq<bv32>>, i: int, j: int)
    requires forall b | 0 <= b < |blocks| :: |blocks[b]| == 16
    requires 0 <= i < |blocks| && 0 <= j < 16
    ensures Tile(blocks)[16 * i + j] == blocks[i][j]
    decreases |blocks|
  {
    if i < |blocks| - 1 {
      TileAt(blocks[..|blocks| - 1], i, j);
    }
  }

  /** The first `n` BC1 blocks of a row, each decoded from its 8 bytes. */
  function BC1Blocks(cache: seq<bv8>, n: int): (blocks: seq<seq<bv32>>)
    requires 0 <= n && 8 * n <= |cache|
    ensures |blocks| == n && forall i | 0 <= i < n :: |blocks[i]| == 16
  {
    seq(n, i requires 0 <= i < n => BC.BC1Block(cache, 8 * i))
  }

  /** The first `n` BC1 blocks of a row, decoded and laid side by side. */
  function DecodeBlockRow(cache: seq<bv8>, n: int): (blocks: seq<bv32>)
    requires 0 <= n && 8 * n <= |cache|
    ensures |blocks| == 16 * n
  {
    Tile(BC1Blocks(cache, n))
  }

  /** Texel `j` of block `i` of the decoded row sits at `16 * i + j`. */
  lemma DecodeBlockRowAt(cache: seq<bv8>, n: int, i: int, j: int)
    requires 0 <= n && 8 * n <= |cache| && 0 <= i < n && 0 <= j < 16
    ensures DecodeBlockRow(cache, n)[16 * i + j] == BC.BC1Block(cache, 8 * i)[j]
  {
    TileAt(BC1Blocks(cache, n), i, j);
  }

  /** One more block extends the decoded row by that block's texels. */
  lemma DecodeBlockRowSnoc(cache: seq<bv8>, n: int)
    requires 0 <= n && 8 * (n + 1) <= |cache|
    ensures DecodeBlockRow(cache, n + 1) == DecodeBlockRow(cache, n) + BC.BC1Block(cache, 8 * n)
  {
    assert BC1Blocks(cache, n + 1)[..n] == BC1Blocks(cache, n);
  }

  /** The decoding loop after a load: every block of the row into the cache (none when `blockWidth <= 0`). */
  function DecodeBlocksStep(c: DXTConfig, s: DXTState): (t: DXTState)
    requires ValidState(c, s)
    ensures ValidState(c, t)
  {
    if c.blockWidth <= 0 then s else s.(blocks := DecodeBlockRow(s.lineCache, c.blockWidth))
  }

  /** Line `sub` of each of the first `n` decoded blocks, four texels per block (`CopyRowAt` says which). */
  function CopyRow(blocks: seq<bv32>, n: int, sub: int): (line: seq<bv32>)
    requires 0 <= n && 16 * n <= |blocks| && 0 <= sub < 4
    ensures |line| == 4 * n
    decreases n
  {
    if n == 0 then [] else CopyRow(blocks, n - 1, sub) + blocks[16 * (n - 1) + 4 * sub..16 * (n - 1) + 4 * sub + 4]
  }

  /** Texel `4 * i + k` of the line is texel `k` of line `sub` of block `i`. */
  lemma {:induction false} CopyRowAt(blocks: seq<bv32>, n: int, sub: int, i: int, k: int)
    requires 0 <= n && 16 * n <= |blocks| && 0 <= sub < 4 && 0 <= i < n && 0 <= k < 4
    ensures CopyRow(blocks, n, sub)[4 * i + k] == blocks[16 * i + 4 * sub + k]
    decreases n
  {
    if i < n - 1 {
      CopyRowAt(blocks, n - 1, sub, i, k);
    }
  }

  /**
   * Writing a block of 16 texels at `n` and nothing else, after a prefix
   * of `n` texels, extends that prefix by the block.
   */
  lemma WriteExtendsPrefix(before: seq<bv32>, after: seq<bv32>, n: int, block: seq<bv32>)
    requires |before| == |after| && 0 <= n && n + 16 <= |after| && after[n..n + 16] == block
    requires forall k | 0 <= k < |after| && !(n <= k < n + 16) :: after[k] == before[k]
    ensures after[..n + 16] == before[..n] + block
  {
    assert after[..n] == before[..n];
    assert after[..n + 16] == after[..n] + after[n..n + 16];
  }

  /** `n` zero texels: the part of `IntArray(lineWidth)` no copy reaches. */
  function Zeros(n: nat): seq<bv32> {
    seq(n, _ => 0)
  }

  /** The number of blocks the copy loop runs over: `blockWidth`, or none when it is not positive. */
  function CopiedBlocks(c: DXTConfig): int {
    if c.blockWidth > 0 then c.blockWidth else 0
  }

  /**
   * `decodeDataLine`: the result and the state after it. A block row is
   * loaded and decoded when `curLine % 4 == 0`; the line array is then
   * allocated, and the copy of block `i` throws
   * `IndexOutOfBoundsException` when its four texels pass the end of the
   * line, leaving `curLine` as it was.
   */
  function DecodeStep(c: DXTConfig, s: DXTState): (r: (Result<seq<bv32>>, DXTState))
    requires ValidState(c, s)
    ensures ValidState(c, r.1)
    ensures r.0.Ok? ==> |r.0.value| == c.lineWidth
  {
    if s.curLine >= c.maxLine then (Err(NoSuchElement), s)
    else
      var sub := s.curLine % 4;
      var (loaded, t) := if sub == 0 then LoadNextBlocksLineStep(c, s) else (Pass, s);
      if loaded.Fail? then (Err(loaded.error), t)
      else
        var u := if sub == 0 then DecodeBlocksStep(c, t) else t;
        var n := CopiedBlocks(c);
        if c.lineWidth < 0 then (Err(NegativeArraySize), u)
        else if 4 * n > c.lineWidth then (Err(IndexOutOfBounds), u)
        else (Ok(CopyRow(u.blocks, n, sub) + Zeros(c.lineWidth - 4 * n)), u.(curLine := s.curLine + 1))
  }

  /** `n` calls of `decodeDataLine` in a row: what each returned, and the state after the last. */
  function Run(c: DXTConfig, s: DXTState, n: nat): (r: (seq<Result<seq<bv32>>>, DXTState))
    requires ValidState(c, s)
    ensures |r.0| == n && ValidState(c, r.1)
    decreases n
  {
    if n == 0 then ([], s)
    else
      var (line, t) := DecodeStep(c, s);
      var (lines, u) := Run(c, t, n - 1);
      ([line] + lines, u)
  }

  /**
   * `init` either fails or yields a valid configuration: the allocation of
   * a negative `16 * blockWidth` or `8 * blockWidth` (after wrap-around)
   * throws, and when both are allowed and there are blocks in a row,
   * neither product wrapped.
   */
  lemma ConfigGeometry(dds: C.DDSRef)
    requires 0 <= ConfigOf(dds).cacheSize && 0 <= ConfigOf(dds).blockBytes
    ensures ValidConfig(ConfigOf(dds))
  {
    var c := ConfigOf(dds);
    var bw := c.blockWidth;
    var x := Add32(dds.header.dwWidth, 3);
    assert IsInt(x);
    if 0 < bw {
      assert bw < 0x2000_0000;
      if bw < 0x800_0000 {
        assert IsInt(8 * bw) && IsInt(16 * bw);
      } else if bw < 0x1000_0000 {
        WrapOnce(16 * bw);
      } else {
        WrapOnce(8 * bw);
      }
    }
  }

  /** A product that passes the top of the `Int` range once wraps to a negative value. */
  lemma WrapOnce(x: int)
    requires TWO_31 <= x < TWO_32
    ensures Wrap32(x) == x - TWO_32 && Wrap32(x) < 0
  {
  }

  /** Past the last line every call throws and changes nothing. */
  lemma Exhausted(c: DXTConfig, s: DXTState)
    requires ValidState(c, s) && !HasNext(c, s)
    ensures DecodeStep(c, s) == (Err(NoSuchElement), s)
  {
  }

  /**
   * A call succeeds exactly when a line is left, the block row it needs
   * (if any) lies inside the payload, and the line is not negative and
   * holds the four texels of every block; success moves to the next line,
   * failure leaves `curLine` as it was.
   */
  lemma DecodeStepOk(c: DXTConfig, s: DXTState)
    requires ValidState(c, s)
    ensures var (r, t) := DecodeStep(c, s);
      && (r.Ok? <==> && HasNext(c, s)
                     && (s.curLine % 4 == 0 ==> 0 <= s.pos && s.pos + c.blockBytes <= |c.bdata|)
                     && 0 <= c.lineWidth && 4 * CopiedBlocks(c) <= c.lineWidth)
      && (r.Ok? ==> t.curLine == s.curLine + 1)
      && (r.Err? ==> t.curLine == s.curLine)
  {
  }

  /**
   * A block row is loaded exactly on the calls where `curLine % 4 == 0`:
   * then `pos` advances by `blockBytes`, `curBlock` by one, and the cache
   * holds that row of the payload; on the other calls neither moves.
   */
  lemma LoadsEveryFourthLine(c: DXTConfig, s: DXTState)
    requires ValidState(c, s) && HasNext(c, s)
    ensures var (r, t) := DecodeStep(c, s);
      && (s.curLine % 4 != 0 ==> t.pos == s.pos && t.curBlock == s.curBlock && t.lineCache == s.lineCache && t.blocks == s.blocks)
      && (s.curLine % 4 == 0 && r.Ok? ==>
            && t.pos == s.pos + c.blockBytes && t.curBlock == s.curBlock + 1
            && t.lineCache == c.bdata[s.pos..s.pos + c.blockBytes])
  {
  }

  /**
   * A successful call with blocks in a row copies line `curLine % 4` of
   * the decoded block row and pads with zeros, and leaves the cache
   * holding the decoding of the loaded row.
   */
  lemma StepCopiesDecodedRow(c: DXTConfig, s: DXTState)
    requires ValidState(c, s) && 0 < c.blockWidth
    requires s.curLine % 4 == 0 || s.blocks == DecodeBlockRow(s.lineCache, c.blockWidth)
    ensures var (r, t) := DecodeStep(c, s);
      r.Ok? ==> && t.blocks == DecodeBlockRow(t.lineCache, c.blockWidth)
                && 4 * c.blockWidth <= c.lineWidth
                && r.value == CopyRow(t.blocks, c.blockWidth, s.curLine % 4) + Zeros(c.lineWidth - 4 * c.blockWidth)
  {
    DecodeStepOk(c, s);
    if s.curLine < c.maxLine && 0 <= c.lineWidth && 4 * c.blockWidth <= c.lineWidth {
      var sub := s.curLine % 4;
      if sub == 0 {
        var (loaded, t) := LoadNextBlocksLineStep(c, s);
        if loaded.Pass? {
          var u := DecodeBlocksStep(c, t);
          assert u.blocks == DecodeBlockRow(u.lineCache, c.blockWidth);
          assert DecodeStep(c, s).1.blocks == u.blocks && DecodeStep(c, s).1.lineCache == u.lineCache;
          assert DecodeStep(c, s).0 == Ok(CopyRow(u.blocks, c.blockWidth, 0) + Zeros(c.lineWidth - 4 * c.blockWidth));
        }
      } else {
        assert DecodeStep(c, s).1.blocks == s.blocks && DecodeStep(c, s).1.lineCache == s.lineCache;
        assert DecodeStep(c, s).0 == Ok(CopyRow(s.blocks, c.blockWidth, sub) + Zeros(c.lineWidth - 4 * c.blockWidth));
      }
    }
  }

  /**
   * The texels of a line: on a successful call with blocks in a row,
   * texel `4 * i + k` of the line is texel `k` of line `curLine % 4` of
   * block `i`, decoded from the block row in the cache.
   */
  lemma LineTexels(c: DXTConfig, s: DXTState, i: int, k: int)
    requires ValidState(c, s) && 0 < c.blockWidth && 0 <= i < c.blockWidth && 0 <= k < 4
    requires s.curLine % 4 == 0 || s.blocks == DecodeBlockRow(s.lineCache, c.blockWidth)
    ensures var (r, t) := DecodeStep(c, s);
      r.Ok? ==> && t.blocks == DecodeBlockRow(t.lineCache, c.blockWidth)
                && r.value[4 * i + k] == BC.BC1Block(t.lineCache, 8 * i)[4 * (s.curLine % 4) + k]
  {
    StepCopiesDecodedRow(c, s);
    var (r, t) := DecodeStep(c, s);
    if r.Ok? {
      RowTexel(t.lineCache, c.blockWidth, s.curLine % 4, c.lineWidth - 4 * c.blockWidth, i, k);
    }
  }

  /** Texel `4 * i + k` of a copied line of a decoded row, padded with zeros. */
  lemma RowTexel(cache: seq<bv8>, n: int, sub: int, pad: nat, i: int, k: int)
    requires 0 <= n && 8 * n <= |cache| && 0 <= sub < 4 && 0 <= i < n && 0 <= k < 4
    ensures (CopyRow(DecodeBlockRow(cache, n), n, sub) + Zeros(pad))[4 * i + k] == BC.BC1Block(cache, 8 * i)[4 * sub + k]
  {
    var blocks := DecodeBlockRow(cache, n);
    CopyRowAt(blocks, n, sub, i, k);
    DecodeBlockRowAt(cache, n, i, 4 * sub + k);
    assert CopyRow(blocks, n, sub)[4 * i + k] == blocks[16 * i + 4 * sub + k];
  }

  /**
   * A line too narrow for the blocks of a row: on a call that loads a
   * block row from inside the payload, the copy overruns the line, so the
   * call throws `IndexOutOfBoundsException` after the load; `curLine`
   * stays put while `pos` and `curBlock` have moved.
   */
  lemma OverrunAfterLoad(c: DXTConfig, s: DXTState)
    requires ValidState(c, s) && HasNext(c, s) && 0 <= c.lineWidth < 4 * CopiedBlocks(c)
    requires s.curLine % 4 == 0 && 0 <= s.pos && s.pos + c.blockBytes <= |c.bdata|
    ensures var (r, t) := DecodeStep(c, s);
      && r == Err(IndexOutOfBounds) && t.curLine == s.curLine
      && t.pos == s.pos + c.blockBytes && t.curBlock == s.curBlock + 1
  {
    var (loaded, t) := LoadNextBlocksLineStep(c, s);
    assert loaded == Pass;
    var u := DecodeBlocksStep(c, t);
    assert u.curLine == s.curLine && u.pos == s.pos + c.blockBytes && u.curBlock == s.curBlock + 1;
    assert DecodeStep(c, s) == (Err(IndexOutOfBounds), u);
  }

  /**
   * A width of at least one texel that is not a multiple of four leaves
   * the last block's four texels partly past the end of the line.
   */
  lemma RaggedWidth(dds: C.DDSRef)
    requires 0 < dds.header.dwWidth < 0x7FFF_FFFC && dds.header.dwWidth % 4 != 0
    ensures var c := ConfigOf(dds); 0 <= c.lineWidth < 4 * CopiedBlocks(c)
  {
    var w := dds.header.dwWidth;
    assert Add32(w, 3) == w + 3;
    assert ConfigOf(dds).blockWidth == (w + 3) / 4;
  }

  /**
   * From width 0x1FFFFFFD up to 0x7FFFFFFC, `16 * blockWidth` or
   * `8 * blockWidth` wraps to a negative `Int`, so one of the two cache
   * allocations throws `NegativeArraySizeException` and the decoder is
   * never built (`DXT1DDSDecoder.Create` fails exactly then).
   */
  lemma WideWidthUnbuildable(dds: C.DDSRef)
    requires 0x1FFF_FFFD <= dds.header.dwWidth <= 0x7FFF_FFFC
    ensures ConfigOf(dds).cacheSize < 0 || ConfigOf(dds).blockBytes < 0
  {
    var w := dds.header.dwWidth;
    assert Add32(w, 3) == w + 3;
    var bw := (w + 3) / 4;
    assert ConfigOf(dds).blockWidth == bw;
    assert 0x800_0000 <= bw <= 0x1FFF_FFFF;
    if bw < 0x1000_0000 {
      assert Mul32(16, bw) == 16 * bw - TWO_32;
    } else if bw < 0x1800_0000 {
      assert Mul32(BC.DXGI_FORMAT_BC1_DXT1_BLOCK_SIZE_BYTES, bw) == 8 * bw - TWO_32;
    } else {
      assert Mul32(16, bw) == 16 * bw - 2 * TWO_32;
    }
  }

  /**
   * A width that is not a multiple of four, with blocks in a row: the
   * last block's copy overruns the line, so the call throws
   * `IndexOutOfBoundsException` after the block row was loaded, and
   * `curLine` stays put while `pos` and `curBlock` have moved.
   */
  lemma RaggedWidthFails(dds: C.DDSRef, s: DXTState)
    requires ValidState(ConfigOf(dds), s) && HasNext(ConfigOf(dds), s)
    requires 0 < dds.header.dwWidth < 0x7FFF_FFFC && dds.header.dwWidth % 4 != 0
    requires s.curLine % 4 == 0 && 0 <= s.pos && s.pos + ConfigOf(dds).blockBytes <= |dds.bdata|
    ensures var (r, t) := DecodeStep(ConfigOf(dds), s);
      && r == Err(IndexOutOfBounds) && t.curLine == s.curLine
      && t.pos == s.pos + ConfigOf(dds).blockBytes && t.curBlock == s.curBlock + 1
  {
    RaggedWidth(dds);
    OverrunAfterLoad(ConfigOf(dds), s);
  }

  /** With a width of at least one texel, every line copies whole blocks exactly when the width is a multiple of four. */
  lemma WholeBlocks(dds: C.DDSRef)
    requires 0 < dds.header.dwWidth < 0x7FFF_FFFC
    ensures var c := ConfigOf(dds); 4 * CopiedBlocks(c) <= c.lineWidth <==> c.lineWidth % 4 == 0
  {
    var w := dds.header.dwWidth;
    assert Add32(w, 3) == w + 3;
  }

  /**
   * The block cursor: `pos` is `curBlock` block rows into the payload, and
   * `curBlock` is the number of block rows the lines so far needed.
   */
  predicate Synced(c: DXTConfig, s: DXTState) {
    s.pos == s.curBlock * c.blockBytes && s.curBlock == (s.curLine + 3) / 4
  }

  /** A successful call keeps the block cursor in step with the line. */
  lemma StepKeepsSynced(c: DXTConfig, s: DXTState)
    requires ValidState(c, s) && Synced(c, s)
    ensures var (r, t) := DecodeStep(c, s); r.Ok? ==> Synced(c, t)
  {
    DecodeStepOk(c, s);
    var (r, t) := DecodeStep(c, s);
    if r.Ok? {
      LoadsEveryFourthLine(c, s);
      SyncedAdvance(c, s, t);
    }
  }

  /** One more line keeps the cursor synced when a block row is loaded exactly at the start of a block row. */
  lemma SyncedAdvance(c: DXTConfig, s: DXTState, t: DXTState)
    requires Synced(c, s) && t.curLine == s.curLine + 1
    requires s.curLine % 4 == 0 ==> t.pos == s.pos + c.blockBytes && t.curBlock == s.curBlock + 1
    requires s.curLine % 4 != 0 ==> t.pos == s.pos && t.curBlock == s.curBlock
    ensures Synced(c, t)
  {
    if s.curLine % 4 == 0 {
      assert (s.curLine + 1 + 3) / 4 == (s.curLine + 3) / 4 + 1;
      assert t.pos == (s.curBlock + 1) * c.blockBytes;
    } else {
      assert (s.curLine + 1 + 3) / 4 == (s.curLine + 3) / 4;
    }
  }

  /**
   * From a synced state over a payload that holds the block rows of all
   * `maxLine` lines, with a width whose blocks fit the line, the next `n`
   * calls (up to `maxLine`) all succeed and leave the cursor synced.
   */
  lemma {:induction false} RunSucceeds(c: DXTConfig, s: DXTState, n: nat)
    requires ValidState(c, s) && Synced(c, s) && s.curLine + n <= c.maxLine
    requires 0 <= c.lineWidth && 4 * CopiedBlocks(c) <= c.lineWidth
    requires (c.maxLine + 3) / 4 * c.blockBytes <= |c.bdata|
    ensures var (lines, t) := Run(c, s, n);
      && t.curLine == s.curLine + n && Synced(c, t)
      && forall i | 0 <= i < n :: lines[i].Ok?
    decreases n
  {
    if n > 0 {
      StepSucceeds(c, s);
      var (line, t) := DecodeStep(c, s);
      RunSucceeds(c, t, n - 1);
      var (lines, u) := Run(c, t, n - 1);
      assert Run(c, s, n) == ([line] + lines, u);
      forall i | 0 <= i < n
        ensures ([line] + lines)[i].Ok?
      {
        if i > 0 {
          assert ([line] + lines)[i] == lines[i - 1];
        }
      }
    }
  }

  /** One call of `RunSucceeds`: it succeeds and keeps the cursor synced. */
  lemma StepSucceeds(c: DXTConfig, s: DXTState)
    requires ValidState(c, s) && Synced(c, s) && s.curLine < c.maxLine
    requires 0 <= c.lineWidth && 4 * CopiedBlocks(c) <= c.lineWidth
    requires (c.maxLine + 3) / 4 * c.blockBytes <= |c.bdata|
    ensures var (r, t) := DecodeStep(c, s); r.Ok? && t.curLine == s.curLine + 1 && Synced(c, t)
  {
    if s.curLine % 4 == 0 {
      BlockRowInPayload(c, s);
    }
    DecodeStepOk(c, s);
    StepKeepsSynced(c, s);
  }

  /** On a synced cursor, the block row a line starting a block row loads lies inside a payload that holds all `maxLine` lines. */
  lemma BlockRowInPayload(c: DXTConfig, s: DXTState)
    requires ValidState(c, s) && Synced(c, s) && s.curLine < c.maxLine && s.curLine % 4 == 0
    requires (c.maxLine + 3) / 4 * c.blockBytes <= |c.bdata|
    ensures 0 <= s.pos && s.pos + c.blockBytes <= |c.bdata|
  {
    assert s.curBlock == s.curLine / 4 && s.curBlock + 1 <= (c.maxLine + 3) / 4;
    MulMonotone(s.curBlock + 1, (c.maxLine + 3) / 4, c.blockBytes);
    assert s.pos + c.blockBytes == (s.curBlock + 1) * c.blockBytes;
  }

  /** A sequence is its prefix and its suffix at any cut. */
  lemma SplitAt<T>(s: seq<T>, k: int)
    requires 0 <= k <= |s|
    ensures s == s[..k] + s[k..]
  {
  }

  lemma MulMonotone(a: int, b: int, n: int)
    requires 0 <= a <= b && 0 <= n
    ensures 0 <= a * n <= b * n
  {
  }

  /** The bytes of block row `k / 4` of the payload, which lines `k - k % 4` to `k - k % 4 + 3` decode. */
  function BlockRowBytes(c: DXTConfig, k: int): (row: seq<bv8>)
    requires ValidConfig(c) && 0 <= k < 4 * ((c.maxLine + 3) / 4) && (c.maxLine + 3) / 4 * c.blockBytes <= |c.bdata|
    ensures |row| == c.blockBytes
  {
    BlockRowBounds(c, k);
    c.bdata[k / 4 * c.blockBytes..(k / 4 + 1) * c.blockBytes]
  }

  /**
   * Line `k` of the image as the decoder yields it: line `k % 4` of block
   * row `k / 4` of the payload, decoded, padded with zeros to the width.
   */
  function BlockRowLine(c: DXTConfig, k: int): (line: seq<bv32>)
    requires ValidConfig(c) && 0 < c.blockWidth && 4 * c.blockWidth <= c.lineWidth
    requires 0 <= k < c.maxLine && (c.maxLine + 3) / 4 * c.blockBytes <= |c.bdata|
    ensures |line| == c.lineWidth
  {
    CopyRow(DecodeBlockRow(BlockRowBytes(c, k), c.blockWidth), c.blockWidth, k % 4)
      + Zeros(c.lineWidth - 4 * c.blockWidth)
  }

  /** Block row `k / 4` lies inside a payload that holds the block rows of all `maxLine` lines. */
  lemma BlockRowBounds(c: DXTConfig, k: int)
    requires ValidConfig(c) && 0 <= k < 4 * ((c.maxLine + 3) / 4) && (c.maxLine + 3) / 4 * c.blockBytes <= |c.bdata|
    ensures 0 <= k / 4 * c.blockBytes
    ensures k / 4 * c.blockBytes + c.blockBytes == (k / 4 + 1) * c.blockBytes <= |c.bdata|
  {
    MulMonotone(k / 4, k / 4 + 1, c.blockBytes);
    MulMonotone(k / 4 + 1, (c.maxLine + 3) / 4, c.blockBytes);
  }

  /**
   * Between the first and the last line of a block row, the caches hold
   * that row of the payload and its decoding.
   */
  predicate CachedRow(c: DXTConfig, s: DXTState)
    requires ValidState(c, s)
  {
    s.curLine % 4 != 0 ==>
      && 0 < c.blockWidth && s.curLine < 4 * ((c.maxLine + 3) / 4) && (c.maxLine + 3) / 4 * c.blockBytes <= |c.bdata|
      && s.lineCache == BlockRowBytes(c, s.curLine)
      && s.blocks == DecodeBlockRow(s.lineCache, c.blockWidth)
  }

  /** On a synced cursor whose caches hold the current block row, a call returns line `curLine` of the image. */
  lemma StepDecodesBlockRow(c: DXTConfig, s: DXTState)
    requires ValidState(c, s) && Synced(c, s) && CachedRow(c, s) && s.curLine < c.maxLine
    requires 0 < c.blockWidth && 4 * c.blockWidth <= c.lineWidth
    requires (c.maxLine + 3) / 4 * c.blockBytes <= |c.bdata|
    ensures DecodeStep(c, s).0 == Ok(BlockRowLine(c, s.curLine))
  {
    StepKeepsRow(c, s);
    StepCopiesDecodedRow(c, s);
    var (r, t) := DecodeStep(c, s);
    assert r.value == BlockRowLine(c, s.curLine);
  }

  /** The same call keeps the cursor synced and the caches holding the row of the next line. */
  lemma StepKeepsRow(c: DXTConfig, s: DXTState)
    requires ValidState(c, s) && Synced(c, s) && CachedRow(c, s) && s.curLine < c.maxLine
    requires 0 < c.blockWidth && 4 * c.blockWidth <= c.lineWidth
    requires (c.maxLine + 3) / 4 * c.blockBytes <= |c.bdata|
    ensures var (r, t) := DecodeStep(c, s);
      && r.Ok? && t.curLine == s.curLine + 1 && Synced(c, t) && CachedRow(c, t)
      && t.lineCache == BlockRowBytes(c, s.curLine) && t.blocks == DecodeBlockRow(t.lineCache, c.blockWidth)
  {
    StepSucceeds(c, s);
    LoadsEveryFourthLine(c, s);
    StepCopiesDecodedRow(c, s);
    var (r, t) := DecodeStep(c, s);
    CachedRowAdvance(c, s, t);
  }

  /**
   * The caches after a call that loads a block row on lines `k` with
   * `k % 4 == 0` and keeps it otherwise hold the row of line `k`, and
   * still hold it for the next line unless that one starts a new row.
   */
  lemma CachedRowAdvance(c: DXTConfig, s: DXTState, t: DXTState)
    requires ValidState(c, s) && ValidState(c, t) && Synced(c, s) && CachedRow(c, s)
    requires 0 < c.blockWidth && s.curLine < c.maxLine && (c.maxLine + 3) / 4 * c.blockBytes <= |c.bdata|
    requires t.curLine == s.curLine + 1 && t.blocks == DecodeBlockRow(t.lineCache, c.blockWidth)
    requires s.curLine % 4 == 0 ==> 0 <= s.pos && s.pos + c.blockBytes <= |c.bdata| && t.lineCache == c.bdata[s.pos..s.pos + c.blockBytes]
    requires s.curLine % 4 != 0 ==> t.lineCache == s.lineCache
    ensures t.lineCache == BlockRowBytes(c, s.curLine)
    ensures CachedRow(c, t)
  {
    var k := s.curLine;
    LoadedRow(c, s, t);
    if (k + 1) % 4 != 0 {
      assert (k + 1) / 4 == k / 4;
      SameBlockRow(c, k, k + 1);
    }
  }

  /** The row the caches hold after a call on line `k` is block row `k / 4`. */
  lemma LoadedRow(c: DXTConfig, s: DXTState, t: DXTState)
    requires ValidState(c, s) && ValidState(c, t) && Synced(c, s) && CachedRow(c, s)
    requires 0 < c.blockWidth && s.curLine < c.maxLine && (c.maxLine + 3) / 4 * c.blockBytes <= |c.bdata|
    requires s.curLine % 4 == 0 ==> 0 <= s.pos && s.pos + c.blockBytes <= |c.bdata| && t.lineCache == c.bdata[s.pos..s.pos + c.blockBytes]
    requires s.curLine % 4 != 0 ==> t.lineCache == s.lineCache
    ensures t.lineCache == BlockRowBytes(c, s.curLine)
  {
    var k := s.curLine;
    if k % 4 == 0 {
      BlockRowBounds(c, k);
      assert s.curBlock == k / 4;
      assert BlockRowBytes(c, k) == c.bdata[s.pos..s.pos + c.blockBytes];
    }
  }

  /** Two lines of the same block row read the same bytes. */
  lemma SameBlockRow(c: DXTConfig, j: int, k: int)
    requires ValidConfig(c) && 0 <= j < 4 * ((c.maxLine + 3) / 4) && 0 <= k && j / 4 == k / 4
    requires (c.maxLine + 3) / 4 * c.blockBytes <= |c.bdata|
    ensures k < 4 * ((c.maxLine + 3) / 4) && BlockRowBytes(c, j) == BlockRowBytes(c, k)
  {
  }

  /**
   * From a synced state whose caches hold the current block row, the
   * next `n` calls (up to `maxLine`) return lines `curLine`, `curLine + 1`,
   * … of the image in order: line `k` each decoded from its own block row.
   */
  lemma {:induction false} RunLineAt(c: DXTConfig, s: DXTState, n: nat, k: int)
    requires ValidState(c, s) && Synced(c, s) && CachedRow(c, s) && s.curLine + n <= c.maxLine
    requires 0 < c.blockWidth && 4 * c.blockWidth <= c.lineWidth
    requires (c.maxLine + 3) / 4 * c.blockBytes <= |c.bdata|
    requires s.curLine <= k < s.curLine + n
    ensures Run(c, s, n).0[k - s.curLine] == Ok(BlockRowLine(c, k))
    decreases n
  {
    var t := DecodeStep(c, s).1;
    assert Run(c, s, n).0 == [DecodeStep(c, s).0] + Run(c, t, n - 1).0;
    if k == s.curLine {
      assert Run(c, s, n).0[k - s.curLine] == DecodeStep(c, s).0;
      StepDecodesBlockRow(c, s);
    } else {
      StepSucceeds(c, s);
      assert Run(c, s, n).0[k - s.curLine] == Run(c, t, n - 1).0[k - t.curLine];
      StepKeepsRow(c, s);
      RunLineAt(c, t, n - 1, k);
    }
  }

  /**
   * Without a block in a row (width 0, or a width whose `+ 3` wraps and
   * makes `blockWidth` negative) the copy loop never runs: every line a
   * run returns is `lineWidth` zeros.
   */
  lemma {:induction false} RunWithoutBlocks(c: DXTConfig, s: DXTState, n: nat)
    requires ValidState(c, s) && c.blockWidth <= 0
    ensures forall i | 0 <= i < n :: Run(c, s, n).0[i].Ok? ==>
      0 <= c.lineWidth && Run(c, s, n).0[i].value == Zeros(c.lineWidth)
    decreases n
  {
    if n > 0 {
      var t := DecodeStep(c, s).1;
      RunWithoutBlocks(c, t, n - 1);
      assert Run(c, s, n).0 == [DecodeStep(c, s).0] + Run(c, t, n - 1).0;
    }
  }

  /**
   * All lines decode: from a fresh decoder over a payload of
   * `(maxLine + 3) / 4` block rows, with a width whose blocks fit the
   * line, the first `maxLine` calls succeed, each returning its own line
   * of the image in order (all zeros when a row has no block), and the
   * next one finds no line left.
   */
  lemma AllLinesDecode(c: DXTConfig)
    requires ValidConfig(c) && 0 <= c.maxLine
    requires 0 <= c.lineWidth && 4 * CopiedBlocks(c) <= c.lineWidth
    requires (c.maxLine + 3) / 4 * c.blockBytes <= |c.bdata|
    ensures var (lines, t) := Run(c, InitialState(c), c.maxLine);
      && (forall i | 0 <= i < c.maxLine :: lines[i].Ok?)
      && (0 < c.blockWidth ==> forall i | 0 <= i < c.maxLine :: lines[i] == Ok(BlockRowLine(c, i)))
      && (c.blockWidth <= 0 ==> forall i | 0 <= i < c.maxLine :: lines[i] == Ok(Zeros(c.lineWidth)))
      && !HasNext(c, t) && DecodeStep(c, t).0 == Err(NoSuchElement)
  {
    RunSucceeds(c, InitialState(c), c.maxLine);
    if 0 < c.blockWidth {
      forall i | 0 <= i < c.maxLine
        ensures Run(c, InitialState(c), c.maxLine).0[i] == Ok(BlockRowLine(c, i))
      {
        RunLineAt(c, InitialState(c), c.maxLine, i);
      }
    } else {
      RunWithoutBlocks(c, InitialState(c), c.maxLine);
    }
  }

  /**
   * The payload `read` allocates for a DXT1 surface holds exactly the
   * `maxBlock` block rows the decoder loads, when the sizes do not wrap.
   */
  lemma PayloadHoldsBlockRows(dds: C.DDSRef)
    requires C.PF.DDPF_FOURCC in dds.header.ddspf.dwFlags && dds.header.ddspf.dwFourCC == C.DXT1_FOUR_CC
    requires 0 <= dds.header.dwWidth < 0x7FFF_FFFC && 0 <= dds.header.dwHeight < 0x7FFF_FFFC
    requires (dds.header.dwWidth + 3) / 4 * ((dds.header.dwHeight + 3) / 4) * 8 < TWO_31
    ensures C.CalcCompressedDataSize(dds.header) == Ok(ConfigOf(dds).maxBlock * ConfigOf(dds).blockBytes)
  {
    var h := dds.header;
    C.BlocksCoverImage(h.dwWidth);
    C.BlocksCoverImage(h.dwHeight);
    var bw, bh := C.BlockCount(h.dwWidth), C.BlockCount(h.dwHeight);
    assert bw == (h.dwWidth + 3) / 4 && bh == (h.dwHeight + 3) / 4;
    C.CompressedSizeNoWrap(h, 8);
    assert ConfigOf(dds).maxBlock == bh;
    assert C.CalcCompressedDataSize(h) == Ok(bw * bh * 8);
    var bb := ConfigOf(dds).blockBytes;
    RowsTimesRowBytes(bw, bh, bb);
    if 0 < bh {
      assert IsInt(8 * bw);
    }
  }

  /** `bw * bh * 8` regrouped as `bh` block rows of `8 * bw` bytes each. */
  lemma RowsTimesRowBytes(bw: int, bh: int, bb: int)
    requires 0 <= bw && 0 <= bh
    ensures 0 < bh ==> 8 * bw <= bw * bh * 8 && bw * bh * 8 == bh * (8 * bw)
    ensures bh == 0 ==> bw * bh * 8 == bh * bb
  {
    if 0 < bh {
      MulMonotone(1, bh, bw);
    }
  }

  /**
   * `DXT1DDSDecoder`: the geometry `init` fixes, the two caches, and the
   * line and block cursors.
   */
  class DXT1DDSDecoder {
    const bdata: seq<bv8>
    const maxLine: int
    const lineWidth: int
    const maxBlock: int
    const blockWidth: int
    const blockBytes: int
    const blocksCache: array<bv32>
    const blocksLineCache: array<bv8>
    var curLine: int
    var curBlock: int
    var pos: int

    function Config(): DXTConfig {
      DXTConfig(bdata, maxLine, lineWidth, maxBlock, blockWidth, blockBytes, blocksCache.Length)
    }

    function State(): DXTState
      reads this, blocksLineCache, blocksCache
    {
      DXTState(curLine, curBlock, pos, blocksLineCache[..], blocksCache[..])
    }

    predicate Valid()
      reads this, blocksLineCache, blocksCache
    {
      blocksLineCache.Length == blockBytes && ValidState(Config(), State())
    }

    /** The part of `init` after both lengths were checked. */
    constructor (c: DXTConfig)
      requires ValidConfig(c)
      ensures Valid() && Config() == c && State() == InitialState(c)
      ensures fresh(blocksCache) && fresh(blocksLineCache)
    {
      bdata, maxLine, lineWidth, maxBlock := c.bdata, c.maxLine, c.lineWidth, c.maxBlock;
      blockWidth, blockBytes := c.blockWidth, c.blockBytes;
      blocksCache := new bv32[c.cacheSize](_ => 0);
      blocksLineCache := new bv8[c.blockBytes](_ => 0);
      curLine, curBlock, pos := 0, 0, 0;
    }

    /**
     * `DXT1DDSDecoder(dds)`: `IntArray(16 * blockWidth)` and then
     * `ByteArray(blockBytes)` throw `NegativeArraySizeException` for a
     * negative length.
     */
    static method Create(dds: C.DDSRef) returns (r: Result<DXT1DDSDecoder>)
      ensures r.Err? <==> ConfigOf(dds).cacheSize < 0 || ConfigOf(dds).blockBytes < 0
      ensures r.Err? ==> r.error == NegativeArraySize
      ensures r.Ok? ==> && fresh(r.value) && fresh(r.value.blocksCache) && fresh(r.value.blocksLineCache)
                        && r.value.Valid() && r.value.Config() == ConfigOf(dds)
                        && r.value.State() == InitialState(ConfigOf(dds))
    {
      var c := ConfigOf(dds);
      if c.cacheSize < 0 {
        return Err(NegativeArraySize);
      }
      if c.blockBytes < 0 {
        return Err(NegativeArraySize);
      }
      ConfigGeometry(dds);
      var decoder := new DXT1DDSDecoder(c);
      return Ok(decoder);
    }

    /** The iterator's `hasNext`. */
    predicate HasNextLine()
      reads this
    {
      curLine < maxLine
    }

    /** `decodeDataLine`. */
    method DecodeDataLine() returns (r: Result<seq<bv32>>)
      requires Valid()
      modifies this, blocksLineCache, blocksCache
      ensures Valid()
      ensures (r, State()) == DecodeStep(Config(), old(State()))
    {
      if curLine >= maxLine {
        return Err(NoSuchElement);
      }
      var subLine := curLine % 4;
      if subLine == 0 {
        var loaded := LoadNextBlocksLine();
        if loaded.Fail? {
          return Err(loaded.error);
        }
        DecodeBlocksLine();
      }
      if lineWidth < 0 {
        return Err(NegativeArraySize);
      }
      var line := new bv32[lineWidth](_ => 0);
      var copied := CopyBlockRows(line, subLine);
      if copied.Fail? {
        return Err(copied.error);
      }
      curLine := curLine + 1;
      return Ok(line[..]);
    }

    /** `loadNextBlocksLine`. */
    method LoadNextBlocksLine() returns (o: Outcome)
      requires Valid()
      modifies this, blocksLineCache
      ensures Valid()
      ensures (o, State()) == LoadNextBlocksLineStep(Config(), old(State()))
    {
      if pos < 0 || pos + blockBytes > |bdata| {
        return Fail(IndexOutOfBounds);
      }
      forall i | 0 <= i < blockBytes {
        blocksLineCache[i] := bdata[pos + i];
      }
      pos := pos + blockBytes;
      curBlock := curBlock + 1;
      assert blocksLineCache[..] == bdata[old(pos)..pos];
      assert blocksCache[..] == old(blocksCache[..]);
      return Pass;
    }

    /** The loop after a load: `decompressBC1DXT1DataBlock` on block `index` into texels `16 * index` on. */
    method DecodeBlocksLine()
      requires Valid()
      modifies blocksCache
      ensures Valid()
      ensures State() == DecodeBlocksStep(Config(), old(State()))
    {
      var bytes := blocksLineCache[..];
      var index := 0;
      while index < blockWidth
        invariant 0 <= index <= CopiedBlocks(Config()) && Valid() && blocksLineCache[..] == bytes
        invariant blocksCache[..16 * index] == DecodeBlockRow(bytes, index)
        invariant index == 0 ==> blocksCache[..] == old(blocksCache[..])
      {
        DecodeBlockAt(index, bytes);
        index := index + 1;
      }
      if 0 < blockWidth {
        assert blocksCache[..] == blocksCache[..16 * blockWidth];
      }
    }

    /** One pass of that loop: block `index` of the cached row decoded into texels `16 * index` on. */
    method DecodeBlockAt(index: int, ghost bytes: seq<bv8>)
      requires Valid() && 0 <= index < blockWidth && blocksLineCache[..] == bytes
      requires blocksCache[..16 * index] == DecodeBlockRow(bytes, index)
      modifies blocksCache
      ensures Valid() && blocksLineCache[..] == bytes
      ensures blocksCache[..16 * (index + 1)] == DecodeBlockRow(bytes, index + 1)
    {
      ghost var before := blocksCache[..];
      var offset, destOffset := index * BC.DXGI_FORMAT_BC1_DXT1_BLOCK_SIZE_BYTES, index * 16;
      BC.DecompressBC1DXT1DataBlock(blocksLineCache, offset, blocksCache, destOffset);
      WriteExtendsPrefix(before, blocksCache[..], destOffset, BC.BC1Block(blocksLineCache[..], offset));
      assert offset == 8 * index;
      DecodeBlockRowSnoc(bytes, index);
    }

    /** `arraycopy(src, srcPos, dst, dstPos, 4)` between distinct arrays, within both bounds. */
    static method CopyFour(src: array<bv32>, srcPos: int, dst: array<bv32>, dstPos: int)
      requires src != dst && 0 <= srcPos && srcPos + 4 <= src.Length && 0 <= dstPos && dstPos + 4 <= dst.Length
      modifies dst
      ensures dst[..dstPos + 4] == old(dst[..dstPos]) + src[srcPos..srcPos + 4]
      ensures dst[dstPos + 4..] == old(dst[dstPos + 4..])
    {
      forall k | 0 <= k < 4 {
        dst[dstPos + k] := src[srcPos + k];
      }
    }

    /**
     * The copy loop: `arraycopy(blocksCache, p, line, i * 4, 4)` for each
     * block `i`, with `p` stepping by 16 from `subLine * 4`; the copy
     * throws `IndexOutOfBoundsException` once four texels no longer fit
     * the line (the source range always fits the cache).
     */
    method CopyBlockRows(line: array<bv32>, subLine: int) returns (o: Outcome)
      requires Valid() && 0 <= subLine < 4 && line != blocksCache && line[..] == Zeros(line.Length)
      modifies line
      ensures 4 * CopiedBlocks(Config()) > line.Length ==> o == Fail(IndexOutOfBounds)
      ensures 4 * CopiedBlocks(Config()) <= line.Length ==>
        o == Pass && line[..] == CopyRow(blocksCache[..], CopiedBlocks(Config()), subLine) + Zeros(line.Length - 4 * CopiedBlocks(Config()))
    {
      ghost var n := CopiedBlocks(Config());
      ghost var cache := blocksCache[..];
      var p := subLine * 4;
      var i := 0;
      while i < blockWidth
        invariant 0 <= i <= n && 4 * i <= line.Length && p == subLine * 4 + 16 * i
        invariant Valid() && blocksCache[..] == cache
        invariant line[..4 * i] == CopyRow(cache, i, subLine)
        invariant line[4 * i..] == Zeros(line.Length - 4 * i)
      {
        if i * 4 + 4 > line.Length {
          return Fail(IndexOutOfBounds);
        }
        CopyBlockAt(line, subLine, i, p);
        p := p + 16;
        i := i + 1;
      }
      SplitAt(line[..], 4 * i);
      return Pass;
    }

    /** One pass of that loop: line `subLine` of block `i` into texels `4 * i` on, which the line holds. */
    method CopyBlockAt(line: array<bv32>, subLine: int, i: int, p: int)
      requires Valid() && 0 <= subLine < 4 && line != blocksCache
      requires 0 <= i < blockWidth && 4 * i + 4 <= line.Length && p == subLine * 4 + 16 * i
      requires line[..4 * i] == CopyRow(blocksCache[..], i, subLine)
      requires line[4 * i..] == Zeros(line.Length - 4 * i)
      modifies line
      ensures line[..4 * (i + 1)] == CopyRow(blocksCache[..], i + 1, subLine)
      ensures line[4 * (i + 1)..] == Zeros(line.Length - 4 * (i + 1))
    {
      ghost var cache := blocksCache[..];
      ghost var rest := line[4 * i..];
      CopyFour(blocksCache, p, line, i * 4);
      assert line[4 * (i + 1)..] == rest[4..] == Zeros(line.Length - 4 * (i + 1));
      assert blocksCache[p..p + 4] == cache[16 * i + 4 * subLine..16 * i + 4 * subLine + 4];
      assert CopyRow(cache, i + 1, subLine) == CopyRow(cache, i, subLine) + cache[16 * i + 4 * subLine..16 * i + 4 * subLine + 4];
    }
  }
}
