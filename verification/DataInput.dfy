/**
 * The input side of the reader: a `DataInputStream` over the bytes of a
 * DDS file, modelled as the whole byte sequence plus a read cursor.
 *
 * The DDS format stores every 32-bit field little-endian, while
 * `DataInputStream.readInt` assembles a big-endian word; the reader undoes
 * that with `Integer.reverseBytes`. `LeWordAt` is the value that results.
 */
module DataInput {
  import opened KotlinInt
  import opened Errors

  /** The little-endian 32-bit field stored at `s[k..k+4]`. */
  function LeWordAt(s: seq<bv8>, k: int): bv32
    requires 0 <= k && k + 4 <= |s|
  {
    LittleEndian32(s[k], s[k + 1], s[k + 2], s[k + 3])
  }

  /** The four bytes a little-endian field `w` is stored as (the writer's side of `LeWordAt`). */
  function LeBytes(w: bv32): (r: seq<bv8>)
    ensures |r| == 4
  {
    [(w & 0xFF) as bv8, ((w >> 8) & 0xFF) as bv8, ((w >> 16) & 0xFF) as bv8, (w >> 24) as bv8]
  }

  /** A field stored as `LeBytes(w)` reads back as `w`. */
  lemma LeWordAtBytes(s: seq<bv8>, k: int, w: bv32)
    requires 0 <= k && k + 4 <= |s|
    requires s[k..k + 4] == LeBytes(w)
    ensures LeWordAt(s, k) == w
  {
    assert s[k] == s[k..k + 4][0];
    assert s[k + 1] == s[k..k + 4][1];
    assert s[k + 2] == s[k..k + 4][2];
    assert s[k + 3] == s[k..k + 4][3];
    LeBytesJoin(w);
  }

  /** A field keeps its value when the stream is looked at from an earlier point. */
  lemma LeWordAtSuffix(data: seq<bv8>, start: int, k: int)
    requires 0 <= start <= |data| && 0 <= k && start + k + 4 <= |data|
    ensures LeWordAt(data[start..], k) == LeWordAt(data, start + k)
  {
  }

  lemma LeBytesJoin(w: bv32)
    ensures LittleEndian32((w & 0xFF) as bv8, ((w >> 8) & 0xFF) as bv8, ((w >> 16) & 0xFF) as bv8, (w >> 24) as bv8) == w
  {
  }

  /**
   * `DataInputStream` over an in-memory file. `data` never changes; `pos`
   * is the number of bytes consumed so far.
   */
  class ByteInput {
    const data: seq<bv8>
    var pos: nat

    predicate Valid()
      reads this
    {
      pos <= |data|
    }

    constructor (data: seq<bv8>)
      ensures this.data == data && pos == 0
      ensures Valid()
    {
      this.data := data;
      pos := 0;
    }

    /** The bytes not yet consumed. */
    function Remaining(): (r: seq<bv8>)
      requires Valid()
      reads this
      ensures |r| == |data| - pos
    {
      data[pos..]
    }

    /**
     * `readInt`: four bytes, big-endian. At end of stream the four single-byte
     * reads have drained whatever was left and `EOFException` is thrown.
     */
    method ReadInt() returns (r: Result<bv32>)
      requires Valid()
      modifies this
      ensures Valid()
      ensures old(pos) + 4 <= |data| ==>
        r == Ok(BigEndian32(data[old(pos)], data[old(pos) + 1], data[old(pos) + 2], data[old(pos) + 3]))
        && pos == old(pos) + 4
      ensures old(pos) + 4 > |data| ==> r == Err(EOF) && pos == |data|
    {
      if pos + 4 > |data| {
        pos := |data|;
        return Err(EOF);
      }
      r := Ok(BigEndian32(data[pos], data[pos + 1], data[pos + 2], data[pos + 3]));
      pos := pos + 4;
    }

    /** `reverseBytes(readInt())`: the next little-endian field. */
    method ReadLeInt() returns (r: Result<bv32>)
      requires Valid()
      modifies this
      ensures Valid()
      ensures old(pos) + 4 <= |data| ==> r == Ok(LeWordAt(data, old(pos))) && pos == old(pos) + 4
      ensures old(pos) + 4 > |data| ==> r == Err(EOF) && pos == |data|
    {
      var w :- ReadInt();
      ReadLeWord(data, pos - 4);
      return Ok(ReverseBytes(w));
    }

    /**
     * `readFully(b)`: fills `b` from the stream. When fewer than `b.Length`
     * bytes remain, the ones that are left land at the front of `b`, the
     * stream is drained and `EOFException` is thrown.
     */
    method ReadFully(b: array<bv8>) returns (r: Outcome)
      requires Valid()
      modifies this, b
      ensures Valid()
      ensures old(pos) + b.Length <= |data| ==>
        r == Pass && pos == old(pos) + b.Length && b[..] == data[old(pos)..pos]
      ensures old(pos) + b.Length > |data| ==>
        r == Fail(EOF) && pos == |data|
        && b[..|data| - old(pos)] == data[old(pos)..]
        && b[|data| - old(pos)..] == old(b[..])[|data| - old(pos)..]
    {
      var start := pos;
      var n := if start + b.Length <= |data| then b.Length else |data| - start;
      for i := 0 to n
        invariant b[..i] == data[start..start + i]
        invariant forall k :: i <= k < b.Length ==> b[k] == old(b[k])
      {
        b[i] := data[start + i];
        assert b[..i + 1] == data[start..start + i + 1];
      }
      pos := start + n;
      if n < b.Length {
        r := Fail(EOF);
      } else {
        r := Pass;
      }
    }
  }

  /** `reverseBytes(readInt())` on the stream yields the little-endian field. */
  lemma ReadLeWord(s: seq<bv8>, k: int)
    requires 0 <= k && k + 4 <= |s|
    ensures ReverseBytes(BigEndian32(s[k], s[k + 1], s[k + 2], s[k + 3])) == LeWordAt(s, k)
  {
    ReverseBigEndian(s[k], s[k + 1], s[k + 2], s[k + 3]);
  }
}
