/**
 * Kotlin `Int` and `Byte` semantics on the JVM, as the DDS reader and the
 * decoders use them.
 *
 * A Kotlin `Int` is a 32-bit two's-complement word. Where the code only
 * masks and shifts it, the model keeps it as a `bv32`; where the code does
 * signed arithmetic on it (image sizes, widths, counters) the model keeps
 * its signed value as an `int` in [-2^31, 2^31) and writes the wrap-around
 * of `+` and `*` out explicitly.
 */
module KotlinInt {

  const TWO_31: int := 0x8000_0000
  const TWO_32: int := 0x1_0000_0000

  /** The values a Kotlin `Int` can hold. */
  predicate IsInt(x: int) {
    -0x8000_0000 <= x < 0x8000_0000
  }

  /** Reduces an unbounded integer to the Kotlin `Int` with the same low 32 bits. */
  function Wrap32(x: int): (r: int)
    ensures IsInt(r)
    ensures (r - x) % TWO_32 == 0
    ensures IsInt(x) ==> r == x
  {
    (x + TWO_31) % TWO_32 - TWO_31
  }

  /** Kotlin `a + b` on `Int`. */
  function Add32(a: int, b: int): int {
    Wrap32(a + b)
  }

  /** Kotlin `a * b` on `Int`. */
  function Mul32(a: int, b: int): int {
    Wrap32(a * b)
  }

  /** Kotlin `a / d` on `Int` for a positive divisor: rounds toward zero. */
  function TDiv(a: int, d: int): (r: int)
    requires d > 0
    ensures a >= 0 ==> r == a / d
    ensures a < 0 ==> r == -((-a) / d)
  {
    if a >= 0 then a / d else -((-a) / d)
  }

  /** The signed value of a 32-bit word. */
  function ToInt(x: bv32): (r: int)
    ensures IsInt(r)
  {
    if x < 0x8000_0000 then x as int else x as int - 0x1_0000_0000
  }

  /** Kotlin `Byte.toInt()`: sign extension of a byte to a word. */
  function SignExtend(b: bv8): bv32 {
    if b < 0x80 then b as bv32 else (b as bv32) | 0xFFFF_FF00
  }

  /** Kotlin `x shr n`: arithmetic shift (copies the sign bit); the JVM uses only the low five bits of the count. */
  function Shr(x: bv32, n: bv32): bv32 {
    var k := n & 31;
    if x & 0x8000_0000 == 0 then x >> k else !((!x) >> k)
  }

  /**
   * `Integer.numberOfTrailingZeros`, by the JDK's binary search: 32 for a
   * zero word (`TrailingZerosCount` says what it counts).
   */
  function NumberOfTrailingZeros(i: bv32): (r: bv32)
    ensures r <= 32
  {
    if i == 0 then 32
    else
      var n0: bv32 := 31;
      var y1 := i << 16;
      var n1, x1 := if y1 != 0 then n0 - 16 else n0, if y1 != 0 then y1 else i;
      var y2 := x1 << 8;
      var n2, x2 := if y2 != 0 then n1 - 8 else n1, if y2 != 0 then y2 else x1;
      var y3 := x2 << 4;
      var n3, x3 := if y3 != 0 then n2 - 4 else n2, if y3 != 0 then y3 else x2;
      var y4 := x3 << 2;
      var n4, x4 := if y4 != 0 then n3 - 2 else n3, if y4 != 0 then y4 else x3;
      n4 - ((x4 << 1) >> 31)
  }

  /**
   * The count is the number of zero bits below the lowest set bit: bit `r`
   * is set and shifting the word left by `32 - r` clears it.
   */
  lemma TrailingZerosCount(x: bv32)
    ensures x == 0 <==> NumberOfTrailingZeros(x) == 32
    ensures x != 0 ==> var r := NumberOfTrailingZeros(x);
      (x >> r) & 1 == 1 && x << (32 - r) == 0
  {
  }

  /**
   * `Integer.reverseBytes`: the DDS reader reads each field big-endian with
   * `DataInputStream.readInt` and then reverses its bytes.
   */
  function ReverseBytes(x: bv32): bv32 {
    ((x >> 24) & 0xFF) | ((x >> 8) & 0xFF00) | ((x << 8) & 0xFF_0000) | (x << 24)
  }

  /** The big-endian word `DataInputStream.readInt` assembles from four bytes. */
  function BigEndian32(b0: bv8, b1: bv8, b2: bv8, b3: bv8): bv32 {
    (b0 as bv32 << 24) | (b1 as bv32 << 16) | (b2 as bv32 << 8) | b3 as bv32
  }

  /** The little-endian word of four bytes, as the DDS format stores its fields. */
  function LittleEndian32(b0: bv8, b1: bv8, b2: bv8, b3: bv8): bv32 {
    b0 as bv32 | (b1 as bv32 << 8) | (b2 as bv32 << 16) | (b3 as bv32 << 24)
  }

  /** Reversing the bytes of the big-endian read gives the little-endian value. */
  lemma ReverseBigEndian(b0: bv8, b1: bv8, b2: bv8, b3: bv8)
    ensures ReverseBytes(BigEndian32(b0, b1, b2, b3)) == LittleEndian32(b0, b1, b2, b3)
  {
  }

  /** The little-endian word lets each byte be read back from its position. */
  lemma LittleEndianBytes(b0: bv8, b1: bv8, b2: bv8, b3: bv8)
    ensures LittleEndian32(b0, b1, b2, b3) & 0xFF == b0 as bv32
    ensures (LittleEndian32(b0, b1, b2, b3) >> 8) & 0xFF == b1 as bv32
    ensures (LittleEndian32(b0, b1, b2, b3) >> 16) & 0xFF == b2 as bv32
    ensures LittleEndian32(b0, b1, b2, b3) >> 24 == b3 as bv32
  {
  }
}
