/**
 Java `long` values as their 64 two's-complement bits.

 Java's `>>>` is Dafny's `>>` on `bv64`; Java's `<<` is Dafny's `<<` once the
 distance is reduced to its low six bits; Java's `>>` copies the sign bit and is
 `Shr` below. Shift distances are bit-vectors too, so that the solver never has
 to convert between integers and bit-vectors.
 */
module JavaLong {

  type Long = bv64

  /**
   A shift distance. Java only uses a distance's low six bits, and 64 divides
   128, so a seven-bit counter that wraps keeps exactly the bits that matter.
   */
  type Distance = bv7

  const SignBit: Long := 0x8000_0000_0000_0000

  predicate IsNegative(x: Long) {
    x & SignBit != 0
  }

  /** Java `x > 0` on a signed long. */
  predicate IsPositive(x: Long) {
    x != 0 && !IsNegative(x)
  }

  /** Java `x >> d` (arithmetic shift): a negative value is filled with ones from the left. */
  function Shr(x: Long, d: Long): Long {
    if IsNegative(x) then !((!x) >> (d & 63)) else x >> (d & 63)
  }

  /** Below bit 64 - d, the arithmetic and the logical right shift agree. */
  lemma ShrLowBitsAreUshr(x: Long)
    ensures Shr(x, 36) & 0x3FFF == (x >> 36) & 0x3FFF
    ensures Shr(x, 32) & 0xF == (x >> 32) & 0xF
  {
    SignFillIsHigh(x);
    if IsNegative(x) {
      assert Shr(x, 36) == !((!x) >> 36);
      assert Shr(x, 32) == !((!x) >> 32);
    } else {
      assert Shr(x, 36) == x >> 36;
      assert Shr(x, 32) == x >> 32;
    }
  }

  lemma SignFillIsHigh(x: Long)
    ensures (!((!x) >> 36)) & 0x3FFF == (x >> 36) & 0x3FFF
    ensures (!((!x) >> 32)) & 0xF == (x >> 32) & 0xF
  {
  }

  lemma OrRegroup(a: Long, b: Long, c: Long)
    ensures a | (b | c) == (a | b) | c
  {
  }

  lemma OrCommutes(a: Long, b: Long)
    ensures a | b == b | a
  {
  }

  lemma OrZero(a: Long)
    ensures a | 0 == a
  {
  }

  /** A long is its low five bits joined with the rest shifted back into place. */
  lemma LowGroupAndRest(y: Long)
    ensures (y & 31) | ((y >> 5) << 5) == y
  {
  }
}
