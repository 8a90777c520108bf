/**
 * The JavaScript number conversions the framing code relies on: the
 * ToInt32 conversion every bitwise operator applies to its operands, the
 * arithmetic right shift and mask built on it, and the ToUint8 truncation a
 * Uint8Array applies to each element it is constructed from.
 */
module JsNumbers {
  /** The value of one element of a Uint8Array. */
  type byte = x: int | 0 <= x < 0x100

  const TwoTo31: int := 0x8000_0000
  const TwoTo32: int := 0x1_0000_0000

  /** ToInt32: wrap an integer into the signed 32-bit range. */
  function ToInt32(x: int): (r: int)
    ensures -TwoTo31 <= r < TwoTo31
    ensures (x - r) % TwoTo32 == 0
  {
    var m := x % TwoTo32;
    if m >= TwoTo31 then m - TwoTo32 else m
  }

  /** `x >> 8`: arithmetic (sign-propagating) shift of the 32-bit value. */
  function ShiftRight8(x: int): (r: int)
    ensures -0x80_0000 <= r < 0x80_0000
    ensures 0 <= x < TwoTo31 ==> r == x / 256
  {
    ToInt32(x) / 256
  }

  /** `x & 0xff`: the low eight bits of the 32-bit two's complement value. */
  function BitAnd255(x: int): (r: byte)
    ensures r == x % 256
  {
    var q := (x - ToInt32(x)) / TwoTo32;
    ByteOfShiftedMultiple(ToInt32(x), q);
    ToInt32(x) % 256
  }

  /** ToUint8: the value an element of a Uint8Array takes when assigned `x` (reduction modulo 256). */
  function ToUint8(x: int): (r: byte)
    ensures (x - r) % 256 == 0
    ensures 0 <= x < 256 ==> r == x
  {
    x % 256
  }

  /** Adding a multiple of 2^32 changes neither the low byte nor the next one. */
  lemma {:induction false} ByteOfShiftedMultiple(a: int, q: int)
    ensures ((a + TwoTo32 * q) / 256) % 256 == (a / 256) % 256
    ensures (a + TwoTo32 * q) % 256 == a % 256
  {
    var b, r := a / 256, a % 256;
    assert a == 256 * b + r && 0 <= r < 256;
    assert a + TwoTo32 * q == 256 * (b + 0x100_0000 * q) + r;
    assert (a + TwoTo32 * q) / 256 == b + 0x100_0000 * q;
    assert b + 0x100_0000 * q == b + 256 * (0x1_0000 * q);
  }

  /** For every integer, `x >> 8` truncated to a byte is its second-lowest byte, and `x & 0xff` its lowest. */
  lemma {:induction false} ShiftAndMaskBytes(x: int)
    ensures ToUint8(ShiftRight8(x)) == (x / 256) % 256
    ensures ToUint8(BitAnd255(x)) == x % 256
  {
    var r := ToInt32(x);
    var q := (x - r) / TwoTo32;
    assert x == r + TwoTo32 * q;
    ByteOfShiftedMultiple(r, q);
  }
}
