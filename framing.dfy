/**
 * Outbound framing (meta.js `get_send_buffer`): a frame is a two-byte
 * big-endian length prefix followed by the payload. The prefix is built from
 * JavaScript numbers and then truncated by Uint8Array, so a payload of 65536
 * bytes or more gets the length modulo 65536.
 */
module Framing {
  import opened Wrappers
  import opened JsNumbers

  /** The unsigned 16-bit value of two bytes read big-endian. */
  function BigEndian16(hi: byte, lo: byte): (r: int)
    ensures 0 <= r < 0x1_0000
  {
    hi * 256 + lo
  }

  /**
   * The prefix `get_send_buffer` and `get_send_string` build: `[0, total]`
   * for a short payload and `[total >> 8, total & 0xff]` otherwise, each
   * element truncated to a byte.
   */
  function LengthPrefix(total: nat): (r: seq<byte>)
    ensures |r| == 2
    ensures r[0] == (total / 256) % 256 && r[1] == total % 256
    ensures BigEndian16(r[0], r[1]) == total % 0x1_0000
  {
    ShiftAndMaskBytes(total);
    BigEndianDigits(total);
    if total <= 0xFF then [ToUint8(0), ToUint8(total)]
    else [ToUint8(ShiftRight8(total)), ToUint8(BitAnd255(total))]
  }

  /** Splitting `n mod 65536` into its two base-256 digits. */
  lemma {:induction false} BigEndianDigits(n: nat)
    ensures ((n / 256) % 256) * 256 + n % 256 == n % 0x1_0000
  {
    var a, m := n / 0x1_0000, n % 0x1_0000;
    var h, l := m / 256, m % 256;
    assert n == 0x1_0000 * a + 256 * h + l;
    assert n == 256 * (256 * a + h) + l;
    assert n / 256 == 256 * a + h && n % 256 == l;
    assert (256 * a + h) % 256 == h;
  }

  /** A frame whose prefix states its remaining length is the frame of that remainder. */
  lemma PrefixDetermined(frame: seq<byte>)
    requires |frame| >= 2 && BigEndian16(frame[0], frame[1]) == |frame| - 2
    ensures LengthPrefix(|frame| - 2) + frame[2..] == frame
  {
    var n := |frame| - 2;
    DigitsOf(frame[0], frame[1]);
    assert LengthPrefix(n) == frame[..2];
  }

  /** The two base-256 digits of a big-endian 16-bit value are the bytes it was read from. */
  lemma {:induction false} DigitsOf(hi: byte, lo: byte)
    ensures ((hi * 256 + lo) / 256) % 256 == hi && (hi * 256 + lo) % 256 == lo
  {
    assert (hi * 256 + lo) / 256 == hi;
  }

  /** `get_send_buffer`: the frame that carries `buf`. */
  function GetSendBuffer(buf: seq<byte>): (frame: seq<byte>)
    ensures |frame| == 2 + |buf|
    ensures frame[2..] == buf
    ensures BigEndian16(frame[0], frame[1]) == |buf| % 0x1_0000
    ensures |buf| <= 0xFF ==> frame[0] == 0 && frame[1] == |buf|
  {
    LengthPrefix(|buf|) + buf
  }

  /**
   * A reader of such frames, the partner of `GetSendBuffer`: the payload of
   * a frame whose prefix states the number of bytes that follow it.
   */
  function ParseFrame(frame: seq<byte>): (r: Option<seq<byte>>)
    ensures r.Some? ==> GetSendBuffer(r.value) == frame
  {
    if |frame| >= 2 && BigEndian16(frame[0], frame[1]) == |frame| - 2 then
      PrefixDetermined(frame);
      Some(frame[2..])
    else None
  }

  /**
   * A frame is read back as its payload exactly when the payload is shorter
   * than 65536 bytes; a longer payload's prefix wraps and the frame is
   * unreadable.
   */
  lemma FrameRoundTrip(buf: seq<byte>)
    ensures ParseFrame(GetSendBuffer(buf)) == if |buf| < 0x1_0000 then Some(buf) else None
  {
  }
}
