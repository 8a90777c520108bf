/**
 * `get_send_string` (meta.js): encode a string, one UTF-16 code unit at a
 * time, with the one-, two- and three-byte layouts of UTF-8 (section 3 of
 * RFC 3629), then frame the bytes. A surrogate code unit is encoded on its
 * own as three bytes (the CESU-8 treatment), never paired into four.
 *
 * Code units are the values `charCodeAt` returns, 0 to 0xFFFF. On such
 * non-negative operands the source's bit operations are arithmetic:
 * `c >> k` is `c / 2^k`, `m & y` with `m = 2^j - 1` is `y % 2^j`, and
 * `a | y` with `y` below the lowest set bit of `a` is `a + y`.
 */
module Utf8 {
  import opened Wrappers
  import opened JsNumbers
  import Framing

  type CodeUnit = x: int | 0 <= x < 0x1_0000

  /** `192 | (31 & (c >> 6))`: 110 followed by bits 6 to 10 of c. */
  function LeadOfTwo(c: CodeUnit): (r: int)
    ensures 0xC0 <= r < 0xE0
    ensures c <= 0x7FF ==> r - 0xC0 == c / 64
  {
    0xC0 + (c / 64) % 32
  }

  /** `224 | (15 & (c >> 12))`: 1110 followed by bits 12 to 15 of c. */
  function LeadOfThree(c: CodeUnit): (r: int)
    ensures 0xE0 <= r < 0xF0
    ensures r - 0xE0 == c / 4096
  {
    0xE0 + (c / 4096) % 16
  }

  /** `128 | (63 & x)`: 10 followed by the low six bits of x. */
  function Continuation(x: nat): (r: int)
    ensures IsContinuation(r)
    ensures (x - (r - 0x80)) % 64 == 0
  {
    0x80 + x % 64
  }

  /** A continuation byte: 10xxxxxx. */
  predicate IsContinuation(b: int) { 0x80 <= b < 0xC0 }

  /**
   * The numbers the first loop of `get_send_string` pushes for one code
   * unit: one byte for c <= 0x7F, 110xxxxx 10xxxxxx for c <= 0x7FF, and
   * 1110xxxx 10xxxxxx 10xxxxxx otherwise, the x bits holding c.
   */
  function UnitBits(c: CodeUnit): (r: seq<int>)
    ensures forall k :: 0 <= k < |r| ==> 0 <= r[k] < 0x100
    ensures c <= 0x7F ==> r == [c]
    ensures 0x7F < c <= 0x7FF ==>
      && |r| == 2 && 0xC0 <= r[0] < 0xE0 && IsContinuation(r[1])
      && (r[0] - 0xC0) * 64 + (r[1] - 0x80) == c
    ensures 0x7FF < c ==>
      && |r| == 3 && 0xE0 <= r[0] < 0xF0 && IsContinuation(r[1]) && IsContinuation(r[2])
      && (r[0] - 0xE0) * 4096 + (r[1] - 0x80) * 64 + (r[2] - 0x80) == c
  {
    if c <= 0x7F then [c]
    else if c <= 0x7FF then
      TwoByteLayout(c);
      [LeadOfTwo(c), Continuation(c)]
    else
      ThreeByteLayout(c);
      [LeadOfThree(c), Continuation(c / 64), Continuation(c)]
  }

  lemma TwoByteLayout(c: CodeUnit)
    requires 0x7F < c <= 0x7FF
    ensures 0xC0 <= LeadOfTwo(c) < 0xE0 && IsContinuation(Continuation(c))
    ensures (LeadOfTwo(c) - 0xC0) * 64 + (Continuation(c) - 0x80) == c
  {
    assert c / 64 < 32;
  }

  lemma ThreeByteLayout(c: CodeUnit)
    requires 0x7FF < c
    ensures 0xE0 <= LeadOfThree(c) < 0xF0 && IsContinuation(Continuation(c / 64)) && IsContinuation(Continuation(c))
    ensures (LeadOfThree(c) - 0xE0) * 4096 + (Continuation(c / 64) - 0x80) * 64 + (Continuation(c) - 0x80) == c
  {
    var hi, mid, lo := c / 4096, (c / 64) % 64, c % 64;
    assert c / 64 == 64 * hi + mid;
    assert c == 4096 * hi + 64 * mid + lo;
  }

  /** The bytes of a Uint8Array built from numbers: each reduced modulo 256. */
  function ToUint8Array(xs: seq<int>): (r: seq<byte>)
    ensures |r| == |xs|
    ensures forall k :: 0 <= k < |xs| ==> r[k] == xs[k] % 256
  {
    if xs == [] then [] else [ToUint8(xs[0])] + ToUint8Array(xs[1..])
  }

  /** The bytes one code unit becomes on the wire: its numbers, which the truncation to bytes leaves alone. */
  function EncodeUnit(c: CodeUnit): (r: seq<byte>)
    ensures r == UnitBits(c)
    ensures 1 <= |r| <= 3
  {
    ToUint8Array(UnitBits(c))
  }

  /** The encoded bytes of a whole string: the units' encodings in order. */
  function Encode(s: seq<CodeUnit>): seq<byte>
  {
    if s == [] then [] else EncodeUnit(s[0]) + Encode(s[1..])
  }

  /** Encoding a string extended by one unit extends its encoding by that unit's bytes. */
  lemma {:induction false} EncodeSnoc(s: seq<CodeUnit>, c: CodeUnit)
    ensures Encode(s + [c]) == Encode(s) + EncodeUnit(c)
  {
    if s == [] {
      assert [c][1..] == [];
    } else {
      assert (s + [c])[1..] == s[1..] + [c];
      EncodeSnoc(s[1..], c);
    }
  }

  /**
   * A decoder for these byte sequences: the partner that shows the encoding
   * loses nothing. A byte below 0x80 is a unit on its own; 110xxxxx and
   * 1110xxxx lead two- and three-byte sequences of continuation bytes.
   */
  function Decode(b: seq<byte>): Option<seq<CodeUnit>>
    decreases |b|
  {
    if b == [] then Some([])
    else match DecodeFirst(b)
      case None => None
      case Some((c, n)) => Prepend(c, Decode(b[n..]))
  }

  /** The first code unit of a non-empty byte sequence and the number of bytes it takes. */
  function DecodeFirst(b: seq<byte>): (r: Option<(CodeUnit, nat)>)
    requires b != []
    ensures r.Some? ==> 1 <= r.value.1 <= |b|
  {
    var b0, b1, b2 := b[0] as int, if |b| > 1 then b[1] as int else 0, if |b| > 2 then b[2] as int else 0;
    if b0 < 0x80 then Some((b0, 1))
    else if 0xC0 <= b0 < 0xE0 && |b| >= 2 && IsContinuation(b1) then
      Some(((b0 - 0xC0) * 64 + (b1 - 0x80), 2))
    else if 0xE0 <= b0 < 0xF0 && |b| >= 3 && IsContinuation(b1) && IsContinuation(b2) then
      Some(((b0 - 0xE0) * 4096 + (b1 - 0x80) * 64 + (b2 - 0x80), 3))
    else None
  }

  function Prepend(c: CodeUnit, rest: Option<seq<CodeUnit>>): Option<seq<CodeUnit>>
  {
    if rest.Some? then Some([c] + rest.value) else None
  }

  /** The encoding of one unit, followed by anything, decodes to that unit first. */
  lemma DecodeFirstUnit(c: CodeUnit, rest: seq<byte>)
    ensures DecodeFirst(EncodeUnit(c) + rest) == Some((c, |EncodeUnit(c)|))
  {
    var b := EncodeUnit(c) + rest;
    assert b[0] == UnitBits(c)[0];
    if 0x7F < c {
      assert b[1] == UnitBits(c)[1];
    }
    if 0x7FF < c {
      assert b[2] == UnitBits(c)[2];
    }
  }

  /** Decoding the encoding of one unit followed by any bytes peels that unit off. */
  lemma DecodeUnitPrefix(c: CodeUnit, rest: seq<byte>)
    ensures Decode(EncodeUnit(c) + rest) == Prepend(c, Decode(rest))
  {
    var e := EncodeUnit(c);
    assert (e + rest)[|e|..] == rest;
    DecodeFirstUnit(c, rest);
  }

  /** Every string is recovered from its encoding: no two strings share one. */
  lemma {:induction false} DecodeEncode(s: seq<CodeUnit>)
    ensures Decode(Encode(s)) == Some(s)
  {
    if s != [] {
      DecodeUnitPrefix(s[0], Encode(s[1..]));
      DecodeEncode(s[1..]);
      assert [s[0]] + s[1..] == s;
    }
  }

  /** A string's encoding has one to three bytes per code unit. */
  lemma {:induction false} EncodeLength(s: seq<CodeUnit>)
    ensures |s| <= |Encode(s)| <= 3 * |s|
  {
    if s != [] {
      EncodeLength(s[1..]);
    }
  }

  /**
   * The first loop of `get_send_string`: append each unit's numbers to
   * `back` and count them in `total`.
   */
  method CollectUnits(str: seq<CodeUnit>) returns (back: seq<int>, total: nat)
    ensures total == |back|
    ensures back == Encode(str)
  {
    total := 0;
    back := [];
    var i := 0;
    while i < |str|
      invariant 0 <= i <= |str|
      invariant total == |back|
      invariant back == Encode(str[..i])
    {
      var c := str[i];
      AppendUnit(str, i);
      if c <= 0x7F {
        total := total + 1;
        back := back + [c];
      } else if c <= 0x7FF {
        total := total + 2;
        back := back + [LeadOfTwo(c), Continuation(c)];
      } else {
        total := total + 3;
        back := back + [LeadOfThree(c), Continuation(c / 64), Continuation(c)];
      }
      i := i + 1;
    }
    assert str[..i] == str;
  }

  /** One step of the first loop: the encoding of one more unit is the old encoding followed by that unit's numbers. */
  lemma AppendUnit(str: seq<CodeUnit>, i: nat)
    requires i < |str|
    ensures Encode(str[..i + 1]) == Encode(str[..i]) + UnitBits(str[i])
    ensures UnitBits(str[i]) == if str[i] <= 0x7F then [str[i]]
      else if str[i] <= 0x7FF then [LeadOfTwo(str[i]), Continuation(str[i])]
      else [LeadOfThree(str[i]), Continuation(str[i] / 64), Continuation(str[i])]
  {
    EncodeSnoc(str[..i], str[i]);
    assert str[..i + 1] == str[..i] + [str[i]];
  }

  /** The second loop of `get_send_string`: `back[i] &= 0xff` for every element, in place. */
  method MaskToBytes(a: array<int>)
    modifies a
    ensures forall k :: 0 <= k < a.Length ==> a[k] == old(a[k]) % 256
  {
    var i := 0;
    while i < a.Length
      invariant 0 <= i <= a.Length
      invariant forall k :: 0 <= k < i ==> a[k] == old(a[k]) % 256
      invariant forall k :: i <= k < a.Length ==> a[k] == old(a[k])
    {
      a[i] := BitAnd255(a[i]);
      i := i + 1;
    }
  }

  /** Masking and truncating numbers that are already bytes leaves them as they are. */
  lemma {:induction false} MaskedBytesUnchanged(back: seq<byte>, masked: seq<int>)
    requires |masked| == |back| && forall k :: 0 <= k < |back| ==> masked[k] == back[k] % 256
    ensures ToUint8Array(masked) == back
  {
    if back != [] {
      MaskedBytesUnchanged(back[1..], masked[1..]);
    }
  }

  /**
   * `get_send_string`: the encoded bytes, masked to eight bits, framed with
   * their count. The command name and timestamp serve only the debug log
   * and are left out.
   */
  method GetSendString(str: seq<CodeUnit>) returns (frame: seq<byte>)
    ensures frame == Framing.GetSendBuffer(Encode(str))
  {
    var back, total := CollectUnits(str);
    var masked := new int[|back|](k requires 0 <= k < |back| => back[k]);
    MaskToBytes(masked);
    MaskedBytesUnchanged(back, masked[..]);
    frame := Framing.LengthPrefix(total) + ToUint8Array(masked[..]);
  }
}
