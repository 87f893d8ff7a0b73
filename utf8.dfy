/**
 * UTF-8 (RFC 3629): how `Buffer.from(text)` turns text into bytes, and the
 * strict decoder a receiver applies to get the text back.
 */
module Utf8 {
  import opened Wrappers

  type Byte = b: int | 0 <= b < 256

  /** A continuation byte `10xxxxxx` carrying the six bits `v`. */
  function Cont(v: int): Byte
    requires 0 <= v < 64
  {
    0x80 + v
  }

  predicate IsCont(b: Byte) {
    0x80 <= b < 0xC0
  }

  /** The one to four bytes of one code point, by the table of section 3 of RFC 3629. */
  function EncodeChar(c: char): (r: seq<Byte>)
    ensures 1 <= |r| <= 4
    ensures |r| == 1 <==> c as int < 0x80
  {
    var n := c as int;
    var n1 := n / 64;
    var n2 := n1 / 64;
    if n < 0x80 then [n]
    else if n < 0x800 then [0xC0 + n1, Cont(n % 64)]
    else if n < 0x10000 then [0xE0 + n2, Cont(n1 % 64), Cont(n % 64)]
    else [0xF0 + n2 / 64, Cont(n2 % 64), Cont(n1 % 64), Cont(n % 64)]
  }

  /** The bytes of a text: the bytes of its characters, in order. */
  function Encode(s: string): (r: seq<Byte>)
    ensures |r| >= |s|
    decreases |s|
  {
    if |s| == 0 then [] else EncodeChar(s[0]) + Encode(s[1..])
  }

  /** Encoding commutes with concatenation. */
  lemma {:induction false} EncodeConcat(a: string, b: string)
    ensures Encode(a + b) == Encode(a) + Encode(b)
    decreases |a|
  {
    if |a| > 0 {
      assert (a + b)[0] == a[0] && (a + b)[1..] == a[1..] + b;
      EncodeConcat(a[1..], b);
    } else {
      assert a + b == b;
    }
  }

  /** Text made only of ASCII characters is encoded one byte per character, by its code. */
  lemma {:induction false} AsciiIdentity(s: string)
    requires forall k :: 0 <= k < |s| ==> s[k] as int < 0x80
    ensures |Encode(s)| == |s|
    ensures forall k :: 0 <= k < |s| ==> Encode(s)[k] == s[k] as int
    decreases |s|
  {
    if |s| > 0 {
      AsciiIdentity(s[1..]);
    }
  }

  /** A code point that is a Unicode scalar value (no surrogate, at most U+10FFFF). */
  predicate IsScalar(n: int) {
    (0 <= n < 0xD800) || (0xE000 <= n < 0x11_0000)
  }

  /**
   * Decodes the first character of `bs`, with its byte length: the lead byte
   * gives the length, the rest must be continuation bytes, and the value must be
   * a scalar value in the range of that length (no overlong form).
   */
  function DecodeFirst(bs: seq<Byte>): (r: Option<(char, nat)>)
    ensures r.Some? ==> 1 <= r.value.1 <= |bs| && r.value.1 <= 4
  {
    if |bs| == 0 then None
    else
      var b0: int := bs[0];
      if b0 < 0x80 then Some((b0 as char, 1))
      else if 0xC0 <= b0 < 0xE0 && |bs| >= 2 && IsCont(bs[1]) then
        var n := (b0 - 0xC0) * 64 + (bs[1] as int - 0x80);
        if 0x80 <= n then Some((n as char, 2)) else None
      else if 0xE0 <= b0 < 0xF0 && |bs| >= 3 && IsCont(bs[1]) && IsCont(bs[2]) then
        var n := ((b0 - 0xE0) * 64 + (bs[1] as int - 0x80)) * 64 + (bs[2] as int - 0x80);
        if 0x800 <= n && IsScalar(n) then Some((n as char, 3)) else None
      else if 0xF0 <= b0 < 0xF8 && |bs| >= 4 && IsCont(bs[1]) && IsCont(bs[2]) && IsCont(bs[3]) then
        var n := (((b0 - 0xF0) * 64 + (bs[1] as int - 0x80)) * 64 + (bs[2] as int - 0x80)) * 64 + (bs[3] as int - 0x80);
        if 0x1_0000 <= n && IsScalar(n) then Some((n as char, 4)) else None
      else None
  }

  /** The text a byte sequence is the UTF-8 encoding of, if any. */
  function Decode(bs: seq<Byte>): Option<string>
    decreases |bs|
  {
    if |bs| == 0 then Some([])
    else
      match DecodeFirst(bs)
      case None => None
      case Some((c, len)) =>
        match Decode(bs[len..])
        case None => None
        case Some(rest) => Some([c] + rest)
  }

  /** The bytes of one character decode back to it, whatever follows them. */
  lemma DecodeEncodeChar(c: char, tail: seq<Byte>)
    ensures DecodeFirst(EncodeChar(c) + tail) == Some((c, |EncodeChar(c)|))
  {
    var n := c as int;
    var n1 := n / 64;
    var n2 := n1 / 64;
    var bs := EncodeChar(c) + tail;
    if n < 0x80 {
    } else if n < 0x800 {
      assert bs[0] == 0xC0 + n1 && bs[1] == 0x80 + n % 64;
    } else if n < 0x1_0000 {
      assert bs[0] == 0xE0 + n2 && bs[1] == 0x80 + n1 % 64 && bs[2] == 0x80 + n % 64;
    } else {
      assert bs[0] == 0xF0 + n2 / 64 && bs[1] == 0x80 + n2 % 64 && bs[2] == 0x80 + n1 % 64 && bs[3] == 0x80 + n % 64;
    }
  }

  /** Decoding undoes encoding. */
  lemma {:induction false} DecodeEncode(s: string)
    ensures Decode(Encode(s)) == Some(s)
    decreases |s|
  {
    if |s| > 0 {
      var head := EncodeChar(s[0]);
      var rest := Encode(s[1..]);
      DecodeEncodeChar(s[0], rest);
      assert (head + rest)[|head|..] == rest;
      DecodeEncode(s[1..]);
      assert [s[0]] + s[1..] == s;
    }
  }
}
