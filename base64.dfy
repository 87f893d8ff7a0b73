/**
 * Base64 over bytes as section 4 of RFC 4648 defines it (the standard alphabet
 * of Table 1, '=' padding to a multiple of four characters), which is what
 * `Buffer.toString('base64')` produces, and the URL-safe form of section 5 with
 * the padding stripped, which is what a Gmail `raw` message field carries.
 */
module Base64 {
  import opened Wrappers
  import opened Utf8

  type Sextet = v: int | 0 <= v < 64

  predicate IsAlphabetChar(c: char) {
    ('A' <= c <= 'Z') || ('a' <= c <= 'z') || ('0' <= c <= '9') || c == '+' || c == '/'
  }

  /** The URL and filename safe alphabet of Table 2. */
  predicate IsUrlChar(c: char) {
    ('A' <= c <= 'Z') || ('a' <= c <= 'z') || ('0' <= c <= '9') || c == '-' || c == '_'
  }

  /** Table 1: the character of a six-bit value. */
  function Char(v: Sextet): (c: char)
    ensures IsAlphabetChar(c)
  {
    if v < 26 then ('A' as int + v) as char
    else if v < 52 then ('a' as int + (v - 26)) as char
    else if v < 62 then ('0' as int + (v - 52)) as char
    else if v == 62 then '+'
    else '/'
  }

  /** Table 1 read backwards: the six-bit value of a character. */
  function Value(c: char): (v: Sextet)
    requires IsAlphabetChar(c)
    ensures Char(v) == c
  {
    if 'A' <= c <= 'Z' then c as int - 'A' as int
    else if 'a' <= c <= 'z' then c as int - 'a' as int + 26
    else if '0' <= c <= '9' then c as int - '0' as int + 52
    else if c == '+' then 62
    else 63
  }

  /** Each value has its own character. */
  lemma ValueChar(v: Sextet)
    ensures Value(Char(v)) == v
  {
  }

  /** The characters of the encoding before padding: four per whole group of three bytes, then two or three for a last group of one or two. */
  function Unpadded(bs: seq<Byte>): (s: string)
    ensures |s| == 4 * (|bs| / 3) + (if |bs| % 3 == 0 then 0 else |bs| % 3 + 1)
    ensures forall k :: 0 <= k < |s| ==> IsAlphabetChar(s[k])
    decreases |bs|
  {
    if |bs| == 0 then []
    else if |bs| == 1 then [Char(bs[0] / 4), Char(bs[0] % 4 * 16)]
    else if |bs| == 2 then [Char(bs[0] / 4), Char(bs[0] % 4 * 16 + bs[1] / 16), Char(bs[1] % 16 * 4)]
    else EncodeGroup(bs[0], bs[1], bs[2]) + Unpadded(bs[3..])
  }

  /** The four characters of three bytes: their 24 bits cut into four six-bit values, high bits first. */
  function EncodeGroup(b0: Byte, b1: Byte, b2: Byte): (g: string)
    ensures |g| == 4 && forall k :: 0 <= k < 4 ==> IsAlphabetChar(g[k])
  {
    [Char(b0 / 4), Char(b0 % 4 * 16 + b1 / 16), Char(b1 % 16 * 4 + b2 / 64), Char(b2 % 64)]
  }

  /** The '=' characters that complete the last group to four characters. */
  function Padding(byteCount: nat): (p: string)
    ensures |p| <= 2 && forall k :: 0 <= k < |p| ==> p[k] == '='
  {
    if byteCount % 3 == 1 then "==" else if byteCount % 3 == 2 then "=" else ""
  }

  /** `Buffer.toString('base64')`. */
  function Encode(bs: seq<Byte>): (s: string)
    ensures |s| == 4 * ((|bs| + 2) / 3)
    ensures forall k :: 0 <= k < |s| ==> IsAlphabetChar(s[k]) || s[k] == '='
  {
    Unpadded(bs) + Padding(|bs|)
  }

  /**
   * One group of four characters; '=' may stand in the last one, or in the last
   * two, and then the group carries two or one bytes.
   */
  function DecodeGroup(a: char, b: char, c: char, d: char): (r: Option<seq<Byte>>)
    ensures r.Some? ==> 1 <= |r.value| <= 3
  {
    if !IsAlphabetChar(a) || !IsAlphabetChar(b) then None
    else
      var v0, v1 := Value(a), Value(b);
      if c == '=' && d == '=' then Some([v0 * 4 + v1 / 16])
      else if !IsAlphabetChar(c) then None
      else
        var v2 := Value(c);
        if d == '=' then Some([v0 * 4 + v1 / 16, v1 % 16 * 16 + v2 / 4])
        else if !IsAlphabetChar(d) then None
        else Some([v0 * 4 + v1 / 16, v1 % 16 * 16 + v2 / 4, v2 % 4 * 64 + Value(d)])
  }

  /** Decoding by section 4 of RFC 4648: whole groups of four characters, padding only in the last group. */
  function Decode(s: string): Option<seq<Byte>>
    decreases |s|
  {
    if |s| == 0 then Some([])
    else if |s| < 4 then None
    else
      match DecodeGroup(s[0], s[1], s[2], s[3])
      case None => None
      case Some(group) =>
        if |s| > 4 && |group| < 3 then None
        else
          match Decode(s[4..])
          case None => None
          case Some(rest) => Some(group + rest)
  }

  /** A quotient and a remainder by a power of two put back together. */
  lemma DivMod(q: int, r: int, d: int)
    requires d in {4, 16, 64} && 0 <= r < d
    ensures (q * d + r) / d == q && (q * d + r) % d == r
  {
    if d == 4 {
      assert q * 4 + r == 4 * q + r;
    } else if d == 16 {
      assert q * 16 + r == 16 * q + r;
    } else {
      assert q * 64 + r == 64 * q + r;
    }
  }

  /** The arithmetic of one group: the six-bit values put back together give the bytes. */
  lemma Regroup(b0: Byte, b1: Byte, b2: Byte)
    ensures b0 / 4 * 4 + (b0 % 4 * 16 + b1 / 16) / 16 == b0
    ensures (b0 % 4 * 16 + b1 / 16) % 16 * 16 + (b1 % 16 * 4 + b2 / 64) / 4 == b1
    ensures (b1 % 16 * 4 + b2 / 64) % 4 * 64 + b2 % 64 == b2
  {
    DivMod(b0 % 4, b1 / 16, 16);
    DivMod(b1 % 16, b2 / 64, 4);
  }

  lemma GroupRoundTrip3(b0: Byte, b1: Byte, b2: Byte)
    ensures var g := EncodeGroup(b0, b1, b2); DecodeGroup(g[0], g[1], g[2], g[3]) == Some([b0, b1, b2])
  {
    ValueChar(b0 / 4);
    ValueChar(b0 % 4 * 16 + b1 / 16);
    ValueChar(b1 % 16 * 4 + b2 / 64);
    ValueChar(b2 % 64);
    Regroup(b0, b1, b2);
  }

  lemma GroupRoundTrip2(b0: Byte, b1: Byte)
    ensures DecodeGroup(Char(b0 / 4), Char(b0 % 4 * 16 + b1 / 16), Char(b1 % 16 * 4), '=') == Some([b0, b1])
  {
    ValueChar(b0 / 4);
    ValueChar(b0 % 4 * 16 + b1 / 16);
    ValueChar(b1 % 16 * 4);
    Regroup(b0, b1, 0);
  }

  lemma GroupRoundTrip1(b0: Byte)
    ensures DecodeGroup(Char(b0 / 4), Char(b0 % 4 * 16), '=', '=') == Some([b0])
  {
    ValueChar(b0 / 4);
    ValueChar(b0 % 4 * 16);
    Regroup(b0, 0, 0);
  }

  /** A whole group of three bytes is encoded on its own, ahead of the rest. */
  lemma EncodeCons(bs: seq<Byte>)
    requires |bs| >= 3
    ensures Encode(bs) == EncodeGroup(bs[0], bs[1], bs[2]) + Encode(bs[3..])
  {
    assert Padding(|bs|) == Padding(|bs[3..]|);
  }

  /** A leading group of four characters that carries three bytes is decoded on its own, ahead of the rest. */
  lemma DecodeCons(g: string, t: string, bytes: seq<Byte>)
    requires |g| == 4 && DecodeGroup(g[0], g[1], g[2], g[3]) == Some(bytes) && |bytes| == 3
    ensures Decode(g + t) == if Decode(t).Some? then Some(bytes + Decode(t).value) else None
  {
    var s := g + t;
    assert s[0] == g[0] && s[1] == g[1] && s[2] == g[2] && s[3] == g[3];
    assert s[4..] == t;
  }

  /** A text of one group decodes to that group's bytes. */
  lemma DecodeLast(g: string, bytes: seq<Byte>)
    requires |g| == 4 && DecodeGroup(g[0], g[1], g[2], g[3]) == Some(bytes)
    ensures Decode(g) == Some(bytes)
  {
    assert g[4..] == [];
    assert bytes + [] == bytes;
  }

  lemma DecodeEncode1(b0: Byte)
    ensures Decode(Encode([b0])) == Some([b0])
  {
    GroupRoundTrip1(b0);
    assert Encode([b0]) == [Char(b0 / 4), Char(b0 % 4 * 16), '=', '='];
    DecodeLast(Encode([b0]), [b0]);
  }

  lemma DecodeEncode2(b0: Byte, b1: Byte)
    ensures Decode(Encode([b0, b1])) == Some([b0, b1])
  {
    GroupRoundTrip2(b0, b1);
    assert Encode([b0, b1]) == [Char(b0 / 4), Char(b0 % 4 * 16 + b1 / 16), Char(b1 % 16 * 4), '='];
    DecodeLast(Encode([b0, b1]), [b0, b1]);
  }

  /** Decoding undoes encoding. */
  lemma {:induction false} DecodeEncode(bs: seq<Byte>)
    ensures Decode(Encode(bs)) == Some(bs)
    decreases |bs|
  {
    if |bs| < 3 {
      DecodeEncodeShort(bs);
    } else {
      DecodeEncode(bs[3..]);
      DecodeEncodeGroup(bs);
    }
  }

  /** The last, padded group. */
  lemma DecodeEncodeShort(bs: seq<Byte>)
    requires |bs| < 3
    ensures Decode(Encode(bs)) == Some(bs)
  {
    if |bs| == 0 {
      assert Encode(bs) == [];
    } else if |bs| == 1 {
      assert [bs[0]] == bs;
      DecodeEncode1(bs[0]);
    } else {
      assert [bs[0], bs[1]] == bs;
      DecodeEncode2(bs[0], bs[1]);
    }
  }

  /** A full group in front of text that decodes back. */
  lemma DecodeEncodeGroup(bs: seq<Byte>)
    requires |bs| >= 3 && Decode(Encode(bs[3..])) == Some(bs[3..])
    ensures Decode(Encode(bs)) == Some(bs)
  {
    var rest := bs[3..];
    assert bs == [bs[0], bs[1], bs[2]] + rest;
    EncodeCons(bs);
    GroupRoundTrip3(bs[0], bs[1], bs[2]);
    DecodeCons(EncodeGroup(bs[0], bs[1], bs[2]), Encode(rest), [bs[0], bs[1], bs[2]]);
  }

  /** `s.replace(/a/g, b)` for single characters. */
  function ReplaceAll(s: string, a: char, b: char): (r: string)
    ensures |r| == |s|
    ensures forall k :: 0 <= k < |s| ==> r[k] == (if s[k] == a then b else s[k])
  {
    seq(|s|, k requires 0 <= k < |s| => if s[k] == a then b else s[k])
  }

  /** `s.replace(/=+$/, '')`: the longest run of `c` at the end removed. */
  function TrimEnd(s: string, c: char): (r: string)
    ensures |r| <= |s| && r == s[..|r|]
    ensures |r| == 0 || r[|r| - 1] != c
    ensures forall k :: |r| <= k < |s| ==> s[k] == c
    decreases |s|
  {
    if |s| > 0 && s[|s| - 1] == c then TrimEnd(s[..|s| - 1], c) else s
  }

  /** The alphabet of section 5 of RFC 4648 with the padding left off: '+' and '/' swapped for '-' and '_', trailing '=' removed. */
  function ToUrl(s: string): string {
    TrimEnd(ReplaceAll(ReplaceAll(s, '+', '-'), '/', '_'), '=')
  }

  /** What a receiver of unpadded URL-safe text does first: '=' up to a multiple of four, and the standard alphabet back. */
  function FromUrl(s: string): string {
    var padded := s + seq((4 - |s| % 4) % 4, _ => '=');
    ReplaceAll(ReplaceAll(padded, '-', '+'), '_', '/')
  }

  /** The URL-safe characters of the unpadded part, with nothing in between swapped back. */
  lemma UrlAlphabet(u: string)
    requires forall k :: 0 <= k < |u| ==> IsAlphabetChar(u[k])
    ensures forall k :: 0 <= k < |u| ==> IsUrlChar(ReplaceAll(ReplaceAll(u, '+', '-'), '/', '_')[k])
    ensures ReplaceAll(ReplaceAll(ReplaceAll(ReplaceAll(u, '+', '-'), '/', '_'), '-', '+'), '_', '/') == u
  {
  }

  /** Stripping a run of padding off text that does not end in it leaves the text. */
  lemma TrimPadding(x: string, p: string)
    requires |x| == 0 || x[|x| - 1] != '='
    requires forall k :: 0 <= k < |p| ==> p[k] == '='
    ensures TrimEnd(x + p, '=') == x
    decreases |p|
  {
    if |p| > 0 {
      assert (x + p)[..|x + p| - 1] == x + p[..|p| - 1];
      TrimPadding(x, p[..|p| - 1]);
    } else {
      assert x + p == x;
    }
  }

  /** Replacing a character distributes over concatenation. */
  lemma ReplaceAppend(x: string, y: string, a: char, b: char)
    ensures ReplaceAll(x + y, a, b) == ReplaceAll(x, a, b) + ReplaceAll(y, a, b)
  {
  }

  /** Padding holds nothing the alphabet swaps touch. */
  lemma PaddingUnswapped(p: string, a: char, b: char)
    requires forall k :: 0 <= k < |p| ==> p[k] == '='
    requires a != '='
    ensures ReplaceAll(p, a, b) == p
  {
  }

  /** A receiver adds back exactly the padding that was stripped. */
  lemma RepadLength(bs: seq<Byte>)
    ensures seq((4 - |Unpadded(bs)| % 4) % 4, _ => '=') == Padding(|bs|)
  {
    RepadCount(|bs|, |Unpadded(bs)|);
  }

  /** The padding count from the unpadded length alone. */
  lemma RepadCount(m: nat, n: nat)
    requires n == 4 * (m / 3) + (if m % 3 == 0 then 0 else m % 3 + 1)
    ensures seq((4 - n % 4) % 4, _ => '=') == Padding(m)
  {
    var r := m % 3;
    QuadMod(m / 3, if r == 0 then 0 else r + 1);
    var p := seq((4 - n % 4) % 4, _ => '=');
    if r == 0 {
      assert p == [];
    } else if r == 1 {
      assert |p| == 2 && p[0] == '=' && p[1] == '=';
      assert p == "==";
    } else {
      assert |p| == 1 && p[0] == '=';
      assert p == "=";
    }
  }

  lemma QuadMod(q: nat, c: nat)
    requires c < 4
    ensures (4 * q + c) % 4 == c
  {
  }

  /** Table 1 characters swapped for their Table 2 counterparts. */
  function UrlSwap(u: string): string {
    ReplaceAll(ReplaceAll(u, '+', '-'), '/', '_')
  }

  /** The URL-safe form of an encoding is its unpadded part with the alphabet swapped. */
  lemma ToUrlEncode(bs: seq<Byte>)
    ensures ToUrl(Encode(bs)) == UrlSwap(Unpadded(bs))
  {
    var u := Unpadded(bs);
    var p := Padding(|bs|);
    var y := ReplaceAll(u, '+', '-');
    var x := ReplaceAll(y, '/', '_');
    UrlAlphabet(u);
    ReplaceAppend(u, p, '+', '-');
    PaddingUnswapped(p, '+', '-');
    ReplaceAppend(y, p, '/', '_');
    PaddingUnswapped(p, '/', '_');
    assert ReplaceAll(ReplaceAll(u + p, '+', '-'), '/', '_') == x + p;
    TrimPadding(x, p);
  }

  /** Re-padding the swapped unpadded part and swapping back gives the encoding. */
  lemma FromUrlEncode(bs: seq<Byte>)
    ensures FromUrl(UrlSwap(Unpadded(bs))) == Encode(bs)
  {
    var u := Unpadded(bs);
    var p := Padding(|bs|);
    var x := UrlSwap(u);
    UrlAlphabet(u);
    RepadLength(bs);
    var w := ReplaceAll(x, '-', '+');
    ReplaceAppend(x, p, '-', '+');
    PaddingUnswapped(p, '-', '+');
    ReplaceAppend(w, p, '_', '/');
    PaddingUnswapped(p, '_', '/');
  }

  /**
   * The URL-safe unpadded form of an encoding uses only the characters of Table 2,
   * and a receiver that re-pads it and swaps the alphabet back recovers the bytes.
   */
  lemma UrlRoundTrip(bs: seq<Byte>)
    ensures forall k :: 0 <= k < |ToUrl(Encode(bs))| ==> IsUrlChar(ToUrl(Encode(bs))[k])
    ensures Decode(FromUrl(ToUrl(Encode(bs)))) == Some(bs)
  {
    ToUrlEncode(bs);
    UrlAlphabet(Unpadded(bs));
    FromUrlEncode(bs);
    DecodeEncode(bs);
  }
}
