/**
 * ECMAScript's encodeURIComponent on well-formed strings: a character of
 * the unreserved set stays as it is, every other character becomes the
 * UTF-8 encoding of its code point, each byte written `%XY` with two
 * upper-case hexadecimal digits.
 */
module Uri {
  import opened Wrappers

  newtype byte = b: int | 0 <= b < 256

  /** The characters encodeURIComponent leaves alone: letters, digits and `-_.!~*'()`. */
  predicate IsUnreserved(c: char) {
    ('A' <= c <= 'Z') || ('a' <= c <= 'z') || ('0' <= c <= '9')
    || c == '-' || c == '_' || c == '.' || c == '!' || c == '~' || c == '*' || c == '\'' || c == '(' || c == ')'
  }

  /** What an encoded component may contain: unreserved characters and `%`. */
  predicate IsEncoded(s: string) {
    forall i :: 0 <= i < |s| ==> IsUnreserved(s[i]) || s[i] == '%'
  }

  predicate AllUnreserved(s: string) {
    forall i :: 0 <= i < |s| ==> IsUnreserved(s[i])
  }

  function HexDigit(d: byte): (c: char)
    requires d < 16
    ensures IsUnreserved(c) && IsUpperHex(c) && HexValue(c) == d
  {
    if d < 10 then ('0' as int + d as int) as char else ('A' as int + d as int - 10) as char
  }

  /** The UTF-8 encoding of one code point (RFC 3629). */
  function Utf8(c: char): (bytes: seq<byte>)
    ensures 1 <= |bytes| <= 4
    ensures (c as int < 0x80) <==> |bytes| == 1
    ensures SequenceLength(bytes[0]) == |bytes|
    ensures forall k :: 1 <= k < |bytes| ==> 0x80 <= bytes[k] < 0xC0
  {
    var n := c as int;
    if n < 0x80 then [n as byte]
    else if n < 0x800 then [(0xC0 + n / 0x40) as byte, (0x80 + n % 0x40) as byte]
    else if n < 0x10000 then
      [(0xE0 + n / 0x1000) as byte, (0x80 + (n / 0x40) % 0x40) as byte, (0x80 + n % 0x40) as byte]
    else
      [(0xF0 + n / 0x40000) as byte, (0x80 + (n / 0x1000) % 0x40) as byte,
       (0x80 + (n / 0x40) % 0x40) as byte, (0x80 + n % 0x40) as byte]
  }

  /** The length of the UTF-8 sequence a lead byte starts, or 0 for a byte that cannot start one. */
  function SequenceLength(lead: byte): nat {
    if lead < 0x80 then 1
    else if 0xC0 <= lead < 0xE0 then 2
    else if 0xE0 <= lead < 0xF0 then 3
    else if 0xF0 <= lead < 0xF8 then 4
    else 0
  }

  /** The code point a UTF-8 sequence (lead byte and continuation bytes) stands for. */
  function Utf8Value(bytes: seq<byte>): int
    requires 1 <= |bytes| <= 4
  {
    var b := bytes;
    if |b| == 1 then b[0] as int
    else if |b| == 2 then (b[0] as int - 0xC0) * 0x40 + (b[1] as int - 0x80)
    else if |b| == 3 then (b[0] as int - 0xE0) * 0x1000 + (b[1] as int - 0x80) * 0x40 + (b[2] as int - 0x80)
    else (b[0] as int - 0xF0) * 0x40000 + (b[1] as int - 0x80) * 0x1000 + (b[2] as int - 0x80) * 0x40 + (b[3] as int - 0x80)
  }

  /** `%XY` for every byte. */
  function PercentEncode(bytes: seq<byte>): (r: string)
    ensures |r| == 3 * |bytes| && IsEncoded(r)
    ensures bytes != [] ==> r[0] == '%'
  {
    if bytes == [] then []
    else ['%', HexDigit(bytes[0] / 16), HexDigit(bytes[0] % 16)] + PercentEncode(bytes[1..])
  }

  function EncodeChar(c: char): string {
    if IsUnreserved(c) then [c] else PercentEncode(Utf8(c))
  }

  /**
   * encodeURIComponent: the result holds only unreserved characters and
   * `%`, so it can never end a path segment (no `/`, `?` or `#`), and a
   * string made of unreserved characters comes out unchanged.
   */
  function EncodeUriComponent(s: string): (r: string)
    ensures IsEncoded(r)
    ensures |r| >= |s|
    ensures AllUnreserved(s) <==> r == s
  {
    if s == [] then [] else EncodeChar(s[0]) + EncodeUriComponent(s[1..])
  }

  predicate IsUpperHex(c: char) {
    ('0' <= c <= '9') || ('A' <= c <= 'F')
  }

  function HexValue(c: char): (d: byte)
    requires IsUpperHex(c)
    ensures d < 16
  {
    if c <= '9' then (c as int - '0' as int) as byte else (c as int - 'A' as int + 10) as byte
  }

  /** Reads a string made of `%XY` triples back into bytes. */
  function PercentDecode(s: string): Option<seq<byte>>
    decreases |s|
  {
    if s == [] then Some([])
    else if |s| >= 3 && s[0] == '%' && IsUpperHex(s[1]) && IsUpperHex(s[2]) then
      match PercentDecode(s[3..])
      case None => None
      case Some(rest) => Some([HexValue(s[1]) * 16 + HexValue(s[2])] + rest)
    else None
  }

  predicate IsScalarValue(n: int) {
    (0 <= n < 0xD800) || (0xE000 <= n < 0x110000)
  }

  function Prepend(c: char, rest: Option<string>): Option<string> {
    match rest
    case None => None
    case Some(r) => Some([c] + r)
  }

  /**
   * The inverse of EncodeUriComponent: a character other than `%` stands
   * for itself; `%` starts the percent-encoded UTF-8 sequence of one code
   * point. None for anything EncodeUriComponent cannot have produced.
   */
  function DecodeUriComponent(s: string): Option<string>
    decreases |s|
  {
    if s == [] then Some([])
    else if s[0] != '%' then Prepend(s[0], DecodeUriComponent(s[1..]))
    else if |s| < 3 || !IsUpperHex(s[1]) || !IsUpperHex(s[2]) then None
    else
      var n := SequenceLength(HexValue(s[1]) * 16 + HexValue(s[2]));
      if n == 0 || |s| < 3 * n then None
      else match PercentDecode(s[..3 * n])
        case None => None
        case Some(bytes) =>
          if |bytes| != n then None
          else
            var cp := Utf8Value(bytes);
            if IsScalarValue(cp) then Prepend(cp as char, DecodeUriComponent(s[3 * n..])) else None
  }

  /** The two hex digits written for a byte read back as that byte. */
  lemma HexPair(b: byte)
    ensures HexValue(HexDigit(b / 16)) * 16 + HexValue(HexDigit(b % 16)) == b
  {
    var q, m := b as int / 16, b as int % 16;
    assert q * 16 + m == b as int;
  }

  /** Decoding a `%XY` triple in front of a decodable string. */
  lemma DecodeTriple(hi: char, lo: char, tail: string, rest: seq<byte>)
    requires IsUpperHex(hi) && IsUpperHex(lo) && PercentDecode(tail) == Some(rest)
    ensures PercentDecode(['%', hi, lo] + tail) == Some([HexValue(hi) * 16 + HexValue(lo)] + rest)
  {
    var s := ['%', hi, lo] + tail;
    assert s[1] == hi && s[2] == lo && s[3..] == tail;
  }

  /** Percent-decoding undoes percent-encoding. */
  lemma {:induction false} PercentRoundTrip(bytes: seq<byte>)
    ensures PercentDecode(PercentEncode(bytes)) == Some(bytes)
  {
    if bytes != [] {
      var b := bytes[0];
      assert PercentEncode(bytes) == ['%', HexDigit(b / 16), HexDigit(b % 16)] + PercentEncode(bytes[1..]);
      PercentRoundTrip(bytes[1..]);
      HexPair(b);
      DecodeTriple(HexDigit(b / 16), HexDigit(b % 16), PercentEncode(bytes[1..]), bytes[1..]);
      assert [b] + bytes[1..] == bytes;
    }
  }

  /** `n` split into its low six bits and the rest. */
  lemma SixBits(n: nat)
    ensures n == (n / 0x40) * 0x40 + n % 0x40 && n % 0x40 < 0x40
  {
  }

  /** UTF-8 decoding undoes UTF-8 encoding. */
  lemma Utf8RoundTrip(c: char)
    ensures Utf8Value(Utf8(c)) == c as int
  {
    var n := c as int;
    var b := Utf8(c);
    if 0x80 <= n < 0x800 {
      SixBits(n);
      assert b[0] as int == 0xC0 + n / 0x40 && b[1] as int == 0x80 + n % 0x40;
    } else if 0x800 <= n < 0x10000 {
      var q := n / 0x40;
      SixBits(n);
      SixBits(q);
      assert n / 0x1000 == q / 0x40;
      assert b[0] as int == 0xE0 + q / 0x40 && b[1] as int == 0x80 + q % 0x40 && b[2] as int == 0x80 + n % 0x40;
    } else if 0x10000 <= n {
      var q := n / 0x40;
      var q2 := q / 0x40;
      SixBits(n);
      SixBits(q);
      SixBits(q2);
      assert n / 0x1000 == q2;
      assert n / 0x40000 == q2 / 0x40;
      assert b[0] as int == 0xF0 + q2 / 0x40 && b[1] as int == 0x80 + q2 % 0x40;
      assert b[2] as int == 0x80 + q % 0x40 && b[3] as int == 0x80 + n % 0x40;
    }
  }

  /** A percent-encoded UTF-8 sequence at the front decodes to its code point. */
  lemma DecodeSequence(bytes: seq<byte>, rest: string)
    requires 1 <= |bytes| <= 4 && SequenceLength(bytes[0]) == |bytes| && IsScalarValue(Utf8Value(bytes))
    ensures DecodeUriComponent(PercentEncode(bytes) + rest)
            == Prepend(Utf8Value(bytes) as char, DecodeUriComponent(rest))
  {
    var e := PercentEncode(bytes);
    var s := e + rest;
    var n := |bytes|;
    assert s[..3 * n] == e && s[3 * n..] == rest;
    assert s[0] == '%' && HexValue(s[1]) * 16 + HexValue(s[2]) == bytes[0];
    PercentRoundTrip(bytes);
  }

  /** Decoding the encoding of one character followed by anything gives that character first. */
  lemma DecodeEncodedChar(c: char, rest: string)
    ensures DecodeUriComponent(EncodeChar(c) + rest) == Prepend(c, DecodeUriComponent(rest))
  {
    if IsUnreserved(c) {
      var s := EncodeChar(c) + rest;
      assert s[0] == c && s[1..] == rest;
    } else {
      Utf8RoundTrip(c);
      DecodeSequence(Utf8(c), rest);
    }
  }

  /** Decoding undoes encodeURIComponent, so no two strings encode alike. */
  lemma {:induction false} UriRoundTrip(s: string)
    ensures DecodeUriComponent(EncodeUriComponent(s)) == Some(s)
  {
    if s != [] {
      UriRoundTrip(s[1..]);
      DecodeEncodedChar(s[0], EncodeUriComponent(s[1..]));
      assert [s[0]] + s[1..] == s;
    }
  }
}
