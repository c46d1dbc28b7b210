/** `urllib.parse.quote(name, safe='')`: the name is encoded as UTF-8 and every
    byte outside the always-safe set (ASCII letters, digits and `_.-~`) is written
    as `%XX` with upper-case hexadecimal digits. The decoders below are reference
    inverses used to show that no information is lost. */
module Quoting {
  import opened Outcomes
  import opened Text

  newtype byte = x: int | 0 <= x < 256

  // ---------------------------------------------------------------- UTF-8

  /** The UTF-8 encoding of one Unicode scalar value. */
  function Utf8Char(c: char): (b: seq<byte>)
    ensures 1 <= |b| <= 4
    ensures |b| == 1 <==> c as int < 0x80
    ensures |b| == 1 ==> b[0] as int == c as int
  {
    var n := c as int;
    if n < 0x80 then [n as byte]
    else if n < 0x800 then [(0xC0 + n / 0x40) as byte, (0x80 + n % 0x40) as byte]
    else if n < 0x10000 then
      [(0xE0 + n / 0x1000) as byte, (0x80 + n / 0x40 % 0x40) as byte, (0x80 + n % 0x40) as byte]
    else
      [(0xF0 + n / 0x40000) as byte, (0x80 + n / 0x1000 % 0x40) as byte,
       (0x80 + n / 0x40 % 0x40) as byte, (0x80 + n % 0x40) as byte]
  }

  /** `s.encode('utf-8')`. */
  function Utf8(s: string): seq<byte> {
    if s == [] then [] else Utf8Char(s[0]) + Utf8(s[1..])
  }

  /** How many bytes a sequence starting with lead byte `x` occupies; 0 if `x`
      cannot start one. */
  function LeadLength(x: byte): nat {
    if x < 0x80 then 1
    else if 0xC2 <= x < 0xE0 then 2
    else if 0xE0 <= x < 0xF0 then 3
    else if 0xF0 <= x < 0xF5 then 4
    else 0
  }

  predicate IsContinuation(x: byte) {
    0x80 <= x < 0xC0
  }

  /** The scalar value a complete, shortest-form byte sequence encodes. */
  function DecodeScalar(u: seq<byte>): Option<char>
    requires 1 <= |u| <= 4 && LeadLength(u[0]) == |u|
  {
    if |u| == 1 then Some(u[0] as int as char)
    else if !(forall k :: 1 <= k < |u| ==> IsContinuation(u[k])) then None
    else if |u| == 2 then
      var v := (u[0] as int - 0xC0) * 0x40 + (u[1] as int - 0x80);
      Some(v as char)
    else if |u| == 3 then
      var v := (u[0] as int - 0xE0) * 0x1000 + (u[1] as int - 0x80) * 0x40 + (u[2] as int - 0x80);
      if v < 0x800 || 0xD800 <= v < 0xE000 then None else Some(v as char)
    else
      var v := (u[0] as int - 0xF0) * 0x40000 + (u[1] as int - 0x80) * 0x1000
        + (u[2] as int - 0x80) * 0x40 + (u[3] as int - 0x80);
      if v < 0x10000 || v >= 0x110000 then None else Some(v as char)
  }

  /** `b.decode('utf-8')`; None where Python would raise UnicodeDecodeError. */
  function Utf8Decode(b: seq<byte>): Option<string>
    decreases |b|
  {
    if b == [] then Some([])
    else
      var len := LeadLength(b[0]);
      if len == 0 || |b| < len then None
      else match DecodeScalar(b[..len])
        case None => None
        case Some(c) =>
          match Utf8Decode(b[len..])
          case None => None
          case Some(rest) => Some([c] + rest)
  }

  lemma Utf8CharDecodes(c: char)
    ensures LeadLength(Utf8Char(c)[0]) == |Utf8Char(c)|
    ensures DecodeScalar(Utf8Char(c)) == Some(c)
  {
    var n := c as int;
    if n < 0x80 {
    } else if n < 0x800 {
      TwoBytesDecode(c);
    } else if n < 0x10000 {
      ThreeBytesDecode(c);
    } else {
      FourBytesDecode(c);
    }
  }

  lemma TwoBytesDecode(c: char)
    requires 0x80 <= c as int < 0x800
    ensures LeadLength(Utf8Char(c)[0]) == 2 && DecodeScalar(Utf8Char(c)) == Some(c)
  {
    var n := c as int;
    var q, r := n / 0x40, n % 0x40;
    assert n == q * 0x40 + r;
    assert Utf8Char(c) == [(0xC0 + q) as byte, (0x80 + r) as byte];
  }

  lemma ThreeBytesDecode(c: char)
    requires 0x800 <= c as int < 0x10000
    ensures LeadLength(Utf8Char(c)[0]) == 3 && DecodeScalar(Utf8Char(c)) == Some(c)
  {
    var n := c as int;
    var q, m, r := n / 0x1000, n / 0x40 % 0x40, n % 0x40;
    assert n / 0x40 == q * 0x40 + m;
    assert n == q * 0x1000 + m * 0x40 + r;
    assert Utf8Char(c) == [(0xE0 + q) as byte, (0x80 + m) as byte, (0x80 + r) as byte];
  }

  lemma FourBytesDecode(c: char)
    requires 0x10000 <= c as int
    ensures LeadLength(Utf8Char(c)[0]) == 4 && DecodeScalar(Utf8Char(c)) == Some(c)
  {
    var n := c as int;
    var q, m1, m2, r := n / 0x40000, n / 0x1000 % 0x40, n / 0x40 % 0x40, n % 0x40;
    assert n / 0x1000 == q * 0x40 + m1;
    assert n / 0x40 == (n / 0x1000) * 0x40 + m2;
    assert n == q * 0x40000 + m1 * 0x1000 + m2 * 0x40 + r;
    assert Utf8Char(c) == [(0xF0 + q) as byte, (0x80 + m1) as byte, (0x80 + m2) as byte, (0x80 + r) as byte];
  }

  /** Decoding undoes encoding. */
  lemma {:induction false} Utf8RoundTrip(s: string)
    ensures Utf8Decode(Utf8(s)) == Some(s)
  {
    if s != [] {
      var u, rest := Utf8Char(s[0]), Utf8(s[1..]);
      Utf8CharDecodes(s[0]);
      Utf8RoundTrip(s[1..]);
      assert (u + rest)[..|u|] == u && (u + rest)[|u|..] == rest;
      assert [s[0]] + s[1..] == s;
    }
  }

  // ---------------------------------------------------------------- percent-encoding

  /** Python's always-safe characters: ASCII letters, digits and `_.-~`. */
  predicate IsUnreserved(c: char) {
    IsAsciiAlnum(c) || c == '_' || c == '.' || c == '-' || c == '~'
  }

  predicate IsUpperHex(c: char) {
    ('0' <= c <= '9') || ('A' <= c <= 'F')
  }

  function HexDigit(d: nat): (c: char)
    requires d < 16
    ensures IsUpperHex(c)
  {
    if d < 10 then ('0' as int + d) as char else ('A' as int + d - 10) as char
  }

  function HexValue(c: char): (d: nat)
    requires IsUpperHex(c)
    ensures d < 16 && HexDigit(d) == c
  {
    if c <= '9' then c as int - '0' as int else c as int - 'A' as int + 10
  }

  /** One byte as it appears in the quoted text. */
  function QuoteByte(x: byte): (r: string)
    ensures |r| == 1 || |r| == 3
  {
    if x < 0x80 && IsUnreserved(x as int as char) then [x as int as char]
    else ['%', HexDigit(x as int / 16), HexDigit(x as int % 16)]
  }

  function QuoteBytes(b: seq<byte>): string {
    if b == [] then [] else QuoteByte(b[0]) + QuoteBytes(b[1..])
  }

  /** `quote(s, safe='')`. */
  function Quote(s: string): string {
    QuoteBytes(Utf8(s))
  }

  /** A character the quoted text can hold. */
  predicate IsQuotedChar(c: char) {
    IsUnreserved(c) || c == '%' || IsUpperHex(c)
  }

  /** Every character of the output is always-safe, `%` or a hex digit, so a quoted
      name never adds a path separator or a query to a URL. */
  lemma {:induction false} QuoteBytesAlphabet(b: seq<byte>)
    ensures forall k :: 0 <= k < |QuoteBytes(b)| ==> IsQuotedChar(QuoteBytes(b)[k])
  {
    if b != [] {
      QuoteBytesAlphabet(b[1..]);
      var q, rest := QuoteByte(b[0]), QuoteBytes(b[1..]);
      assert forall k :: 0 <= k < |q| ==> IsQuotedChar(q[k]);
      assert forall k :: |q| <= k < |q + rest| ==> (q + rest)[k] == rest[k - |q|];
    }
  }

  lemma QuoteAlphabet(s: string)
    ensures forall k :: 0 <= k < |Quote(s)| ==> IsQuotedChar(Quote(s)[k])
    ensures '/' !in Quote(s) && '?' !in Quote(s)
  {
    QuoteBytesAlphabet(Utf8(s));
  }

  /** A name made only of always-safe characters is quoted as itself. */
  lemma {:induction false} QuoteKeepsUnreserved(s: string)
    requires forall k :: 0 <= k < |s| ==> IsUnreserved(s[k])
    ensures Quote(s) == s
  {
    if s != [] {
      QuoteKeepsUnreserved(s[1..]);
      assert Utf8(s) == [s[0] as int as byte] + Utf8(s[1..]);
      assert Utf8(s)[1..] == Utf8(s[1..]);
      assert [s[0]] + s[1..] == s;
    }
  }

  /** The reference decoder for quoted text: `%XX` and always-safe characters only. */
  function Unquote(q: string): Option<seq<byte>>
    decreases |q|
  {
    if q == [] then Some([])
    else if q[0] == '%' then
      if |q| >= 3 && IsUpperHex(q[1]) && IsUpperHex(q[2]) then
        match Unquote(q[3..])
        case None => None
        case Some(rest) => Some([(HexValue(q[1]) * 16 + HexValue(q[2])) as byte] + rest)
      else None
    else if IsUnreserved(q[0]) then
      match Unquote(q[1..])
      case None => None
      case Some(rest) => Some([q[0] as int as byte] + rest)
    else None
  }

  /** One quoted byte in front of quoted text decodes to that byte in front. */
  lemma UnquoteByte(x: byte, q: string, rest: seq<byte>)
    requires Unquote(q) == Some(rest)
    ensures Unquote(QuoteByte(x) + q) == Some([x] + rest)
  {
    var u := QuoteByte(x);
    if |u| == 1 {
      assert (u + q)[0] == u[0] && (u + q)[1..] == q;
    } else {
      assert (u + q)[0] == '%' && (u + q)[1] == u[1] && (u + q)[2] == u[2];
      assert (u + q)[3..] == q;
      assert HexValue(u[1]) * 16 + HexValue(u[2]) == x as int;
    }
  }

  lemma {:induction false} UnquoteQuoteBytes(b: seq<byte>)
    ensures Unquote(QuoteBytes(b)) == Some(b)
  {
    if b != [] {
      UnquoteQuoteBytes(b[1..]);
      UnquoteByte(b[0], QuoteBytes(b[1..]), b[1..]);
      assert [b[0]] + b[1..] == b;
    }
  }

  /** Quoting loses nothing: the name can be recovered from its quoted form, so
      distinct names give distinct quoted forms. */
  lemma QuoteInjective(s: string, t: string)
    requires Quote(s) == Quote(t)
    ensures s == t
  {
    UnquoteQuoteBytes(Utf8(s));
    UnquoteQuoteBytes(Utf8(t));
    Utf8RoundTrip(s);
    Utf8RoundTrip(t);
  }
}
