/**
 * `urllib.parse.quote_plus` with its defaults (no extra safe characters,
 * UTF-8): every character outside the unreserved set of section 2.3 of
 * RFC 3986 is UTF-8 encoded and each byte percent-encoded as in section 2.1
 * (upper-case hexadecimal), except the space, which becomes `+`.
 */
module UrlQuote {
  import opened Wrappers

  type Byte = b: int | 0 <= b < 256

  /** ALPHA / DIGIT / "-" / "." / "_" / "~" (section 2.3 of RFC 3986). */
  predicate IsUnreserved(c: char) {
    || ('A' <= c <= 'Z')
    || ('a' <= c <= 'z')
    || ('0' <= c <= '9')
    || c == '-' || c == '.' || c == '_' || c == '~'
  }

  /** The characters `quote_plus` can produce. */
  predicate IsQuoted(c: char) {
    IsUnreserved(c) || c == '+' || c == '%'
  }

  /** The UTF-8 encoding of one Unicode scalar value. */
  function Utf8(c: char): (bytes: seq<Byte>)
    ensures 1 <= |bytes| <= 4
    ensures |bytes| == 1 <==> c as int < 0x80
    ensures c as int < 0x80 ==> bytes == [c as int]
    ensures |bytes| > 1 ==> forall i :: 0 <= i < |bytes| ==> bytes[i] >= 0x80
  {
    var n := c as int;
    if n < 0x80 then [n]
    else if n < 0x800 then [0xC0 + n / 0x40, 0x80 + n % 0x40]
    else if n < 0x10000 then [0xE0 + n / 0x1000, 0x80 + (n / 0x40) % 0x40, 0x80 + n % 0x40]
    else [0xF0 + n / 0x40000, 0x80 + (n / 0x1000) % 0x40, 0x80 + (n / 0x40) % 0x40, 0x80 + n % 0x40]
  }

  /** `s.encode("utf-8")`. */
  function Utf8String(s: string): seq<Byte> {
    if s == [] then [] else Utf8(s[0]) + Utf8String(s[1..])
  }

  const HexDigits: string := "0123456789ABCDEF"

  /** `%XX` for every byte, upper-case hexadecimal. */
  function PercentEncoded(bytes: seq<Byte>): (r: string)
    ensures |r| == 3 * |bytes|
    ensures forall i :: 0 <= i < |r| ==> IsQuoted(r[i])
  {
    if bytes == [] then []
    else
      var b := bytes[0];
      ['%', HexDigits[b / 16], HexDigits[b % 16]] + PercentEncoded(bytes[1..])
  }

  function QuoteChar(c: char): (r: string)
    ensures forall i :: 0 <= i < |r| ==> IsQuoted(r[i])
  {
    if IsUnreserved(c) then [c]
    else if c == ' ' then "+"
    else PercentEncoded(Utf8(c))
  }

  /**
   * `urllib.parse.quote_plus(s)`. The result uses only unreserved
   * characters, `+` and `%`, so it never carries a `&`, `=` or `?` that
   * would end a query parameter; and it leaves a string made only of
   * unreserved characters unchanged.
   */
  function QuotePlus(s: string): (r: string)
    ensures forall i :: 0 <= i < |r| ==> IsQuoted(r[i])
    ensures (forall i :: 0 <= i < |s| ==> IsUnreserved(s[i])) ==> r == s
    ensures |r| >= |s|
  {
    if s == [] then []
    else
      var r := QuoteChar(s[0]) + QuotePlus(s[1..]);
      assert |QuoteChar(s[0])| >= 1 by {
        if !IsUnreserved(s[0]) && s[0] != ' ' {
          assert |Utf8(s[0])| >= 1;
        }
      }
      r
  }

  /** `quote_plus` works character by character, so it distributes over concatenation. */
  lemma {:induction false} QuotePlusAppend(a: string, b: string)
    ensures QuotePlus(a + b) == QuotePlus(a) + QuotePlus(b)
    decreases |a|
  {
    if a != [] {
      assert (a + b)[1..] == a[1..] + b;
      QuotePlusAppend(a[1..], b);
    } else {
      assert a + b == b;
    }
  }

  /** A space becomes `+`, not `%20`: what sets `quote_plus` apart from `quote`. */
  lemma QuotePlusSpace(a: string, b: string)
    ensures QuotePlus(a + " " + b) == QuotePlus(a) + "+" + QuotePlus(b)
  {
    QuotePlusAppend(a + " ", b);
    QuotePlusAppend(a, " ");
    assert " "[1..] == [];
    assert QuotePlus(" ") == "+";
  }

  /** The value of a hexadecimal digit, either case. */
  function HexValue(c: char): Option<int> {
    if '0' <= c <= '9' then Some(c as int - '0' as int)
    else if 'A' <= c <= 'F' then Some(c as int - 'A' as int + 10)
    else if 'a' <= c <= 'f' then Some(c as int - 'a' as int + 10)
    else None
  }

  function Prepend(bytes: seq<Byte>, rest: Option<seq<Byte>>): Option<seq<Byte>> {
    if rest.Some? then Some(bytes + rest.value) else None
  }

  /**
   * The inverse of `QuotePlus` at the byte level: `%XX` gives the byte XX,
   * `+` gives a space, an unreserved character gives its own code, and
   * anything else is malformed.
   */
  function PercentDecode(r: string): Option<seq<Byte>>
    decreases |r|
  {
    if r == [] then Some([])
    else if r[0] == '+' then Prepend([0x20], PercentDecode(r[1..]))
    else if r[0] == '%' then
      if |r| >= 3 && HexValue(r[1]).Some? && HexValue(r[2]).Some? then
        Prepend([16 * HexValue(r[1]).value + HexValue(r[2]).value], PercentDecode(r[3..]))
      else None
    else if IsUnreserved(r[0]) then Prepend([r[0] as int], PercentDecode(r[1..]))
    else None
  }

  lemma HexRoundTrip(d: int)
    requires 0 <= d < 16
    ensures HexValue(HexDigits[d]) == Some(d)
  {
  }

  /** One `%XX` triple decodes to its byte. */
  lemma DecodeTriple(b: Byte, rest: string)
    ensures PercentDecode(['%', HexDigits[b / 16], HexDigits[b % 16]] + rest) == Prepend([b], PercentDecode(rest))
  {
    var s := ['%', HexDigits[b / 16], HexDigits[b % 16]] + rest;
    HexRoundTrip(b / 16);
    HexRoundTrip(b % 16);
    assert s[3..] == rest;
  }

  lemma PrependTwice(a: seq<Byte>, c: seq<Byte>, t: Option<seq<Byte>>)
    ensures Prepend(a, Prepend(c, t)) == Prepend(a + c, t)
  {
    if t.Some? {
      assert a + (c + t.value) == (a + c) + t.value;
    }
  }

  lemma {:induction false} DecodePercentEncoded(bytes: seq<Byte>, rest: string)
    ensures PercentDecode(PercentEncoded(bytes) + rest) == Prepend(bytes, PercentDecode(rest))
    decreases |bytes|
  {
    if bytes != [] {
      var b := bytes[0];
      var triple := ['%', HexDigits[b / 16], HexDigits[b % 16]];
      var later := PercentEncoded(bytes[1..]) + rest;
      assert PercentEncoded(bytes) + rest == triple + later;
      DecodeTriple(b, later);
      DecodePercentEncoded(bytes[1..], rest);
      PrependTwice([b], bytes[1..], PercentDecode(rest));
      assert [b] + bytes[1..] == bytes;
    } else {
      assert PercentEncoded(bytes) + rest == rest;
      PrependTwice([], [], PercentDecode(rest));
      assert PercentDecode(rest) == Prepend([], PercentDecode(rest)) by {
        if PercentDecode(rest).Some? {
          assert [] + PercentDecode(rest).value == PercentDecode(rest).value;
        }
      }
    }
  }

  /** Decoding what `QuotePlus` produced gives back the UTF-8 bytes of the input. */
  lemma {:induction false} QuotePlusDecodes(s: string)
    ensures PercentDecode(QuotePlus(s)) == Some(Utf8String(s))
    decreases |s|
  {
    if s != [] {
      var c := s[0];
      var rest := QuotePlus(s[1..]);
      QuotePlusDecodes(s[1..]);
      assert QuotePlus(s) == QuoteChar(c) + rest;
      if IsUnreserved(c) || c == ' ' {
        assert (QuoteChar(c) + rest)[1..] == rest;
      } else {
        DecodePercentEncoded(Utf8(c), rest);
      }
    }
  }
}
