/**
 * Percent-encoding as PHP's rawurlencode does it, which is what http_build_query
 * applies under PHP_QUERY_RFC3986: the unreserved characters of section 2.3 of
 * RFC 3986 are kept, every other byte becomes "%" and two upper-case hexadecimal
 * digits (section 2.1 of RFC 3986).
 */
module PercentEncoding {
  import opened Outcomes
  import opened PhpStrings

  /** unreserved = ALPHA / DIGIT / "-" / "." / "_" / "~" */
  predicate IsUnreserved(c: Octet) {
    ('A' <= c <= 'Z') || ('a' <= c <= 'z') || ('0' <= c <= '9') || c == '-' || c == '.' || c == '_' || c == '~'
  }

  function HexDigit(d: nat): (c: Octet)
    requires d < 16
    ensures IsUnreserved(c)
  {
    if d < 10 then ('0' as int + d) as char else ('A' as int + d - 10) as char
  }

  function HexValue(c: Octet): Option<nat> {
    if '0' <= c <= '9' then Some(c as int - '0' as int)
    else if 'A' <= c <= 'F' then Some(c as int - 'A' as int + 10)
    else if 'a' <= c <= 'f' then Some(c as int - 'a' as int + 10)
    else None
  }

  function EncodeOctet(c: Octet): PhpString {
    if IsUnreserved(c) then [c] else ['%', HexDigit(c as int / 16), HexDigit(c as int % 16)]
  }

  /** rawurlencode */
  function Encode(s: PhpString): (r: PhpString)
    ensures |s| <= |r| <= 3 * |s|
  {
    if s == [] then [] else EncodeOctet(s[0]) + Encode(s[1..])
  }

  /** Strict percent-decoding: None when a "%" is not followed by two hexadecimal digits. */
  function Decode(s: PhpString): Option<PhpString> {
    if s == [] then Some([])
    else if s[0] == '%' then
      if |s| < 3 then None
      else match (HexValue(s[1]), HexValue(s[2]), Decode(s[3..]))
        case (Some(hi), Some(lo), Some(rest)) =>
          if hi < 16 && lo < 16 then Some([(hi * 16 + lo) as char] + rest) else None
        case _ => None
    else
      match Decode(s[1..])
      case Some(rest) => Some([s[0]] + rest)
      case None => None
  }

  /** An encoded string holds only unreserved characters and "%". */
  predicate IsEncoded(s: PhpString) {
    forall i :: 0 <= i < |s| ==> IsUnreserved(s[i]) || s[i] == '%'
  }

  /** Encoding only produces unreserved characters and percent signs, so never "&", "=" or "#". */
  lemma {:induction false} EncodeIsEncoded(s: PhpString)
    ensures IsEncoded(Encode(s))
    ensures '&' !in Encode(s) && '=' !in Encode(s)
  {
    if s != [] {
      EncodeIsEncoded(s[1..]);
    }
  }

  lemma HexRoundTrip(d: nat)
    requires d < 16
    ensures HexValue(HexDigit(d)) == Some(d)
  {
  }

  /** Decoding undoes encoding, byte for byte. */
  lemma {:induction false} DecodeEncode(s: PhpString)
    ensures Decode(Encode(s)) == Some(s)
  {
    if s != [] {
      var c, rest := s[0], Encode(s[1..]);
      DecodeEncode(s[1..]);
      var e := EncodeOctet(c) + rest;
      if IsUnreserved(c) {
        assert e[0] == c && e[1..] == rest;
      } else {
        var n := c as int;
        HexRoundTrip(n / 16);
        HexRoundTrip(n % 16);
        assert e[0] == '%' && e[3..] == rest;
        assert ((n / 16) * 16 + n % 16) as char == c;
      }
      assert [c] + s[1..] == s;
    }
  }
}
