/**
 * PHP strings are byte strings. They are modelled as sequences of characters whose
 * code is below 256, so that literals stay readable and every character is one byte.
 * This module holds the few string primitives of the PHP runtime that the two value
 * objects use: strtolower, ltrim($s, "/"), strval/%d of an integer, the byte order
 * that ksort applies to string keys, and splitting at a delimiter.
 */
module PhpStrings {
  import opened Outcomes

  type Octet = c: char | c as int < 256 witness 'a'

  type PhpString = seq<Octet>

  // ---------------------------------------------------------------------------
  // strtolower (ASCII only, as PHP 8.2 and later, or the C locale, do it)

  predicate IsUpper(c: Octet) { 'A' <= c <= 'Z' }

  function LowerOctet(c: Octet): (r: Octet)
    ensures !IsUpper(r)
    ensures IsUpper(c) ==> r as int == c as int + 32
    ensures !IsUpper(c) ==> r == c
  {
    if IsUpper(c) then (c as int + 32) as char else c
  }

  /** strtolower: every upper-case ASCII letter is mapped to its lower-case letter. */
  function ToLower(s: PhpString): (r: PhpString)
    ensures |r| == |s|
    ensures forall i :: 0 <= i < |s| ==> r[i] == LowerOctet(s[i])
  {
    seq(|s|, i requires 0 <= i < |s| => LowerOctet(s[i]))
  }

  predicate IsLowerCase(s: PhpString) {
    forall i :: 0 <= i < |s| ==> !IsUpper(s[i])
  }

  /** Lower-casing yields a string without capitals, and a second application changes nothing. */
  lemma ToLowerIdempotent(s: PhpString)
    ensures IsLowerCase(ToLower(s))
    ensures ToLower(ToLower(s)) == ToLower(s)
  {
  }

  /** A string without capitals is its own lower-case form. */
  lemma {:induction false} ToLowerOfLowerCase(s: PhpString)
    requires IsLowerCase(s)
    ensures ToLower(s) == s
  {
    if s != [] {
      ToLowerOfLowerCase(s[1..]);
    }
  }

  // ---------------------------------------------------------------------------
  // ltrim($s, "/")

  predicate StartsWithSlash(s: PhpString) { |s| > 0 && s[0] == '/' }

  /** ltrim($s, "/"): removes every leading slash and nothing else. */
  function TrimLeadingSlashes(s: PhpString): (r: PhpString)
    ensures |r| <= |s| && r == s[|s| - |r|..]
    ensures forall i :: 0 <= i < |s| - |r| ==> s[i] == '/'
    ensures !StartsWithSlash(r)
  {
    if StartsWithSlash(s) then TrimLeadingSlashes(s[1..]) else s
  }

  /** A string that does not start with a slash is left alone by ltrim. */
  lemma TrimWithoutLeadingSlash(s: PhpString)
    requires !StartsWithSlash(s)
    ensures TrimLeadingSlashes(s) == s
  {
  }

  // ---------------------------------------------------------------------------
  // strval of an integer / sprintf('%d', $n), and its inverse

  predicate IsDigit(c: Octet) { '0' <= c <= '9' }

  function DigitChar(d: nat): (c: Octet)
    requires d < 10
    ensures IsDigit(c) && c as int - '0' as int == d
  {
    ('0' as int + d) as char
  }

  predicate AllDigits(s: PhpString) { forall i :: 0 <= i < |s| ==> IsDigit(s[i]) }

  /** The decimal digits of a natural number, most significant first, without leading zeros. */
  function NatDecimal(n: nat): (r: PhpString)
    ensures |r| > 0 && AllDigits(r)
    decreases n
  {
    if n < 10 then [DigitChar(n)] else NatDecimal(n / 10) + [DigitChar(n % 10)]
  }

  /** strval($n) for an integer: an optional minus sign followed by the decimal digits. */
  function IntDecimal(n: int): (r: PhpString)
    ensures |r| > 0 && (r[0] == '-' <==> n < 0)
  {
    if n < 0 then "-" + NatDecimal(-n) else NatDecimal(n)
  }

  /** strval of an integer is non-empty and holds only digits and the minus sign. */
  lemma IntDecimalSymbols(n: int)
    ensures |IntDecimal(n)| > 0
    ensures forall c :: c in IntDecimal(n) ==> IsDigit(c) || c == '-'
  {
    var d := NatDecimal(if n < 0 then -n else n);
    assert forall c :: c in d ==> IsDigit(c) by {
      forall c | c in d ensures IsDigit(c) {
        var i :| 0 <= i < |d| && d[i] == c;
      }
    }
  }

  /** The value of a string of decimal digits. */
  function DigitsValue(s: PhpString): nat
    requires AllDigits(s)
  {
    if s == [] then 0
    else
      assert IsDigit(s[|s| - 1]);
      DigitsValue(s[..|s| - 1]) * 10 + (s[|s| - 1] as int - '0' as int)
  }

  /** Reads an integer written as an optional minus sign and at least one digit. */
  function ParseInt(s: PhpString): Option<int> {
    if |s| > 0 && s[0] == '-' then
      (if |s| > 1 && AllDigits(s[1..]) then Some(0 - DigitsValue(s[1..]) as int) else None)
    else if |s| > 0 && AllDigits(s) then Some(DigitsValue(s))
    else None
  }

  lemma {:induction false} NatDecimalValue(n: nat)
    ensures DigitsValue(NatDecimal(n)) == n
    decreases n
  {
    if n >= 10 {
      var prefix := NatDecimal(n / 10);
      var s := prefix + [DigitChar(n % 10)];
      assert s[..|s| - 1] == prefix;
      NatDecimalValue(n / 10);
    }
  }

  /** The decimal form of every integer is non-empty and reads back as that integer. */
  lemma IntDecimalRoundTrip(n: int)
    ensures |IntDecimal(n)| > 0
    ensures ParseInt(IntDecimal(n)) == Some(n)
  {
    if n < 0 {
      NatDecimalValue(-n);
      assert IntDecimal(n)[1..] == NatDecimal(-n);
    } else {
      NatDecimalValue(n);
    }
  }

  // ---------------------------------------------------------------------------
  // The byte order on strings (strcmp), used by ksort for string keys

  /** a sorts strictly before b: the first differing byte is smaller, or a is a proper prefix of b. */
  predicate Less(a: PhpString, b: PhpString) {
    if a == [] then b != []
    else if b == [] then false
    else if a[0] == b[0] then Less(a[1..], b[1..])
    else a[0] < b[0]
  }

  lemma {:induction false} LessIrreflexive(a: PhpString)
    ensures !Less(a, a)
  {
    if a != [] {
      LessIrreflexive(a[1..]);
    }
  }

  lemma {:induction false} LessTransitive(a: PhpString, b: PhpString, c: PhpString)
    requires Less(a, b) && Less(b, c)
    ensures Less(a, c)
  {
    if a != [] && b != [] && c != [] && a[0] == b[0] && b[0] == c[0] {
      LessTransitive(a[1..], b[1..], c[1..]);
    }
  }

  lemma {:induction false} LessTotal(a: PhpString, b: PhpString)
    requires a != b
    ensures Less(a, b) || Less(b, a)
  {
    if a != [] && b != [] && a[0] == b[0] {
      assert a == [a[0]] + a[1..] && b == [b[0]] + b[1..];
      LessTotal(a[1..], b[1..]);
    }
  }

  // ---------------------------------------------------------------------------
  // Splitting at a delimiter

  /** The part before the first `sep`, and the part after it if `sep` occurs at all. */
  function SplitFirst(s: PhpString, sep: Octet): (PhpString, Option<PhpString>) {
    if s == [] then ([], None)
    else if s[0] == sep then ([], Some(s[1..]))
    else
      var (before, after) := SplitFirst(s[1..], sep);
      ([s[0]] + before, after)
  }

  lemma {:induction false} SplitFirstAt(a: PhpString, sep: Octet, b: PhpString)
    requires sep !in a
    ensures SplitFirst(a + [sep] + b, sep) == (a, Some(b))
  {
    if a != [] {
      assert a[0] in a;
      assert (a + [sep] + b)[0] == a[0];
      assert (a + [sep] + b)[1..] == a[1..] + [sep] + b;
      SplitFirstAt(a[1..], sep, b);
      assert [a[0]] + a[1..] == a;
    } else {
      assert a + [sep] + b == [sep] + b;
    }
  }

  lemma {:induction false} SplitFirstAbsent(a: PhpString, sep: Octet)
    requires sep !in a
    ensures SplitFirst(a, sep) == (a, None)
  {
    if a != [] {
      assert a[0] in a;
      SplitFirstAbsent(a[1..], sep);
      assert [a[0]] + a[1..] == a;
    }
  }

  /** All the pieces between occurrences of `sep` (explode). */
  function Split(s: PhpString, sep: Octet): (r: seq<PhpString>)
    ensures |r| > 0
  {
    if s == [] then [[]]
    else
      var rest := Split(s[1..], sep);
      if s[0] == sep then [[]] + rest else [[s[0]] + rest[0]] + rest[1..]
  }

  /** The pieces joined with `sep` between consecutive ones (implode). */
  function Join(parts: seq<PhpString>, sep: Octet): PhpString
    requires |parts| > 0
  {
    if |parts| == 1 then parts[0] else parts[0] + [sep] + Join(parts[1..], sep)
  }

  lemma {:induction false} SplitPrefix(a: PhpString, sep: Octet, b: PhpString)
    requires sep !in a
    ensures Split(a + b, sep) == [a + Split(b, sep)[0]] + Split(b, sep)[1..]
  {
    if a != [] {
      assert a[0] in a;
      assert (a + b)[0] == a[0] && (a + b)[1..] == a[1..] + b;
      SplitPrefix(a[1..], sep, b);
      assert [a[0]] + (a[1..] + Split(b, sep)[0]) == a + Split(b, sep)[0];
    } else {
      var r := Split(b, sep);
      assert a + b == b;
      assert a + r[0] == r[0];
      assert [r[0]] + r[1..] == r;
    }
  }

  /** Splitting undoes joining when no piece contains the delimiter. */
  lemma {:induction false} SplitJoin(parts: seq<PhpString>, sep: Octet)
    requires |parts| > 0
    requires forall i :: 0 <= i < |parts| ==> sep !in parts[i]
    ensures Split(Join(parts, sep), sep) == parts
  {
    if |parts| == 1 {
      SplitPrefix(parts[0], sep, []);
      assert parts[0] + [] == parts[0];
      assert Split([], sep) == [[]];
      assert [parts[0]] == parts;
    } else {
      var tail := Join(parts[1..], sep);
      SplitJoin(parts[1..], sep);
      assert parts[0] + [sep] + tail == parts[0] + ([sep] + tail);
      SplitPrefix(parts[0], sep, [sep] + tail);
      assert ([sep] + tail)[1..] == tail;
      assert Split([sep] + tail, sep) == [[]] + Split(tail, sep);
      assert parts[0] + [] == parts[0];
      assert [parts[0]] + parts[1..] == parts;
    }
  }
}
