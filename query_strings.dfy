/**
 * http_build_query($params, '', '&', PHP_QUERY_RFC3986) for an array of string keys
 * and string values, and the parse that recovers the array from its output.
 */
module QueryStrings {
  import opened Outcomes
  import opened PhpStrings
  import opened PercentEncoding
  import opened PhpArrays

  /** One `key=value` pair, both sides percent-encoded. */
  function EncodePair(e: Entry): PhpString {
    Encode(e.0) + "=" + Encode(e.1)
  }

  function EncodePairs(es: seq<Entry>): (r: seq<PhpString>)
    ensures |r| == |es|
    ensures forall i :: 0 <= i < |es| ==> r[i] == EncodePair(es[i])
  {
    if es == [] then [] else [EncodePair(es[0])] + EncodePairs(es[1..])
  }

  /** http_build_query: the encoded pairs in array order, separated by "&"; "" for an empty array. */
  function BuildQuery(es: seq<Entry>): (r: PhpString)
    ensures r == [] <==> es == []
    ensures es != [] ==> |EncodePair(es[0])| <= |r| && r[..|EncodePair(es[0])|] == EncodePair(es[0])
  {
    if es == [] then [] else Join(EncodePairs(es), '&')
  }

  /** Reads one `key=value` pair back: exactly one "=", both sides valid percent-encodings. */
  function ParsePair(p: PhpString): Option<Entry> {
    var sides := Split(p, '=');
    if |sides| != 2 then None
    else match (Decode(sides[0]), Decode(sides[1]))
      case (Some(k), Some(v)) => Some((k, v))
      case _ => None
  }

  function ParsePairs(ps: seq<PhpString>): Option<seq<Entry>> {
    if ps == [] then Some([])
    else match (ParsePair(ps[0]), ParsePairs(ps[1..]))
      case (Some(e), Some(rest)) => Some([e] + rest)
      case _ => None
  }

  /** Reads a query string back into the array of its pairs, in order. */
  function ParseQuery(q: PhpString): Option<seq<Entry>> {
    if q == [] then Some([]) else ParsePairs(Split(q, '&'))
  }

  lemma EncodePairParses(e: Entry)
    ensures '&' !in EncodePair(e)
    ensures ParsePair(EncodePair(e)) == Some(e)
  {
    EncodeIsEncoded(e.0);
    EncodeIsEncoded(e.1);
    DecodeEncode(e.0);
    DecodeEncode(e.1);
    var parts := [Encode(e.0), Encode(e.1)];
    assert Join(parts, '=') == EncodePair(e);
    SplitJoin(parts, '=');
  }

  lemma {:induction false} ParseEncodedPairs(es: seq<Entry>)
    ensures ParsePairs(EncodePairs(es)) == Some(es)
  {
    if es != [] {
      EncodePairParses(es[0]);
      ParseEncodedPairs(es[1..]);
      assert EncodePairs(es)[1..] == EncodePairs(es[1..]);
      assert [es[0]] + es[1..] == es;
    }
  }

  /** Parsing a built query gives back exactly the array it was built from, pairs and order. */
  lemma QueryRoundTrip(es: seq<Entry>)
    ensures ParseQuery(BuildQuery(es)) == Some(es)
  {
    if es != [] {
      var pairs := EncodePairs(es);
      forall i | 0 <= i < |pairs| ensures '&' !in pairs[i] {
        EncodePairParses(es[i]);
      }
      SplitJoin(pairs, '&');
      ParseEncodedPairs(es);
    }
  }
}
