/**
 * The canonical, signed query that the CloudStack request body carries
 * (src/Generator/CloudStackRequestBody.php, constructor). Each parameter value is
 * turned into a string, empty strings are dropped, keys are lower-cased, the fixed
 * keys apikey, command and response=json are merged in front, the array is sorted
 * by key, encoded as an RFC 3986 query, and the signature of that query is appended.
 */
module RequestEncoding {
  import opened Outcomes
  import opened PhpStrings
  import opened PhpArrays
  import opened QueryStrings

  /** The PHP value of one command parameter, by its gettype(). */
  datatype ParamValue =
    | Bool(b: bool)
    | Int(i: int)
    | Double(x: real)
    | Str(s: PhpString)
    | Other(typeName: string)  // array, object, NULL, resource, ...

  type Parameter = (PhpString, ParamValue)

  /**
   * What the body needs from the configuration object: the API key, and the
   * signature of a query string (HMAC and base64 in the real configuration; any
   * function here).
   */
  datatype Configuration = Configuration(apiKey: PhpString, buildSignature: PhpString -> PhpString)

  function TypeName(v: ParamValue): string {
    match v
    case Bool(_) => "boolean"
    case Int(_) => "integer"
    case Double(_) => "double"
    case Str(_) => "string"
    case Other(t) => t
  }

  /**
   * The string form of a parameter value, or None for a type the body refuses.
   * `formatFloat` stands for PHP's strval of a double.
   */
  function Coerce(v: ParamValue, formatFloat: real -> PhpString): (r: Option<PhpString>)
    ensures r.None? <==> v.Other?
  {
    match v
    case Bool(b) => Some(if b then "true" else "false")
    case Int(i) => Some(IntDecimal(i))
    case Double(x) => Some(formatFloat(x))
    case Str(s) => Some(s)
    case Other(_) => None
  }

  /** Booleans become "true"/"false", integers their decimal form (never empty, so never dropped), floats the configured formatting, strings stay; only other types fail. */
  lemma CoerceCases(v: ParamValue, formatFloat: real -> PhpString)
    ensures Coerce(v, formatFloat).None? <==> v.Other?
    ensures v.Bool? ==> Coerce(v, formatFloat) == Some(if v.b then "true" else "false")
    ensures v.Int? ==> |Coerce(v, formatFloat).value| > 0 && ParseInt(Coerce(v, formatFloat).value) == Some(v.i)
    ensures v.Double? ==> Coerce(v, formatFloat) == Some(formatFloat(v.x))
    ensures v.Str? ==> Coerce(v, formatFloat) == Some(v.s)
  {
    if v.Int? {
      IntDecimalRoundTrip(v.i);
    }
  }

  /**
   * The constructor's loop over the parameters as a function of the parameters seen
   * so far: the array `$params` after them, or the exception of the first bad one.
   */
  function Collect(ps: seq<Parameter>, formatFloat: real -> PhpString): (r: Result<seq<Entry>>)
    ensures r.Err? ==> r.error.WrongArgumentType?
    ensures r.Ok? ==> forall e :: e in r.value ==> e.1 != []
  {
    if ps == [] then Ok([])
    else match Collect(ps[..|ps| - 1], formatFloat)
      case Err(e) => Err(e)
      case Ok(acc) =>
        var (k, v) := ps[|ps| - 1];
        match Coerce(v, formatFloat)
        case None => Err(WrongArgumentType(k, TypeName(v)))
        case Some(s) => if s == [] then Ok(acc) else Ok(Put(acc, ToLower(k), s))
  }

  lemma {:induction false} CollectErrorPersists(ps: seq<Parameter>, n: nat, formatFloat: real -> PhpString)
    requires n <= |ps| && Collect(ps[..n], formatFloat).Err?
    ensures Collect(ps, formatFloat) == Collect(ps[..n], formatFloat)
    decreases |ps| - n
  {
    if n < |ps| {
      assert ps[..n + 1][..n] == ps[..n];
      CollectErrorPersists(ps, n + 1, formatFloat);
    } else {
      assert ps[..n] == ps;
    }
  }

  /** The constructor's foreach loop that fills `$params` (lines 47-71). */
  method CollectParameters(ps: seq<Parameter>, formatFloat: real -> PhpString) returns (r: Result<seq<Entry>>)
    ensures r == Collect(ps, formatFloat)
  {
    var params: seq<Entry> := [];
    var i := 0;
    while i < |ps|
      invariant 0 <= i <= |ps|
      invariant Collect(ps[..i], formatFloat) == Ok(params)
    {
      var (k, v) := ps[i];
      assert ps[..i + 1][..i] == ps[..i];
      var paramStr := Coerce(v, formatFloat);
      if paramStr.None? {
        CollectErrorPersists(ps, i + 1, formatFloat);
        return Err(WrongArgumentType(k, TypeName(v)));
      }
      if paramStr.value != [] {
        params := Put(params, ToLower(k), paramStr.value);
      }
      i := i + 1;
    }
    assert ps[..i] == ps;
    r := Ok(params);
  }

  // ---------------------------------------------------------------------------
  // What the loop produces

  /** Parameter j is the first one whose value has an unsupported type. */
  predicate FirstUnsupported(ps: seq<Parameter>, j: int) {
    0 <= j < |ps| && ps[j].1.Other? && forall i :: 0 <= i < j ==> !ps[i].1.Other?
  }

  /** Construction fails exactly when some value has an unsupported type, and it reports the first such key and its type. */
  lemma {:induction false} CollectFailure(ps: seq<Parameter>, formatFloat: real -> PhpString)
    ensures Collect(ps, formatFloat).Err? <==> exists i :: 0 <= i < |ps| && ps[i].1.Other?
    ensures forall j :: FirstUnsupported(ps, j) ==>
      Collect(ps, formatFloat) == Err(WrongArgumentType(ps[j].0, ps[j].1.typeName))
  {
    if ps != [] {
      var init := ps[..|ps| - 1];
      CollectFailure(init, formatFloat);
      assert forall i :: 0 <= i < |init| ==> init[i] == ps[i];
      forall j | FirstUnsupported(ps, j)
        ensures Collect(ps, formatFloat) == Err(WrongArgumentType(ps[j].0, ps[j].1.typeName))
      {
        if j < |init| {
          assert FirstUnsupported(init, j);
        }
      }
      if Collect(ps, formatFloat).Err? && Collect(init, formatFloat).Err? {
        var i :| 0 <= i < |init| && init[i].1.Other?;
        assert ps[i].1.Other?;
      }
    }
  }

  /** A parameter sets key k when its key lower-cases to k and its value is a non-empty string. */
  predicate SetsKey(p: Parameter, k: PhpString, formatFloat: real -> PhpString) {
    ToLower(p.0) == k && Coerce(p.1, formatFloat).Some? && Coerce(p.1, formatFloat).value != []
  }

  /** Parameter i sets key k. */
  predicate Supplies(ps: seq<Parameter>, i: int, k: PhpString, formatFloat: real -> PhpString) {
    0 <= i < |ps| && SetsKey(ps[i], k, formatFloat)
  }

  /** Parameter i is the last one that sets key k. */
  predicate LastSupplier(ps: seq<Parameter>, i: int, k: PhpString, formatFloat: real -> PhpString) {
    Supplies(ps, i, k, formatFloat) && forall j :: i < j < |ps| ==> !Supplies(ps, j, k, formatFloat)
  }

  /** The collected array has distinct, lower-case keys and no empty value. */
  lemma {:induction false} CollectedShape(ps: seq<Parameter>, formatFloat: real -> PhpString)
    requires Collect(ps, formatFloat).Ok?
    ensures DistinctKeys(Collect(ps, formatFloat).value)
    ensures forall e :: e in Collect(ps, formatFloat).value ==> IsLowerCase(e.0) && e.1 != []
  {
    if ps != [] {
      var init := ps[..|ps| - 1];
      CollectedShape(init, formatFloat);
      var acc := Collect(init, formatFloat).value;
      var (k, v) := ps[|ps| - 1];
      var s := Coerce(v, formatFloat).value;
      if s != [] {
        PutDistinct(acc, ToLower(k), s);
        ToLowerIdempotent(k);
      }
    }
  }

  /** The value that the last parameter setting key k gives it, if any parameter does. */
  function LastValue(ps: seq<Parameter>, k: PhpString, formatFloat: real -> PhpString): Option<PhpString> {
    if ps == [] then None
    else if Supplies(ps, |ps| - 1, k, formatFloat) then Coerce(ps[|ps| - 1].1, formatFloat)
    else LastValue(ps[..|ps| - 1], k, formatFloat)
  }

  /** LastValue finds a value exactly when some parameter sets k. */
  lemma {:induction false} LastValuePresence(ps: seq<Parameter>, k: PhpString, formatFloat: real -> PhpString)
    ensures LastValue(ps, k, formatFloat).Some? <==> exists i :: Supplies(ps, i, k, formatFloat)
  {
    if ps != [] {
      var n := |ps| - 1;
      var init := ps[..n];
      LastValuePresence(init, k, formatFloat);
      if !Supplies(ps, n, k, formatFloat) {
        if i :| Supplies(ps, i, k, formatFloat) {
          assert init[i] == ps[i];
          assert Supplies(init, i, k, formatFloat);
        }
        if i :| Supplies(init, i, k, formatFloat) {
          assert init[i] == ps[i];
          assert Supplies(ps, i, k, formatFloat);
        }
      }
    }
  }

  /** The value LastValue finds is the one of the last parameter that sets k. */
  lemma {:induction false} LastValueIsLast(ps: seq<Parameter>, k: PhpString, formatFloat: real -> PhpString, i: int)
    requires LastSupplier(ps, i, k, formatFloat)
    ensures LastValue(ps, k, formatFloat) == Coerce(ps[i].1, formatFloat)
  {
    var n := |ps| - 1;
    var init := ps[..n];
    if i < n {
      assert !Supplies(ps, n, k, formatFloat);
      assert init[i] == ps[i];
      forall j | i < j < n ensures !Supplies(init, j, k, formatFloat) {
        assert init[j] == ps[j];
        assert !Supplies(ps, j, k, formatFloat);
      }
      LastValueIsLast(init, k, formatFloat, i);
    }
  }

  /**
   * The collected array maps each key to the value of the last parameter that sets
   * it: later keys that collide after lower-casing overwrite earlier ones, and empty
   * values never overwrite.
   */
  lemma {:induction false} CollectedLookup(ps: seq<Parameter>, k: PhpString, formatFloat: real -> PhpString)
    requires Collect(ps, formatFloat).Ok?
    ensures Lookup(Collect(ps, formatFloat).value, k) == LastValue(ps, k, formatFloat)
  {
    if ps != [] {
      var n := |ps| - 1;
      var init := ps[..n];
      assert Collect(init, formatFloat).Ok?;
      CollectedLookup(init, k, formatFloat);
      var acc := Collect(init, formatFloat).value;
      var (key, v) := ps[n];
      var s := Coerce(v, formatFloat).value;
      if s != [] {
        PutLookup(acc, ToLower(key), s, k);
      }
    }
  }

  // ---------------------------------------------------------------------------
  // Merging, sorting, encoding and signing

  const ApiKeyKey: PhpString := "apikey"
  const CommandKey: PhpString := "command"
  const ResponseKey: PhpString := "response"
  const ResponseFormat: PhpString := "json"
  const SignatureSeparator: PhpString := "&signature="

  /** `['apikey' => ..., 'command' => ..., 'response' => 'json']` */
  function FixedParameters(apiKey: PhpString, command: PhpString): seq<Entry> {
    [(ApiKeyKey, apiKey), (CommandKey, command), (ResponseKey, ResponseFormat)]
  }

  predicate IsFixedKey(k: PhpString) {
    k == ApiKeyKey || k == CommandKey || k == ResponseKey
  }

  /** The array after the union with the fixed keys and ksort (lines 73-74). */
  function CanonicalEntries(apiKey: PhpString, command: PhpString, user: seq<Entry>): (r: seq<Entry>)
    ensures (ApiKeyKey, apiKey) in r && (CommandKey, command) in r && (ResponseKey, ResponseFormat) in r
  {
    var merged := Union(FixedParameters(apiKey, command), user);
    assert merged[0] in multiset(merged) && merged[1] in multiset(merged) && merged[2] in multiset(merged);
    KSort(merged)
  }

  /** The unsigned query (line 76). */
  function CanonicalQuery(apiKey: PhpString, command: PhpString, user: seq<Entry>): (r: PhpString)
    ensures r != []
  {
    BuildQuery(CanonicalEntries(apiKey, command, user))
  }

  /** The whole body the constructor writes (lines 47-77), or its exception. */
  function SignedBody(config: Configuration, command: PhpString, ps: seq<Parameter>, formatFloat: real -> PhpString): (r: Result<PhpString>)
    ensures r.Err? <==> exists i :: 0 <= i < |ps| && ps[i].1.Other?
  {
    CollectFailure(ps, formatFloat);
    match Collect(ps, formatFloat)
    case Err(e) => Err(e)
    case Ok(user) =>
      var query := CanonicalQuery(config.apiKey, command, user);
      Ok(query + SignatureSeparator + config.buildSignature(query))
  }

  /**
   * The canonical entries have strictly ascending keys; apikey, command and response
   * always carry the configured key, the command and "json", whatever the user
   * parameters say; every other key maps to what the user parameters give it; and the
   * query string parses back to exactly these entries.
   */
  lemma CanonicalQueryContents(apiKey: PhpString, command: PhpString, user: seq<Entry>)
    requires DistinctKeys(user)
    ensures StrictlySorted(CanonicalEntries(apiKey, command, user))
    ensures ParseQuery(CanonicalQuery(apiKey, command, user)) == Some(CanonicalEntries(apiKey, command, user))
    ensures Lookup(CanonicalEntries(apiKey, command, user), ApiKeyKey) == Some(apiKey)
    ensures Lookup(CanonicalEntries(apiKey, command, user), CommandKey) == Some(command)
    ensures Lookup(CanonicalEntries(apiKey, command, user), ResponseKey) == Some(ResponseFormat)
    ensures forall k :: !IsFixedKey(k) ==> Lookup(CanonicalEntries(apiKey, command, user), k) == Lookup(user, k)
  {
    var fixed := FixedParameters(apiKey, command);
    var merged := Union(fixed, user);
    FixedParametersShape(apiKey, command);
    UnionDistinct(fixed, user);
    KSortSorted(merged);
    QueryRoundTrip(KSort(merged));
    CanonicalLookup(apiKey, command, user, ApiKeyKey);
    CanonicalLookup(apiKey, command, user, CommandKey);
    CanonicalLookup(apiKey, command, user, ResponseKey);
    forall k | !IsFixedKey(k) ensures Lookup(CanonicalEntries(apiKey, command, user), k) == Lookup(user, k) {
      CanonicalLookup(apiKey, command, user, k);
    }
  }

  /** A fixed key maps to its fixed value and any other key to the user's value. */
  lemma CanonicalLookup(apiKey: PhpString, command: PhpString, user: seq<Entry>, k: PhpString)
    requires DistinctKeys(user)
    ensures Lookup(CanonicalEntries(apiKey, command, user), k)
         == if IsFixedKey(k) then Lookup(FixedParameters(apiKey, command), k) else Lookup(user, k)
  {
    var fixed := FixedParameters(apiKey, command);
    FixedParametersShape(apiKey, command);
    UnionDistinct(fixed, user);
    KSortLookup(Union(fixed, user), k);
    UnionLookup(fixed, user, k);
  }

  /** The fixed array has the three distinct fixed keys and their values. */
  lemma FixedParametersShape(apiKey: PhpString, command: PhpString)
    ensures DistinctKeys(FixedParameters(apiKey, command))
    ensures forall k :: HasKey(FixedParameters(apiKey, command), k) <==> IsFixedKey(k)
    ensures Lookup(FixedParameters(apiKey, command), ApiKeyKey) == Some(apiKey)
    ensures Lookup(FixedParameters(apiKey, command), CommandKey) == Some(command)
    ensures Lookup(FixedParameters(apiKey, command), ResponseKey) == Some(ResponseFormat)
  {
    var fixed := FixedParameters(apiKey, command);
    assert ApiKeyKey[0] == 'a' && CommandKey[0] == 'c' && ResponseKey[0] == 'r';
    assert fixed[0].0 == ApiKeyKey && fixed[1].0 == CommandKey && fixed[2].0 == ResponseKey;
  }

  /**
   * Construction fails exactly when a value has an unsupported type, and then with
   * the exception of the first such parameter.
   */
  lemma SignedBodyFailure(config: Configuration, command: PhpString, ps: seq<Parameter>, formatFloat: real -> PhpString)
    ensures SignedBody(config, command, ps, formatFloat).Err? <==> exists i :: 0 <= i < |ps| && ps[i].1.Other?
    ensures forall j :: FirstUnsupported(ps, j) ==>
      SignedBody(config, command, ps, formatFloat) == Err(WrongArgumentType(ps[j].0, ps[j].1.typeName))
  {
    CollectFailure(ps, formatFloat);
  }

  /**
   * End to end, for a construction that succeeds: the body is the canonical query,
   * "&signature=", and the signature of exactly that query, and the query holds the
   * fixed keys and the user keys that a parameter sets, in ascending order.
   */
  lemma SignedBodyContents(config: Configuration, command: PhpString, ps: seq<Parameter>, formatFloat: real -> PhpString, k: PhpString)
    requires SignedBody(config, command, ps, formatFloat).Ok?
    ensures
      var user := Collect(ps, formatFloat).value;
      var query := CanonicalQuery(config.apiKey, command, user);
      var entries := CanonicalEntries(config.apiKey, command, user);
      && SignedBody(config, command, ps, formatFloat).value == query + SignatureSeparator + config.buildSignature(query)
      && ParseQuery(query) == Some(entries)
      && StrictlySorted(entries)
      && Lookup(entries, ApiKeyKey) == Some(config.apiKey)
      && Lookup(entries, CommandKey) == Some(command)
      && Lookup(entries, ResponseKey) == Some(ResponseFormat)
      && (!IsFixedKey(k) ==> (Lookup(entries, k).Some? <==> exists i :: Supplies(ps, i, k, formatFloat)))
  {
    var user := Collect(ps, formatFloat).value;
    CollectedShape(ps, formatFloat);
    CollectedLookup(ps, k, formatFloat);
    LastValuePresence(ps, k, formatFloat);
    CanonicalQueryContents(config.apiKey, command, user);
  }
}
