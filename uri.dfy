/**
 * CloudStackUri (src/Generator/CloudStackUri.php): the PSR-7 URI of a command. Its
 * components are fixed at construction; every with* operation returns a clone whose
 * cached string is cleared, and __toString composes the string once and caches it.
 */
module Uri {
  import opened Outcomes
  import opened PhpStrings
  import C = UriComponents

  class CloudStackUri {
    const components: C.Components
    /** The cached result of __toString, null until the first call. */
    var compiled: Option<PhpString>

    ghost predicate Valid()
      reads this
    {
      compiled.Some? ==> compiled.value == C.ComposeAsWritten(components)
    }

    /**
     * The constructor: scheme, host and the integer port from the configuration, the
     * path "<path prefix>/<command path>", the command's query; no user info, no fragment.
     */
    constructor (scheme: PhpString, host: PhpString, port: int, pathPrefix: PhpString,
                 commandPath: PhpString, query: PhpString)
      ensures Valid() && compiled == None
      ensures components == C.Components(scheme, [], host, Some(port), pathPrefix + ['/'] + commandPath, query, [])
    {
      components := C.Components(scheme, [], host, Some(port), pathPrefix + ['/'] + commandPath, query, []);
      compiled := None;
    }

    /** `clone` followed by the field assignment of a with* operation: new components, no cached string. */
    constructor Clone(c: C.Components)
      ensures Valid() && compiled == None && components == c
    {
      components := c;
      compiled := None;
    }

    function GetScheme(): PhpString reads this { components.scheme }
    /** getAuthority: empty exactly when there is no user info, no host and no port other than 0. */
    function GetAuthority(): (r: PhpString)
      reads this
      ensures r == [] <==> GetUserInfo() == [] && GetHost() == [] && (GetPort().None? || GetPort().value == 0)
    {
      C.AuthorityEmpty(components);
      C.Authority(components)
    }

    function GetUserInfo(): PhpString reads this { components.userInfo }
    function GetHost(): PhpString reads this { components.host }
    function GetPort(): Option<int> reads this { components.port }
    function GetPath(): PhpString reads this { components.path }
    function GetQuery(): PhpString reads this { components.query }
    function GetFragment(): PhpString reads this { components.fragment }

    /** withScheme: a fresh copy with the lower-cased scheme, or the invalid-scheme error. */
    method WithScheme(scheme: PhpString) returns (r: Result<CloudStackUri>)
      ensures r.Err? ==> C.WithScheme(components, scheme).Err? && r == Err(C.WithScheme(components, scheme).error)
      ensures r.Ok? ==> && C.WithScheme(components, scheme).Ok? && fresh(r.value) && r.value.Valid()
                        && r.value.components == C.WithScheme(components, scheme).value && r.value.compiled == None
    {
      var next := C.WithScheme(components, scheme);
      if next.Err? {
        return Err(next.error);
      }
      var u := new CloudStackUri.Clone(next.value);
      r := Ok(u);
    }

    /** withUserInfo: a fresh copy with "user" or "user:password" as user info. */
    method WithUserInfo(user: PhpString, password: Option<PhpString>) returns (r: CloudStackUri)
      ensures fresh(r) && r.Valid() && r.compiled == None
      ensures r.components == C.WithUserInfo(components, user, password)
    {
      r := new CloudStackUri.Clone(C.WithUserInfo(components, user, password));
    }

    /** withHost: a fresh copy with the host, or an empty host for null. */
    method WithHost(host: Option<PhpString>) returns (r: CloudStackUri)
      ensures fresh(r) && r.Valid() && r.compiled == None
      ensures r.components == C.WithHost(components, host)
    {
      r := new CloudStackUri.Clone(C.WithHost(components, host));
    }

    /** withPort: a fresh copy with the port or without one for null, or the invalid-port error. */
    method WithPort(port: C.Arg<int>) returns (r: Result<CloudStackUri>)
      ensures r.Err? ==> C.WithPort(components, port).Err? && r == Err(C.WithPort(components, port).error)
      ensures r.Ok? ==> && C.WithPort(components, port).Ok? && fresh(r.value) && r.value.Valid()
                        && r.value.components == C.WithPort(components, port).value && r.value.compiled == None
    {
      var next := C.WithPort(components, port);
      if next.Err? {
        return Err(next.error);
      }
      var u := new CloudStackUri.Clone(next.value);
      r := Ok(u);
    }

    /** withPath: a fresh copy with the path stripped of leading slashes, or the invalid-path error. */
    method WithPath(path: C.Arg<PhpString>) returns (r: Result<CloudStackUri>)
      ensures r.Err? ==> C.WithPath(components, path).Err? && r == Err(C.WithPath(components, path).error)
      ensures r.Ok? ==> && C.WithPath(components, path).Ok? && fresh(r.value) && r.value.Valid()
                        && r.value.components == C.WithPath(components, path).value && r.value.compiled == None
    {
      var next := C.WithPath(components, path);
      if next.Err? {
        return Err(next.error);
      }
      var u := new CloudStackUri.Clone(next.value);
      r := Ok(u);
    }

    /** withQuery: a fresh copy with the query, or the invalid-query error. */
    method WithQuery(query: C.Arg<PhpString>) returns (r: Result<CloudStackUri>)
      ensures r.Err? ==> C.WithQuery(components, query).Err? && r == Err(C.WithQuery(components, query).error)
      ensures r.Ok? ==> && C.WithQuery(components, query).Ok? && fresh(r.value) && r.value.Valid()
                        && r.value.components == C.WithQuery(components, query).value && r.value.compiled == None
    {
      var next := C.WithQuery(components, query);
      if next.Err? {
        return Err(next.error);
      }
      var u := new CloudStackUri.Clone(next.value);
      r := Ok(u);
    }

    /** withFragment: a fresh copy with the fragment. */
    method WithFragment(fragment: PhpString) returns (r: CloudStackUri)
      ensures fresh(r) && r.Valid() && r.compiled == None
      ensures r.components == C.WithFragment(components, fragment)
    {
      r := new CloudStackUri.Clone(C.WithFragment(components, fragment));
    }

    /**
     * __toString: composes the string on the first call exactly as lines 242-280 do,
     * line 261 included, and caches it; every later call returns the cache.
     */
    method ToString() returns (s: PhpString)
      requires Valid()
      modifies this`compiled
      ensures Valid() && compiled == Some(s)
      ensures s == C.ComposeAsWritten(components)
    {
      if compiled.None? {
        compiled := Some(C.ComposeAsWritten(components));
      }
      s := compiled.value;
    }
  }
}
