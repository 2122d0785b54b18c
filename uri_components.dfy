/**
 * The value behind CloudStackUri (src/Generator/CloudStackUri.php): its seven
 * components, the with* validations, the authority and the composed URI string,
 * and the generic syntax of RFC 3986 (the regular expression of its Appendix B)
 * that reads a composed URI back.
 */
module UriComponents {
  import opened Outcomes
  import opened PhpStrings

  /** The fields of a CloudStackUri. `port` is None once withPort(null) removed it. */
  datatype Components = Components(
    scheme: PhpString,
    userInfo: PhpString,
    host: PhpString,
    port: Option<int>,
    path: PhpString,
    query: PhpString,
    fragment: PhpString)

  /** A with* argument that PHP does not type: null, a value of the expected type, or another type. */
  datatype Arg<T> = Null | Given(value: T) | WrongType(typeName: string)

  const Http: PhpString := "http"
  const Https: PhpString := "https"
  const MaxPort: int := 65535
  const DoubleSlash: PhpString := "//"

  // ---------------------------------------------------------------------------
  // getAuthority and __toString

  /** True when getAuthority writes a port: the port is neither null nor 0. */
  predicate ShowsPort(c: Components) {
    c.port.Some? && c.port.value != 0
  }

  /** getAuthority: "[user-info@]host[:port]". */
  function Authority(c: Components): (r: PhpString)
    ensures c.userInfo == [] && !ShowsPort(c) ==> r == c.host
  {
    UserInfoPrefix(c.userInfo) + HostPort(c)
  }

  /** "host[:port]". */
  function HostPort(c: Components): PhpString {
    c.host + PortSuffix(c)
  }

  /** "user-info@" when there is user information. */
  function UserInfoPrefix(userInfo: PhpString): PhpString {
    if userInfo == [] then [] else userInfo + ['@']
  }

  /** ":port" in decimal when the port is shown. */
  function PortSuffix(c: Components): PhpString {
    if ShowsPort(c) then [':'] + IntDecimal(c.port.value) else []
  }

  /** The authority is empty exactly when there is no user info, no host and no port shown. */
  lemma AuthorityEmpty(c: Components)
    ensures Authority(c) == [] <==> c.userInfo == [] && c.host == [] && !ShowsPort(c)
  {
    if ShowsPort(c) {
      IntDecimalSymbols(c.port.value);
    }
  }

  /**
   * The path as __toString writes it (lines 258-272): a path without a leading slash
   * gets one; with an authority a leading slash is kept; without one line 261 puts a
   * second slash in front of it.
   */
  function PathPartAsWritten(c: Components): (r: PhpString)
    ensures r == [] <==> c.path == []
    ensures r != [] ==> r[0] == '/' && TrimLeadingSlashes(r) == TrimLeadingSlashes(c.path)
  {
    var p := c.path;
    if p == [] then []
    else if StartsWithSlash(p) then (if Authority(c) == [] then ['/'] + p else p)
    else (if Authority(c) == [] then ['/'] + TrimLeadingSlashes(p) else ['/'] + p)
  }

  /** The path with the one change line 261 evidently intends: exactly one leading slash without an authority. */
  function PathPart(c: Components): (r: PhpString)
    ensures r == [] <==> c.path == []
  {
    var p := c.path;
    if p == [] then []
    else if Authority(c) == [] then ['/'] + TrimLeadingSlashes(p)
    else if StartsWithSlash(p) then p
    else ['/'] + p
  }

  /**
   * __toString's assembly (lines 248-280): "scheme:" when there is a scheme, "//authority"
   * when there is an authority, the path as written, "?query" and "#fragment" when non-empty.
   */
  function Assemble(scheme: PhpString, authority: PhpString, path: PhpString, query: PhpString, fragment: PhpString): PhpString {
    Head(scheme, authority, path) + Introduced('?', query) + Introduced('#', fragment)
  }

  /** Everything before the query: "scheme:", "//authority" and the path. */
  function Head(scheme: PhpString, authority: PhpString, path: PhpString): PhpString {
    (if scheme == [] then [] else scheme + [':']) + Hierarchy(authority, path)
  }

  /** The hierarchical part: "//authority" when there is an authority, then the path. */
  function Hierarchy(authority: PhpString, path: PhpString): PhpString {
    (if authority == [] then [] else DoubleSlash + authority) + path
  }

  /** __toString exactly as written. */
  function ComposeAsWritten(c: Components): (r: PhpString)
    ensures c.scheme != [] ==> |c.scheme| < |r| && r[..|c.scheme| + 1] == c.scheme + [':']
    ensures c.fragment != [] ==> |c.fragment| < |r| && r[|r| - |c.fragment| - 1..] == ['#'] + c.fragment
  {
    AssembleEnds(c.scheme, Authority(c), PathPartAsWritten(c), c.query, c.fragment);
    Assemble(c.scheme, Authority(c), PathPartAsWritten(c), c.query, c.fragment)
  }

  /** An assembled URI starts with "scheme:" when there is a scheme and ends with "#fragment" when there is a fragment. */
  lemma AssembleEnds(scheme: PhpString, authority: PhpString, path: PhpString, query: PhpString, fragment: PhpString)
    ensures var u := Assemble(scheme, authority, path, query, fragment);
      && (scheme != [] ==> |scheme| < |u| && u[..|scheme| + 1] == scheme + [':'])
      && (fragment != [] ==> |fragment| < |u| && u[|u| - |fragment| - 1..] == ['#'] + fragment)
  {
    var h := Head(scheme, authority, path);
    var q := Introduced('?', query);
    var f := Introduced('#', fragment);
    if scheme != [] {
      assert h == scheme + [':'] + Hierarchy(authority, path);
      assert (h + q + f)[..|scheme| + 1] == h[..|scheme| + 1];
    }
    if fragment != [] {
      assert f == ['#'] + fragment;
    }
  }

  /** __toString with the corrected path: the intended half of the finding at line 261. */
  function Compose(c: Components): (r: PhpString)
    ensures c.scheme != [] ==> |c.scheme| < |r| && r[..|c.scheme| + 1] == c.scheme + [':']
    ensures c.fragment != [] ==> |c.fragment| < |r| && r[|r| - |c.fragment| - 1..] == ['#'] + c.fragment
  {
    AssembleEnds(c.scheme, Authority(c), PathPart(c), c.query, c.fragment);
    Assemble(c.scheme, Authority(c), PathPart(c), c.query, c.fragment)
  }

  /** The corrected path is empty only for an empty path, otherwise starts with one slash and keeps the segments. */
  lemma PathPartShape(c: Components)
    ensures PathPart(c) == [] <==> c.path == []
    ensures PathPart(c) != [] ==> PathPart(c)[0] == '/'
    ensures PathPart(c) != [] ==> TrimLeadingSlashes(PathPart(c)[1..]) == TrimLeadingSlashes(c.path)
    ensures Authority(c) == [] && PathPart(c) != [] ==> !StartsWithSlash(PathPart(c)[1..])
  {
    var p := c.path;
    if p != [] && Authority(c) != [] && StartsWithSlash(p) {
      assert TrimLeadingSlashes(p) == TrimLeadingSlashes(p[1..]);
    }
  }

  // ---------------------------------------------------------------------------
  // RFC 3986, Appendix B: ^(([^:/?#]+):)?(//([^/?#]*))?([^?#]*)(\?([^#]*))?(#(.*))?

  /** The five parts the regular expression of RFC 3986 Appendix B captures; None where a group is absent. */
  datatype Reference = Reference(
    scheme: Option<PhpString>,
    authority: Option<PhpString>,
    path: PhpString,
    query: Option<PhpString>,
    fragment: Option<PhpString>)

  /** The scheme group: a non-empty run without ":", "/", "?" or "#" followed by ":"; and the rest. */
  function SplitScheme(s: PhpString): (Option<PhpString>, PhpString) {
    var byColon := SplitFirst(s, ':');
    if byColon.1.Some? && byColon.0 != [] && '/' !in byColon.0 then (Some(byColon.0), byColon.1.value)
    else (None, s)
  }

  /** The authority group: what follows "//" up to the next "/"; and the path. */
  function SplitAuthority(hier: PhpString): (Option<PhpString>, PhpString) {
    if |hier| >= 2 && hier[..2] == DoubleSlash then
      var bySlash := SplitFirst(hier[2..], '/');
      (Some(bySlash.0), if bySlash.1.Some? then ['/'] + bySlash.1.value else [])
    else (None, hier)
  }

  function ParseReference(u: PhpString): Reference {
    var byFragment := SplitFirst(u, '#');
    var byQuery := SplitFirst(byFragment.0, '?');
    var scheme := SplitScheme(byQuery.0);
    var authority := SplitAuthority(scheme.1);
    Reference(scheme.0, authority.0, authority.1, byQuery.1, byFragment.1)
  }

  lemma SplitSchemeOf(scheme: PhpString, rest: PhpString)
    requires scheme != [] && ':' !in scheme && '/' !in scheme
    ensures SplitScheme(scheme + [':'] + rest) == (Some(scheme), rest)
  {
    SplitFirstAt(scheme, ':', rest);
  }

  lemma SplitSchemeNone(rest: PhpString)
    requires rest == [] || rest[0] == '/'
    ensures SplitScheme(rest) == (None, rest)
  {
    if rest != [] {
      assert SplitFirst(rest, ':').0 == [rest[0]] + SplitFirst(rest[1..], ':').0;
      assert '/' in SplitFirst(rest, ':').0;
    }
  }

  lemma SplitAuthorityOf(authority: PhpString, path: PhpString)
    requires '/' !in authority
    requires path == [] || path[0] == '/'
    ensures SplitAuthority(DoubleSlash + authority + path) == (Some(authority), path)
  {
    var hier := DoubleSlash + authority + path;
    assert hier[..2] == DoubleSlash;
    assert hier[2..] == authority + path;
    if path == [] {
      assert authority + path == authority;
      SplitFirstAbsent(authority, '/');
    } else {
      assert authority + path == authority + ['/'] + path[1..];
      assert ['/'] + path[1..] == path;
      SplitFirstAt(authority, '/', path[1..]);
    }
  }

  lemma SplitAuthorityNone(path: PhpString)
    requires |path| < 2 || path[1] != '/'
    ensures SplitAuthority(path) == (None, path)
  {
    if |path| >= 2 {
      assert path[..2][1] == path[1];
    }
  }

  /** A part introduced by `sep` only when it is non-empty, as the query and the fragment are. */
  function Introduced(sep: Octet, part: PhpString): PhpString {
    if part == [] then [] else [sep] + part
  }

  lemma SplitIntroduced(head: PhpString, sep: Octet, part: PhpString)
    requires sep !in head
    ensures SplitFirst(head + Introduced(sep, part), sep) == (head, if part == [] then None else Some(part))
  {
    if part == [] {
      assert head + [] == head;
      SplitFirstAbsent(head, sep);
    } else {
      assert head + ([sep] + part) == head + [sep] + part;
      SplitFirstAt(head, sep, part);
    }
  }

  /** The scheme and authority groups of the part of an assembled URI before its query. */
  lemma ParseHead(scheme: PhpString, authority: PhpString, path: PhpString)
    requires ':' !in scheme && '/' !in scheme
    requires '/' !in authority
    requires path == [] || path[0] == '/'
    requires authority == [] ==> |path| < 2 || path[1] != '/'
    ensures SplitScheme(Head(scheme, authority, path)) == (if scheme == [] then None else Some(scheme), Hierarchy(authority, path))
    ensures SplitAuthority(Hierarchy(authority, path)) == (if authority == [] then None else Some(authority), path)
  {
    var h := Hierarchy(authority, path);
    if authority == [] {
      assert h == path;
      SplitAuthorityNone(path);
    } else {
      SplitAuthorityOf(authority, path);
    }
    if scheme == [] {
      assert [] + h == h;
      SplitSchemeNone(h);
    } else {
      SplitSchemeOf(scheme, h);
    }
  }

  /** The generic syntax reads an assembled URI back into the pieces it was assembled from. */
  lemma AssembleParses(scheme: PhpString, authority: PhpString, path: PhpString, query: PhpString, fragment: PhpString)
    requires ':' !in scheme && '/' !in scheme && '?' !in scheme && '#' !in scheme
    requires '/' !in authority && '?' !in authority && '#' !in authority
    requires '?' !in path && '#' !in path && '#' !in query
    requires path == [] || path[0] == '/'
    requires authority == [] ==> |path| < 2 || path[1] != '/'
    ensures ParseReference(Assemble(scheme, authority, path, query, fragment)) == Reference(
      if scheme == [] then None else Some(scheme),
      if authority == [] then None else Some(authority),
      path,
      if query == [] then None else Some(query),
      if fragment == [] then None else Some(fragment))
  {
    var head := Head(scheme, authority, path);
    var q := Introduced('?', query);
    assert '?' !in head && '#' !in head + q;
    SplitIntroduced(head + q, '#', fragment);
    SplitIntroduced(head, '?', query);
    ParseHead(scheme, authority, path);
  }

  /** The authority split into user information, host and port (section 3.2 of RFC 3986). */
  datatype AuthorityParts = AuthorityParts(userInfo: PhpString, host: PhpString, port: Option<int>)

  /** Reads an authority back; None when what follows the ":" is not an integer. */
  function ParseAuthority(a: PhpString): Option<AuthorityParts> {
    var byAt := SplitFirst(a, '@');
    if byAt.1.Some? then ParseHostPort(byAt.0, byAt.1.value) else ParseHostPort([], a)
  }

  /** Reads "host[:port]" after the user information. */
  function ParseHostPort(userInfo: PhpString, hostPort: PhpString): Option<AuthorityParts> {
    var byColon := SplitFirst(hostPort, ':');
    if byColon.1.None? then Some(AuthorityParts(userInfo, byColon.0, None))
    else match ParseInt(byColon.1.value)
      case Some(n) => Some(AuthorityParts(userInfo, byColon.0, Some(n)))
      case None => None
  }

  /** No component holds a character that delimits it in the composed URI. */
  predicate Delimited(c: Components) {
    && ':' !in c.scheme && '/' !in c.scheme && '?' !in c.scheme && '#' !in c.scheme
    && '@' !in c.userInfo && '/' !in c.userInfo && '?' !in c.userInfo && '#' !in c.userInfo
    && ':' !in c.host && '@' !in c.host && '/' !in c.host && '?' !in c.host && '#' !in c.host
    && '?' !in c.path && '#' !in c.path
    && '#' !in c.query
  }

  /** The host and port split at the first ":", and the port reads back as an integer. */
  lemma HostPortSplits(c: Components)
    requires ':' !in c.host && '@' !in c.host
    ensures '@' !in HostPort(c)
    ensures SplitFirst(HostPort(c), ':')
         == (c.host, if ShowsPort(c) then Some(IntDecimal(c.port.value)) else None)
    ensures ShowsPort(c) ==> ParseInt(IntDecimal(c.port.value)) == Some(c.port.value)
  {
    if ShowsPort(c) {
      var digits := IntDecimal(c.port.value);
      IntDecimalSymbols(c.port.value);
      IntDecimalRoundTrip(c.port.value);
      assert HostPort(c) == c.host + [':'] + digits;
      SplitFirstAt(c.host, ':', digits);
    } else {
      assert HostPort(c) == c.host;
      SplitFirstAbsent(c.host, ':');
    }
  }

  /** The user information ends at the first "@". */
  lemma UserInfoSplits(userInfo: PhpString, rest: PhpString)
    requires '@' !in userInfo && '@' !in rest
    ensures SplitFirst(UserInfoPrefix(userInfo) + rest, '@')
         == if userInfo == [] then (rest, None) else (userInfo, Some(rest))
  {
    if userInfo == [] {
      assert UserInfoPrefix(userInfo) + rest == rest;
      SplitFirstAbsent(rest, '@');
    } else {
      SplitFirstAt(userInfo, '@', rest);
    }
  }

  /** getAuthority can be read back: user information, host, and the port unless it is 0. */
  lemma AuthorityRoundTrip(c: Components)
    requires '@' !in c.userInfo && ':' !in c.host && '@' !in c.host
    ensures ParseAuthority(Authority(c))
         == Some(AuthorityParts(c.userInfo, c.host, if ShowsPort(c) then c.port else None))
  {
    var parts := AuthorityParts(c.userInfo, c.host, if ShowsPort(c) then c.port else None);
    HostPortSplits(c);
    assert ParseHostPort(c.userInfo, HostPort(c)) == Some(parts);
    UserInfoSplits(c.userInfo, HostPort(c));
    if c.userInfo == [] {
      assert Authority(c) == HostPort(c);
    }
  }

  /** Characters the authority cannot contain when its parts are delimited. */
  lemma AuthoritySymbols(c: Components)
    requires Delimited(c)
    ensures '/' !in Authority(c) && '?' !in Authority(c) && '#' !in Authority(c)
  {
    if ShowsPort(c) {
      IntDecimalSymbols(c.port.value);
    }
  }

  /** The corrected path keeps the path free of "?" and "#", and never starts with "//" without an authority. */
  lemma PathPartDelimited(c: Components)
    requires '?' !in c.path && '#' !in c.path
    ensures '?' !in PathPart(c) && '#' !in PathPart(c)
    ensures PathPart(c) == [] || PathPart(c)[0] == '/'
    ensures Authority(c) == [] ==> |PathPart(c)| < 2 || PathPart(c)[1] != '/'
  {
    var p := c.path;
    if p == [] {
    } else if Authority(c) == [] {
      var t := TrimLeadingSlashes(p);
      assert t == p[|p| - |t|..];
      assert '?' !in t && '#' !in t;
      assert PathPart(c) == ['/'] + t;
      if |t| > 0 {
        assert PathPart(c)[1] == t[0];
      }
    } else if StartsWithSlash(p) {
      assert PathPart(c) == p;
    } else {
      assert PathPart(c) == ['/'] + p;
    }
  }

  /**
   * Reading the corrected composition with the syntax of RFC 3986 gives back every
   * component: the scheme, the authority, the corrected path (see PathPartShape), the
   * query and the fragment, each absent exactly when the component is empty.
   */
  lemma ComposeParses(c: Components)
    requires Delimited(c)
    ensures ParseReference(Compose(c)) == Reference(
      if c.scheme == [] then None else Some(c.scheme),
      if Authority(c) == [] then None else Some(Authority(c)),
      PathPart(c),
      if c.query == [] then None else Some(c.query),
      if c.fragment == [] then None else Some(c.fragment))
  {
    AuthoritySymbols(c);
    PathPartDelimited(c);
    AssembleParses(c.scheme, Authority(c), PathPart(c), c.query, c.fragment);
  }

  /**
   * The URI as the code writes it reads back the same way, every component included,
   * unless the path starts with "/" and there is no authority (the case of line 261).
   */
  lemma ComposeAsWrittenParses(c: Components)
    requires Delimited(c) && !(Authority(c) == [] && StartsWithSlash(c.path))
    ensures ParseReference(ComposeAsWritten(c)) == Reference(
      if c.scheme == [] then None else Some(c.scheme),
      if Authority(c) == [] then None else Some(Authority(c)),
      PathPartAsWritten(c),
      if c.query == [] then None else Some(c.query),
      if c.fragment == [] then None else Some(c.fragment))
  {
    ComposeAsWrittenDiffers(c);
    ComposeParses(c);
    assert PathPartAsWritten(c) == PathPart(c);
  }

  /** The path as written adds no "?" or "#" to the path. */
  lemma AsWrittenPathDelimited(c: Components)
    requires '?' !in c.path && '#' !in c.path
    ensures '?' !in PathPartAsWritten(c) && '#' !in PathPartAsWritten(c)
  {
    var p := c.path;
    if p != [] && !StartsWithSlash(p) && Authority(c) == [] {
      TrimWithoutLeadingSlash(p);
    }
  }

  /**
   * The query and the fragment of the URI as the code writes it read back unchanged,
   * line 261 included: the doubled slash disturbs only the authority and the path.
   */
  lemma AsWrittenTailParses(c: Components)
    requires Delimited(c)
    ensures ParseReference(ComposeAsWritten(c)).query == if c.query == [] then None else Some(c.query)
    ensures ParseReference(ComposeAsWritten(c)).fragment == if c.fragment == [] then None else Some(c.fragment)
  {
    AuthoritySymbols(c);
    AsWrittenPathDelimited(c);
    var head := Head(c.scheme, Authority(c), PathPartAsWritten(c));
    var q := Introduced('?', c.query);
    assert '?' !in head && '#' !in head + q;
    SplitIntroduced(head + q, '#', c.fragment);
    SplitIntroduced(head, '?', c.query);
  }

  // ---------------------------------------------------------------------------
  // The with* operations (each returns a modified copy)

  /** withScheme: lower-cases the scheme and accepts only "http" and "https". */
  function WithScheme(c: Components, scheme: PhpString): (r: Result<Components>)
    ensures r.Ok? ==> r.value == c.(scheme := r.value.scheme)
  {
    var s := ToLower(scheme);
    if s == Http || s == Https then Ok(c.(scheme := s)) else Err(UriInvalidScheme)
  }

  /**
   * withScheme ignores case, accepts exactly the two web schemes, stores them in lower
   * case (a scheme already in lower case as given), and accepts its own result again unchanged.
   */
  lemma WithSchemeAccepts(c: Components, scheme: PhpString)
    ensures WithScheme(c, scheme) == WithScheme(c, ToLower(scheme))
    ensures WithScheme(c, scheme).Ok? <==> ToLower(scheme) == Http || ToLower(scheme) == Https
    ensures WithScheme(c, scheme).Err? ==> WithScheme(c, scheme).error == UriInvalidScheme
    ensures WithScheme(c, scheme).Ok? ==>
      var r := WithScheme(c, scheme).value;
      && r == c.(scheme := ToLower(scheme))
      && IsLowerCase(r.scheme)
      && WithScheme(r, r.scheme) == Ok(r)
    ensures IsLowerCase(scheme) && WithScheme(c, scheme).Ok? ==> WithScheme(c, scheme).value.scheme == scheme
  {
    ToLowerIdempotent(scheme);
    if IsLowerCase(scheme) {
      ToLowerOfLowerCase(scheme);
    }
  }

  /** withPort: null removes the port; an integer in 1..65535 replaces it; anything else is refused. */
  function WithPort(c: Components, port: Arg<int>): (r: Result<Components>)
    ensures r.Ok? ==> r.value == c.(port := r.value.port)
  {
    match port
    case Null => Ok(c.(port := None))
    case Given(p) => if 0 >= p || MaxPort < p then Err(UriInvalidPort) else Ok(c.(port := Some(p)))
    case WrongType(_) => Err(UriInvalidPort)
  }

  /**
   * withPort accepts null and the integers 1..65535, and the authority of the result
   * reads back with that port, or with none after null.
   */
  lemma WithPortAuthority(c: Components, port: Arg<int>)
    requires '@' !in c.userInfo && ':' !in c.host && '@' !in c.host
    ensures WithPort(c, port).Ok? <==> port.Null? || (port.Given? && 0 < port.value <= MaxPort)
    ensures WithPort(c, port).Err? ==> WithPort(c, port).error == UriInvalidPort
    ensures WithPort(c, port).Ok? ==>
      ParseAuthority(Authority(WithPort(c, port).value))
        == Some(AuthorityParts(c.userInfo, c.host, if port.Null? then None else Some(port.value)))
  {
    if WithPort(c, port).Ok? {
      AuthorityRoundTrip(WithPort(c, port).value);
    }
  }

  /** withPath: a string loses its leading slashes; null empties the path; anything else is refused. */
  function WithPath(c: Components, path: Arg<PhpString>): (r: Result<Components>)
    ensures r.Ok? ==> r.value == c.(path := r.value.path)
  {
    match path
    case Given(p) => Ok(c.(path := TrimLeadingSlashes(p)))
    case Null => Ok(c.(path := []))
    case WrongType(_) => Err(UriInvalidPath)
  }

  /**
   * withPath refuses only a non-string, non-null argument; the stored path never starts
   * with a slash, so the two forms of __toString agree on the result, and setting the
   * stored path again changes nothing.
   */
  lemma WithPathNormalises(c: Components, path: Arg<PhpString>)
    ensures WithPath(c, path).Err? <==> path.WrongType?
    ensures WithPath(c, path).Err? ==> WithPath(c, path).error == UriInvalidPath
    ensures WithPath(c, path).Ok? ==>
      var r := WithPath(c, path).value;
      && !StartsWithSlash(r.path)
      && (path.Given? ==> TrimLeadingSlashes(r.path) == TrimLeadingSlashes(path.value))
      && ComposeAsWritten(r) == Compose(r)
      && WithPath(r, Given(r.path)) == Ok(r)
  {
    if WithPath(c, path).Ok? {
      var r := WithPath(c, path).value;
      ComposeAsWrittenDiffers(r);
      TrimWithoutLeadingSlash(r.path);
    }
  }

  /** withQuery: null empties the query; a string replaces it unchecked; anything else is refused. */
  function WithQuery(c: Components, query: Arg<PhpString>): (r: Result<Components>)
    ensures r.Ok? ==> r.value == c.(query := r.value.query)
  {
    match query
    case Null => Ok(c.(query := []))
    case Given(q) => Ok(c.(query := q))
    case WrongType(_) => Err(UriInvalidQuery)
  }

  /** withQuery refuses only a non-string, non-null argument, and the composed URI reads back with that query. */
  lemma WithQueryParses(c: Components, query: Arg<PhpString>)
    requires Delimited(c)
    requires query.Given? ==> '#' !in query.value
    ensures WithQuery(c, query).Err? <==> query.WrongType?
    ensures WithQuery(c, query).Err? ==> WithQuery(c, query).error == UriInvalidQuery
    ensures WithQuery(c, query).Ok? ==>
      ParseReference(ComposeAsWritten(WithQuery(c, query).value)).query
        == if query.Given? && query.value != [] then Some(query.value) else None
  {
    if WithQuery(c, query).Ok? {
      AsWrittenTailParses(WithQuery(c, query).value);
    }
  }

  /** withUserInfo: the user, followed by ":" and the password when one is given. */
  function WithUserInfo(c: Components, user: PhpString, password: Option<PhpString>): (r: Components)
    ensures r == c.(userInfo := r.userInfo)
  {
    c.(userInfo := if password.None? then user else user + [':'] + password.value)
  }

  /** The authority of the result reads back with user information that splits into the user and the password. */
  lemma WithUserInfoParses(c: Components, user: PhpString, password: Option<PhpString>)
    requires ':' !in user && '@' !in user
    requires password.Some? ==> '@' !in password.value
    requires ':' !in c.host && '@' !in c.host
    ensures var r := WithUserInfo(c, user, password);
      && ParseAuthority(Authority(r)).Some?
      && ParseAuthority(Authority(r)).value.userInfo == r.userInfo
      && SplitFirst(r.userInfo, ':') == (user, password)
  {
    var r := WithUserInfo(c, user, password);
    AuthorityRoundTrip(r);
    if password.None? {
      SplitFirstAbsent(user, ':');
    } else {
      SplitFirstAt(user, ':', password.value);
    }
  }

  /** withHost: null empties the host; a string replaces it unchecked. */
  function WithHost(c: Components, host: Option<PhpString>): (r: Components)
    ensures r == c.(host := r.host)
  {
    c.(host := if host.None? then [] else host.value)
  }

  /** The authority of the result reads back with the new host. */
  lemma WithHostParses(c: Components, host: Option<PhpString>)
    requires '@' !in c.userInfo
    requires host.Some? ==> ':' !in host.value && '@' !in host.value
    ensures ParseAuthority(Authority(WithHost(c, host))).Some?
    ensures ParseAuthority(Authority(WithHost(c, host))).value.host == if host.None? then [] else host.value
  {
    AuthorityRoundTrip(WithHost(c, host));
  }

  function WithFragment(c: Components, fragment: PhpString): (r: Components)
    ensures r == c.(fragment := r.fragment)
  {
    c.(fragment := fragment)
  }

  /** Any fragment is accepted, and the composed URI reads back with it. */
  lemma WithFragmentParses(c: Components, fragment: PhpString)
    requires Delimited(c)
    ensures ParseReference(ComposeAsWritten(WithFragment(c, fragment))).fragment == if fragment == [] then None else Some(fragment)
  {
    AsWrittenTailParses(WithFragment(c, fragment));
  }

  /** A worked example: the command listZones sent to https://api.example.com:8080/client/api. */
  const Example: Components :=
    Components("https", [], "api.example.com", Some(8080), "client/api", "command=listZones", [])

  /** The worked example composes to the URI one would write by hand. */
  lemma ComposeExample()
    ensures ComposeAsWritten(Example) == "https://api.example.com:8080/client/api?command=listZones"
  {
    ExampleAuthority();
    ExamplePath();
    ExampleAssembles();
  }

  /** The example's authority: the host and the port in decimal. */
  lemma ExampleAuthority()
    ensures Authority(Example) == "api.example.com:8080"
  {
    assert NatDecimal(80) == NatDecimal(8) + "0" == "80";
    assert NatDecimal(808) == NatDecimal(80) + "8" == "808";
    assert NatDecimal(8080) == NatDecimal(808) + "0" == "8080";
    assert Authority(Example) == [] + ("api.example.com" + ":8080");
    ExampleAuthoritySpelling();
  }

  /** The example's path gains its leading slash. */
  lemma ExamplePath()
    requires Authority(Example) != []
    ensures PathPartAsWritten(Example) == "/client/api"
  {
    assert Example.path[0] == 'c';
    assert PathPartAsWritten(Example) == ['/'] + Example.path;
  }

  /** The example's pieces assemble into its URI. */
  lemma ExampleAssembles()
    ensures Assemble("https", "api.example.com:8080", "/client/api", "command=listZones", [])
      == "https://api.example.com:8080/client/api?command=listZones"
  {
    ExampleSchemeSpelling();
    ExampleHierarchySpelling();
    ExampleQuerySpelling();
    var head: PhpString := "https://api.example.com:8080/client/api";
    assert Head("https", "api.example.com:8080", "/client/api") == head;
    assert Introduced('?', "command=listZones") == "?command=listZones";
    assert head + "?command=listZones" + [] == head + "?command=listZones";
  }

  // The spellings below join string literals two at a time, which the verifier does cheaply.

  lemma ExampleAuthoritySpelling()
    ensures [] + ("api.example.com" + ":8080") == "api.example.com:8080"
  {
  }

  lemma ExampleSchemeSpelling()
    ensures "https" + [':'] == "https:"
    ensures DoubleSlash + "api.example.com:8080" == "//api.example.com:8080"
  {
  }

  lemma ExampleHierarchySpelling()
    ensures "//api.example.com:8080" + "/client/api" == "//api.example.com:8080/client/api"
    ensures "https:" + "//api.example.com:8080/client/api" == "https://api.example.com:8080/client/api"
  {
  }

  lemma ExampleQuerySpelling()
    ensures ['?'] + "command=listZones" == "?command=listZones"
    ensures "https://api.example.com:8080/client/api" + "?command=listZones"
      == "https://api.example.com:8080/client/api?command=listZones"
  {
  }

  // ---------------------------------------------------------------------------
  // The discrepancy at line 261

  /** Without an authority, a doubled leading slash and a single one never assemble to the same URI. */
  lemma AssembleSlashesDiffer(scheme: PhpString, path: PhpString, trimmed: PhpString, query: PhpString, fragment: PhpString)
    requires StartsWithSlash(path) && !StartsWithSlash(trimmed)
    ensures Assemble(scheme, [], ['/'] + path, query, fragment) != Assemble(scheme, [], ['/'] + trimmed, query, fragment)
  {
    var k := if scheme == [] then 1 else |scheme| + 2;
    SlashAt(scheme, path, query, fragment, k);
    NoSlashAt(scheme, trimmed, query, fragment, k);
  }

  /** As written, the character after "scheme:/" is the path's own leading slash. */
  lemma SlashAt(scheme: PhpString, path: PhpString, query: PhpString, fragment: PhpString, k: nat)
    requires StartsWithSlash(path)
    requires k == if scheme == [] then 1 else |scheme| + 2
    ensures k < |Assemble(scheme, [], ['/'] + path, query, fragment)|
    ensures Assemble(scheme, [], ['/'] + path, query, fragment)[k] == '/'
  {
    HeadSlashAt(scheme, ['/'] + path, k);
    var w := Head(scheme, [], ['/'] + path);
    assert (w + Introduced('?', query))[k] == '/';
  }

  /** Corrected, the character after "scheme:/" is not a slash, or there is none. */
  lemma NoSlashAt(scheme: PhpString, trimmed: PhpString, query: PhpString, fragment: PhpString, k: nat)
    requires !StartsWithSlash(trimmed)
    requires k == if scheme == [] then 1 else |scheme| + 2
    ensures var u := Assemble(scheme, [], ['/'] + trimmed, query, fragment); k >= |u| || u[k] != '/'
  {
    HeadSlashAt(scheme, ['/'] + trimmed, k);
    var c := Head(scheme, [], ['/'] + trimmed);
    var q := Introduced('?', query);
    var f := Introduced('#', fragment);
    if trimmed != [] {
      assert (c + q + f)[k] == trimmed[0];
    } else if q != [] {
      assert (c + q + f)[k] == '?';
    } else if f != [] {
      assert (c + q + f)[k] == '#';
    }
  }

  /** Without an authority, the path begins right after "scheme:", at index k. */
  lemma HeadSlashAt(scheme: PhpString, p: PhpString, k: nat)
    requires k == if scheme == [] then 1 else |scheme| + 2
    ensures |Head(scheme, [], p)| == k - 1 + |p|
    ensures forall i :: 0 <= i < |p| ==> Head(scheme, [], p)[k - 1 + i] == p[i]
  {
    assert Hierarchy([], p) == p;
  }

  /** As written, __toString differs from the corrected form exactly for a slash-led path without an authority. */
  lemma ComposeAsWrittenDiffers(c: Components)
    ensures ComposeAsWritten(c) == Compose(c) <==> !(Authority(c) == [] && StartsWithSlash(c.path))
  {
    if Authority(c) == [] && StartsWithSlash(c.path) {
      AssembleSlashesDiffer(c.scheme, c.path, TrimLeadingSlashes(c.path), c.query, c.fragment);
    } else {
      assert PathPartAsWritten(c) == PathPart(c);
    }
  }

  /** Components holding nothing but the path "/" + seg. */
  function SlashLed(seg: PhpString): Components {
    Components([], [], [], None, ['/'] + seg, [], [])
  }

  /**
   * For a path "/seg" alone the code writes "//seg", which reads back with seg as its
   * authority and an empty path, though the components have no authority.
   */
  lemma DoubleSlashAsWritten(seg: PhpString)
    requires '/' !in seg && '?' !in seg && '#' !in seg
    ensures Authority(SlashLed(seg)) == []
    ensures ComposeAsWritten(SlashLed(seg)) == DoubleSlash + seg
    ensures ParseReference(ComposeAsWritten(SlashLed(seg))) == Reference(None, Some(seg), [], None, None)
  {
    var c := SlashLed(seg);
    var w := DoubleSlash + seg;
    assert Authority(c) == [];
    assert PathPartAsWritten(c) == ['/'] + (['/'] + seg) == w;
    assert ComposeAsWritten(c) == Head([], [], w) + [] + [];
    assert Head([], [], w) == w;
    assert w == DoubleSlash + seg + [];
    SplitFirstAbsent(w, '#');
    SplitFirstAbsent(w, '?');
    SplitAuthorityOf(seg, []);
    SplitSchemeNone(w);
  }

  /** A path alone that starts with one slash reads back as that path and nothing else. */
  lemma ParsePath(p: PhpString)
    requires |p| > 0 && p[0] == '/' && (|p| < 2 || p[1] != '/')
    requires '?' !in p && '#' !in p
    ensures ParseReference(p) == Reference(None, None, p, None, None)
  {
    SplitFirstAbsent(p, '#');
    SplitFirstAbsent(p, '?');
    SplitAuthorityNone(p);
    SplitSchemeNone(p);
  }

  /** The corrected URI for the same components is "/seg", which reads back as that path alone. */
  lemma DoubleSlashCorrected(seg: PhpString)
    requires '/' !in seg && '?' !in seg && '#' !in seg
    ensures Compose(SlashLed(seg)) == ['/'] + seg
    ensures ParseReference(Compose(SlashLed(seg))) == Reference(None, None, ['/'] + seg, None, None)
  {
    var c := SlashLed(seg);
    var p := ['/'] + seg;
    assert Authority(c) == [];
    assert !StartsWithSlash(seg) && p[1..] == seg;
    assert PathPart(c) == p;
    assert Compose(c) == Head([], [], p) + [] + [];
    assert Head([], [], p) == p;
    if |p| >= 2 {
      assert p[1] == seg[0];
    }
    ParsePath(p);
  }
}
