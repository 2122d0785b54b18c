# CloudStack request body and URI, modelled in Dafny

This project models the two PSR-7 value objects that the CloudStack PHP client uses to send an API command.

- **CloudStackRequestBody** turns a command and its parameters into the signed query that CloudStack expects. It then serves that query as a read-only stream.
  - Each parameter value becomes a string. A value of an unsupported type is refused with an exception.
  - Empty strings are dropped and keys are lower-cased.
  - The fixed keys `apikey`, `command` and `response=json` take precedence over the user's keys.
  - The array is sorted by key and encoded as an RFC 3986 query. `&signature=` and the configuration's signature of that query are appended.
  - The stream can be read, sought, rewound, closed and detached. It is never writable.
- **CloudStackUri** holds the URI of a command: scheme, user info, host, port, path, query and fragment.
  - Every `with*` operation returns a modified copy. `withScheme`, `withPort`, `withPath` and `withQuery` validate their argument and may refuse it; `withUserInfo`, `withHost` and `withFragment` check nothing and store what they are given: "user" or "user:password", the host ("" for null), the fragment.
  - `getAuthority` writes `[user-info@]host[:port]`.
  - `__toString` composes the URI string once and caches it.

The model follows PHP 8.2 and later: `strtolower` is ASCII-only, and `fread` refuses a length below 1 with a ValueError.

Modules:

| file | module | what it holds |
|---|---|---|
| outcomes.dfy | Outcomes | `Option`, `Result` and the exceptions of the two classes |
| php_strings.dfy | PhpStrings | PHP byte strings: `strtolower`, `ltrim($s, "/")`, integer to decimal and back, the byte order used by `ksort`, splitting and joining |
| percent_encoding.dfy | PercentEncoding | `rawurlencode` (section 2 of RFC 3986) and its inverse |
| php_arrays.dfy | PhpArrays | PHP arrays with string keys: `$a[$k] = $v`, lookup, the union `+`, `ksort` |
| query_strings.dfy | QueryStrings | `http_build_query(..., PHP_QUERY_RFC3986)` and the parse that reads it back |
| request_encoding.dfy | RequestEncoding | the constructor's parameter loop, the canonical query and the signed body |
| request_body.dfy | RequestBody | class `CloudStackRequestBody` over the bytes of its memory stream |
| uri_components.dfy | UriComponents | the URI's components, the `with*` rules, `getAuthority`, `__toString`, and the generic syntax of RFC 3986 (Appendix B) that reads a composed URI back |
| uri.dfy | Uri | class `CloudStackUri`: immutable components and the cached string |

The constructor's parameter loop is a method, `CollectParameters`, proved equal to the function `Collect`. The stream's read loop is a method, `DrainChunks`, proved equal to the function `ChunkedDrain`. Both read loops (lines 110 and 304) keep PHP's truthiness: a chunk that is the one-byte string "0" ends the read loop without being appended. `ChunkedDrainResult` states exactly when that happens.

## Model

| member | source | states |
|---|---|---|
| PhpStrings.ToLower | src/Generator/CloudStackRequestBody.php:70 | strtolower keeps the length and maps each byte to its lower-case ASCII letter, leaving other bytes alone |
| PhpStrings.ToLowerIdempotent | src/Generator/CloudStackUri.php:120 | the lower-cased string has no capitals, and lower-casing it again changes nothing |
| PhpStrings.ToLowerOfLowerCase | src/Generator/CloudStackUri.php:120-124 | a string without capitals is its own lower-case form |
| PhpStrings.TrimLeadingSlashes | src/Generator/CloudStackUri.php:192 | ltrim with "/" returns a suffix of its input; it removes only slashes, and the result does not start with one |
| PhpStrings.TrimWithoutLeadingSlash | src/Generator/CloudStackUri.php:192 | ltrim leaves a string without a leading slash unchanged |
| PhpStrings.IntDecimal | src/Generator/CloudStackRequestBody.php:57 | strval of an integer (also `%d` at CloudStackUri.php:69) is non-empty and starts with "-" exactly for a negative number; `IntDecimalRoundTrip` proves it reads back |
| PhpStrings.IntDecimalSymbols | src/Generator/CloudStackUri.php:69 | the decimal form of an integer is non-empty and holds only digits and "-" |
| PhpStrings.NatDecimalValue | src/Generator/CloudStackRequestBody.php:57 | the digits of a natural number read back as that number |
| PhpStrings.IntDecimalRoundTrip | src/Generator/CloudStackRequestBody.php:55-57 | strval of an integer is non-empty, so it is never dropped as empty, and it parses back to the same integer |
| PhpStrings.LessIrreflexive | src/Generator/CloudStackRequestBody.php:74 | no key sorts before itself |
| PhpStrings.LessTransitive | src/Generator/CloudStackRequestBody.php:74 | the key order of ksort is transitive |
| PhpStrings.LessTotal | src/Generator/CloudStackRequestBody.php:74 | any two different keys are ordered one way or the other |
| PhpStrings.SplitFirstAt | src/Generator/CloudStackUri.php:62 | splitting at the first separator recovers the text before it and the text after it |
| PhpStrings.SplitFirstAbsent | src/Generator/CloudStackUri.php:62 | a string without the separator splits into itself and nothing |
| PhpStrings.SplitJoin | src/Generator/CloudStackRequestBody.php:76 | splitting pieces joined by a separator that none of them contains gives back exactly the pieces |
| PercentEncoding.Encode | src/Generator/CloudStackRequestBody.php:76 | rawurlencode writes each byte as one or three characters, so the result is between one and three times as long |
| PercentEncoding.EncodeIsEncoded | src/Generator/CloudStackRequestBody.php:76 | rawurlencode emits only unreserved characters and "%", so never "&" or "=" |
| PercentEncoding.HexRoundTrip | src/Generator/CloudStackRequestBody.php:76 | each hexadecimal digit reads back as its value |
| PercentEncoding.DecodeEncode | src/Generator/CloudStackRequestBody.php:76 | percent-decoding undoes rawurlencode byte for byte |
| PhpArrays.Lookup | src/Generator/CloudStackRequestBody.php:70 | a lookup finds a value exactly when the key is present, and the value is stored with that key |
| PhpArrays.LookupMember | src/Generator/CloudStackRequestBody.php:70 | with distinct keys, a lookup finds v exactly when the pair (k, v) is in the array |
| PhpArrays.Put | src/Generator/CloudStackRequestBody.php:70 | assignment adds no entry other than the new pair |
| PhpArrays.PutLookup | src/Generator/CloudStackRequestBody.php:70 | after `$a[$k] = $v` the key maps to v and every other key keeps its value |
| PhpArrays.PutDistinct | src/Generator/CloudStackRequestBody.php:70 | assignment keeps the keys distinct |
| PhpArrays.Union | src/Generator/CloudStackRequestBody.php:73 | `+` keeps the left operand as its prefix, and holds exactly the left operand's entries and the right operand's entries whose key the left lacks |
| PhpArrays.Missing | src/Generator/CloudStackRequestBody.php:73 | the entries the union takes from the right operand are exactly those whose key the left operand lacks |
| PhpArrays.LookupAppend | src/Generator/CloudStackRequestBody.php:73 | a lookup in a concatenation uses the first part when it has the key, and the second part otherwise |
| PhpArrays.LookupMissing | src/Generator/CloudStackRequestBody.php:73 | a key of the left operand is absent from the entries taken from the right; any other key keeps the right operand's value |
| PhpArrays.MissingDistinct | src/Generator/CloudStackRequestBody.php:73 | the entries taken from the right operand have distinct keys |
| PhpArrays.UnionLookup | src/Generator/CloudStackRequestBody.php:73 | with `+` the left operand wins for every key it has; every other key keeps the right operand's value |
| PhpArrays.UnionDistinct | src/Generator/CloudStackRequestBody.php:73 | the union of arrays with distinct keys has distinct keys |
| PhpArrays.Insert | src/Generator/CloudStackRequestBody.php:74 | insertion yields the same entries plus the new one, as a multiset |
| PhpArrays.KSort | src/Generator/CloudStackRequestBody.php:74 | ksort yields a permutation of its input |
| PhpArrays.InsertMembers | src/Generator/CloudStackRequestBody.php:74 | insertion adds the new entry and nothing else |
| PhpArrays.InsertAbove | src/Generator/CloudStackRequestBody.php:74 | a key below every key and below the inserted one stays below every key after the insertion |
| PhpArrays.InsertSorted | src/Generator/CloudStackRequestBody.php:74 | inserting a new key into a strictly sorted array keeps it strictly sorted |
| PhpArrays.KSortSorted | src/Generator/CloudStackRequestBody.php:74 | ksort of an array with distinct keys orders the keys strictly ascending |
| PhpArrays.SortedDistinct | src/Generator/CloudStackRequestBody.php:74 | strictly ascending keys are distinct |
| PhpArrays.KSortLookup | src/Generator/CloudStackRequestBody.php:74 | ksort changes no key's value |
| QueryStrings.BuildQuery | src/Generator/CloudStackRequestBody.php:76 | http_build_query gives "" exactly for an empty array, and otherwise starts with the first pair encoded |
| QueryStrings.EncodePairParses | src/Generator/CloudStackRequestBody.php:76 | an encoded `key=value` pair holds no "&" and reads back as the pair |
| QueryStrings.ParseEncodedPairs | src/Generator/CloudStackRequestBody.php:76 | a sequence of encoded pairs reads back as the entries, in order |
| QueryStrings.QueryRoundTrip | src/Generator/CloudStackRequestBody.php:76 | parsing the query http_build_query produces gives back the array, pairs and order |
| RequestEncoding.Coerce | src/Generator/CloudStackRequestBody.php:51-62 | a value has no string form exactly when its type is unsupported |
| RequestEncoding.CoerceCases | src/Generator/CloudStackRequestBody.php:51-64 | only a value of an unsupported type fails; booleans become "true"/"false"; integers a non-empty decimal that reads back; floats the configured float formatting; strings stay as they are |
| RequestEncoding.Collect | src/Generator/CloudStackRequestBody.php:47-71 | the only exception is the wrong-argument-type one, and the collected array holds no empty value |
| RequestEncoding.CollectErrorPersists | src/Generator/CloudStackRequestBody.php:64-65 | once a parameter throws, the later parameters do not change the outcome |
| RequestEncoding.CollectParameters | src/Generator/CloudStackRequestBody.php:47-71 | the foreach loop yields exactly the array, or the exception, that `Collect` specifies |
| RequestEncoding.CollectFailure | src/Generator/CloudStackRequestBody.php:64-65 | construction fails exactly when some value has an unsupported type, and it names the first such key and its type |
| RequestEncoding.CollectedShape | src/Generator/CloudStackRequestBody.php:67-70 | the collected array has distinct lower-case keys and no empty value |
| RequestEncoding.LastValuePresence | src/Generator/CloudStackRequestBody.php:67-70 | a key gets a value exactly when some parameter lower-cases to it and has a non-empty string form |
| RequestEncoding.LastValueIsLast | src/Generator/CloudStackRequestBody.php:70 | the value a key gets is that of the last parameter that sets it |
| RequestEncoding.CollectedLookup | src/Generator/CloudStackRequestBody.php:47-71 | each collected key maps to the value of the last parameter that sets it; empty values never overwrite |
| RequestEncoding.CanonicalQueryContents | src/Generator/CloudStackRequestBody.php:73-76 | the canonical entries are strictly sorted; apikey, command and response always hold the configured key, the command and "json"; every other key holds the user's value; the query parses back to the entries |
| RequestEncoding.CanonicalEntries | src/Generator/CloudStackRequestBody.php:73-74 | after the union and ksort the three fixed pairs are always present; `CanonicalQueryContents` proves the order and every key's value |
| RequestEncoding.CanonicalQuery | src/Generator/CloudStackRequestBody.php:76 | the query is never empty; `CanonicalQueryContents` proves it parses back to the canonical entries |
| RequestEncoding.CanonicalLookup | src/Generator/CloudStackRequestBody.php:73-74 | after the union and ksort, a fixed key maps to its fixed value and any other key to the user's value |
| RequestEncoding.FixedParametersShape | src/Generator/CloudStackRequestBody.php:73 | the fixed array has exactly the keys apikey, command and response, with their values |
| RequestEncoding.SignedBody | src/Generator/CloudStackRequestBody.php:47-77 | the signed body fails exactly when some parameter value has an unsupported type |
| RequestEncoding.SignedBodyFailure | src/Generator/CloudStackRequestBody.php:47-77 | the body fails exactly when some value has an unsupported type, and then with the exception naming the first such parameter |
| RequestEncoding.SignedBodyContents | src/Generator/CloudStackRequestBody.php:47-77 | a body that succeeds is the canonical query, then "&signature=", then the signature of exactly that query. The query parses back, is strictly sorted, holds the fixed keys with their fixed values, and holds exactly the other keys that some parameter sets |
| RequestBody.ChunkedDrain | src/Generator/CloudStackRequestBody.php:110-113 | the chunked read loop returns no more bytes than remain after the position |
| RequestBody.ChunkedDrainFull | src/Generator/CloudStackRequestBody.php:110-113 | a full 8192-byte chunk is always appended, and the loop carries on after it |
| RequestBody.ChunkedDrainResult | src/Generator/CloudStackRequestBody.php:110-113 | the chunked read loop returns every remaining byte, except the last byte when the last 8192-byte chunk is the one-byte string "0" |
| RequestBody.ChunkedDrainStep | src/Generator/CloudStackRequestBody.php:110-113 | whenever a full 8192-byte chunk remains, the read loop returns every remaining byte, except the last when the last chunk is the one-byte string "0" (the inductive step of `ChunkedDrainResult`) |
| RequestBody.ChunkedDrainLast | src/Generator/CloudStackRequestBody.php:110-113 | the last, partial chunk is appended unless it is exactly "0" |
| RequestBody.CloudStackRequestBody.Init | src/Generator/CloudStackRequestBody.php:79-86 | the body is written to a fresh stream, open, with the position at its end and the size its byte length |
| RequestBody.CloudStackRequestBody.Create | src/Generator/CloudStackRequestBody.php:40-87 | fails exactly when the signed body does, with its exception; otherwise the new body holds the signed bytes and the given stream metadata, open, positioned at the end |
| RequestBody.CloudStackRequestBody.StateError | src/Generator/CloudStackRequestBody.php:346-352 | the detached error exactly when detached, the closed error otherwise |
| RequestBody.CloudStackRequestBody.Close | src/Generator/CloudStackRequestBody.php:123-132 | an open body becomes closed with size 0; a closed or detached body is unchanged |
| RequestBody.CloudStackRequestBody.Detach | src/Generator/CloudStackRequestBody.php:141-152 | always ends detached with size 0; returns the stream (bytes and position) only if the body was open |
| RequestBody.CloudStackRequestBody.GetSize | src/Generator/CloudStackRequestBody.php:159-165 | a size exactly while open, and it is the byte length of the body |
| RequestBody.CloudStackRequestBody.Tell | src/Generator/CloudStackRequestBody.php:173-179 | the position while open; a plain RuntimeException otherwise |
| RequestBody.CloudStackRequestBody.Eof | src/Generator/CloudStackRequestBody.php:186-192 | true exactly when the stream is released or every byte has been read |
| RequestBody.CloudStackRequestBody.IsSeekable | src/Generator/CloudStackRequestBody.php:199-202 | seekable exactly while open |
| RequestBody.CloudStackRequestBody.IsReadable | src/Generator/CloudStackRequestBody.php:269-272 | readable exactly while open |
| RequestBody.CloudStackRequestBody.IsWritable | src/Generator/CloudStackRequestBody.php:247-250 | never writable |
| RequestBody.CloudStackRequestBody.Write | src/Generator/CloudStackRequestBody.php:259-262 | always the not-writable error |
| RequestBody.CloudStackRequestBody.Seek | src/Generator/CloudStackRequestBody.php:216-222 | while open, moves to the offset taken from the start, the position or the end; otherwise the state error and the position is unchanged |
| RequestBody.CloudStackRequestBody.Rewind | src/Generator/CloudStackRequestBody.php:234-240 | while open, moves to 0; otherwise the state error and the position is unchanged |
| RequestBody.CloudStackRequestBody.Read | src/Generator/CloudStackRequestBody.php:284-290 | while open, a length below 1 is fread's ValueError; otherwise returns the bytes from the position on, `length` of them or fewer only at the end, and moves past them; when not open the state error |
| RequestBody.CloudStackRequestBody.DrainChunks | src/Generator/CloudStackRequestBody.php:304-307 | the read loop collects what `ChunkedDrain` specifies from the starting position, and the stream ends at its end |
| RequestBody.CloudStackRequestBody.GetContents | src/Generator/CloudStackRequestBody.php:299-313 | while open, the remaining bytes as the chunked loop collects them; otherwise the state error |
| RequestBody.CloudStackRequestBody.ToString | src/Generator/CloudStackRequestBody.php:103-116 | "" once the stream is released; otherwise the body read by the chunked loop from offset 0 |
| RequestBody.CloudStackRequestBody.GetMetadata | src/Generator/CloudStackRequestBody.php:327-341 | null unless open; the whole descriptor for no key; the entry for a present key, null for a missing one |
| RequestBody.ReadTwice | src/Generator/CloudStackRequestBody.php:103-116 | two string conversions give the same bytes, and these are the whole signed body unless its last chunk is "0" |
| UriComponents.Authority | src/Generator/CloudStackUri.php:54-70 | without user info and without a port to show, the authority is the host alone |
| UriComponents.AuthorityEmpty | src/Generator/CloudStackUri.php:54-70 | the authority is empty exactly when there is no user info, no host and no port other than 0 |
| UriComponents.PathPartShape | src/Generator/CloudStackUri.php:258-272 | the corrected path (the intended half of the line-261 finding) is empty only for an empty path; otherwise it starts with "/" and keeps the path's segments; without an authority it has exactly one leading slash |
| UriComponents.PathPartAsWritten | src/Generator/CloudStackUri.php:258-272 | the path as written is empty exactly when the path is; otherwise it starts with "/" and, leading slashes aside, equals the path |
| UriComponents.ComposeAsWritten | src/Generator/CloudStackUri.php:240-285 | the URI as written starts with "scheme:" when there is a scheme and ends with "#fragment" when there is a fragment |
| UriComponents.ParseHead | src/Generator/CloudStackUri.php:248-256 | the generic syntax recovers the scheme and the authority from "scheme:" and "//authority" |
| UriComponents.AssembleParses | src/Generator/CloudStackUri.php:248-280 | the generic syntax reads an assembled URI back into its scheme, authority, path, query and fragment, each absent exactly when empty |
| UriComponents.HostPortSplits | src/Generator/CloudStackUri.php:65-69 | host and ":port" split at the first ":", and the port reads back |
| UriComponents.UserInfoSplits | src/Generator/CloudStackUri.php:59-63 | the user info ends at the first "@" |
| UriComponents.AuthorityRoundTrip | src/Generator/CloudStackUri.php:54-70 | getAuthority reads back as the user info, the host, and the port unless it is null or 0 |
| UriComponents.AuthoritySymbols | src/Generator/CloudStackUri.php:54-70 | an authority built from delimited parts contains no "/", "?" or "#" |
| UriComponents.PathPartDelimited | src/Generator/CloudStackUri.php:258-272 | the corrected path (the intended half of the line-261 finding) adds no "?" or "#", starts with "/" when non-empty, and never starts with "//" without an authority |
| UriComponents.PathPart | src/Generator/CloudStackUri.php:258-272 | the corrected path (the intended half of the line-261 finding) is empty exactly when the path is; `PathPartShape` proves it starts with a slash, and with a single one when there is no authority |
| UriComponents.Compose | src/Generator/CloudStackUri.php:240-285 | the corrected composition starts with "scheme:" when there is a scheme and ends with "#fragment" when there is a fragment; `ComposeParses` proves it reads back in full |
| UriComponents.ComposeParses | src/Generator/CloudStackUri.php:240-285 | the corrected composition (the intended half of the line-261 finding) reads back as every component: scheme, authority, corrected path, query and fragment, each absent exactly when empty |
| UriComponents.ComposeAsWrittenParses | src/Generator/CloudStackUri.php:240-285 | the URI as the code writes it reads back as every component, the path as written included, whenever there is an authority or the path does not start with "/" |
| UriComponents.WithScheme | src/Generator/CloudStackUri.php:119-129 | a successful withScheme changes the scheme and no other component |
| UriComponents.WithSchemeAccepts | src/Generator/CloudStackUri.php:119-129 | case is ignored; exactly "http" and "https" are accepted and stored in lower case (a lower-case argument as given), otherwise the invalid-scheme error; the result accepts its own scheme unchanged |
| UriComponents.WithPort | src/Generator/CloudStackUri.php:171-182 | a successful withPort changes the port and no other component |
| UriComponents.WithPortAuthority | src/Generator/CloudStackUri.php:171-182 | null and the integers 1 to 65535 are accepted, anything else is the invalid-port error; the resulting authority reads back with that port, or none after null |
| UriComponents.WithPath | src/Generator/CloudStackUri.php:189-203 | a successful withPath changes the path and no other component |
| UriComponents.WithPathNormalises | src/Generator/CloudStackUri.php:189-203 | only a non-string, non-null argument fails; the stored path never starts with "/" and equals the argument up to leading slashes; setting it again changes nothing |
| UriComponents.WithQuery | src/Generator/CloudStackUri.php:210-225 | a successful withQuery changes the query and no other component |
| UriComponents.WithQueryParses | src/Generator/CloudStackUri.php:210-225 | only a non-string, non-null argument fails; the URI as the code writes it (line 261 included) reads back with that query |
| UriComponents.WithUserInfo | src/Generator/CloudStackUri.php:136-145 | withUserInfo changes the user info and no other component |
| UriComponents.WithUserInfoParses | src/Generator/CloudStackUri.php:136-145 | the authority reads back with user info that splits at ":" into the user and the password, if one was given |
| UriComponents.WithHost | src/Generator/CloudStackUri.php:152-163 | withHost changes the host and no other component |
| UriComponents.WithHostParses | src/Generator/CloudStackUri.php:152-163 | the authority reads back with the new host, or an empty one after null |
| UriComponents.WithFragment | src/Generator/CloudStackUri.php:231-235 | withFragment changes the fragment and no other component |
| UriComponents.AsWrittenPathDelimited | src/Generator/CloudStackUri.php:258-272 | the path as written adds no "?" or "#" to the path |
| UriComponents.AsWrittenTailParses | src/Generator/CloudStackUri.php:274-280 | the URI as written reads back with its query and its fragment, each absent exactly when empty, line 261 included |
| UriComponents.WithFragmentParses | src/Generator/CloudStackUri.php:231-235 | any fragment is accepted, and the URI as the code writes it (line 261 included) reads back with it |
| UriComponents.ComposeExample | src/Generator/CloudStackUri.php:240-285 | scheme https, host api.example.com, port 8080, path "client/api" and query "command=listZones" compose to "https://api.example.com:8080/client/api?command=listZones" |
| UriComponents.AssembleSlashesDiffer | src/Generator/CloudStackUri.php:259-261 | without an authority, a doubled leading slash and a single one never give the same URI |
| UriComponents.ComposeAsWrittenDiffers | src/Generator/CloudStackUri.php:258-272 | the code as written and the corrected composition differ exactly when there is no authority and the path starts with "/" |
| UriComponents.DoubleSlashAsWritten | src/Generator/CloudStackUri.php:259-261 | as written, the path "/seg" alone gives "//seg", which reads back with seg as its authority and an empty path |
| UriComponents.ParsePath | src/Generator/CloudStackUri.php:258-272 | a single-slash path alone reads back as that path and nothing else |
| UriComponents.DoubleSlashCorrected | src/Generator/CloudStackUri.php:259-261 | corrected, the same components give "/seg", which reads back as that path alone |
| Uri.CloudStackUri.constructor | src/Generator/CloudStackUri.php:32-38 | scheme, host and integer port from the configuration, path "prefix/command path", the command's query, no user info, no fragment, no cached string |
| Uri.CloudStackUri.Clone | src/Generator/CloudStackUri.php:40-42 | a clone carries the given components and no cached string |
| Uri.CloudStackUri.GetAuthority | src/Generator/CloudStackUri.php:54-70 | empty exactly when user info and host are empty and the port is null or 0 |
| Uri.CloudStackUri.WithScheme | src/Generator/CloudStackUri.php:119-129 | a fresh copy with the components `UriComponents.WithScheme` gives and no cached string, or that function's error |
| Uri.CloudStackUri.WithUserInfo | src/Generator/CloudStackUri.php:136-145 | a fresh copy with the user info "user" or "user:password" |
| Uri.CloudStackUri.WithHost | src/Generator/CloudStackUri.php:152-163 | a fresh copy with the host, or an empty host for null |
| Uri.CloudStackUri.WithPort | src/Generator/CloudStackUri.php:171-182 | a fresh copy with the checked port, or the invalid-port error |
| Uri.CloudStackUri.WithPath | src/Generator/CloudStackUri.php:189-203 | a fresh copy with the trimmed path, or the invalid-path error |
| Uri.CloudStackUri.WithQuery | src/Generator/CloudStackUri.php:210-225 | a fresh copy with the query, or the invalid-query error |
| Uri.CloudStackUri.WithFragment | src/Generator/CloudStackUri.php:231-235 | a fresh copy with the fragment |
| Uri.CloudStackUri.ToString | src/Generator/CloudStackUri.php:240-285 | returns the URI exactly as lines 242-280 write it, line 261 included (`ComposeAsWritten`), and caches it; a later call returns the cached string, which is still that composition |

## Left out

- `__toString` builds the URI in one step from the components, not by successive sprintf calls; the string is the same.
- The php://memory stream is represented by its bytes and position. `feof` is taken as "position at or past the end". Stream resources, `fclose` and `fopen` failures are not modelled.
- RequestBody.CloudStackRequestBody.Seek: the requires admits only targets within the body while open. Seeking past the end or before the start is not modelled, and the source ignores fseek's result anyway.
- The stream metadata is a parameter of construction. What `stream_get_meta_data` puts in it is not modelled.
- The signature is a function field of the configuration. HMAC, base64 and the secret key are not modelled. The signature is appended verbatim, as line 77 does; no URL-encoding is applied to it.
- `strval` of a double is a parameter (`formatFloat`), because PHP's float formatting is not modelled.
- ksort is modelled for string keys in byte order. PHP's numeric key comparison and integer array keys are not modelled.
- Exceptions are modelled by kind. Their message texts and numeric codes are not modelled.
- The stored `$configuration` and `$parameters` fields of the body are not modelled; nothing reads them after construction.
- Only `WithPort`, `WithPath` and `WithQuery` take their argument as a value, null, or another type (`Arg`). `WithHost` takes a string or null (`Option`). `WithScheme`, `WithUserInfo` and `WithFragment` take strings, and the password of `WithUserInfo` is a string or null.
- `withScheme` and `withUserInfo` on non-string arguments, where PHP would coerce or fail, are not modelled.
- `withFragment(null)` is not modelled: PHP stores null, `getFragment` then returns null, and because `'' !== null` holds at line 278, `__toString` ends the URI in a bare "#". The fragment component is a string, so this case cannot arise in the model.
- `withHost` with an argument that is neither a string nor null is not modelled: lines 160-161 store it unchecked, and what getAuthority and `__toString` then write depends on PHP's string conversion of that value.
- The plain getters of CloudStackUri read one component each and carry no contract of their own.
- With an authority and a path that starts with "/", the path is written unchanged, as lines 262-264 do. No leading slashes are stripped in that case.

## Findings

| source | as written | input that shows it | evidently intended | confidence | as-written member | corrected member |
|---|---|---|---|---|---|---|
| src/Generator/CloudStackUri.php:261 | with an empty authority and a path that starts with "/", `__toString` puts a second "/" in front of the path | no scheme, user info, host, port, query or fragment and the path "/seg": the result is "//seg", which is read as authority "seg" with an empty path | exactly one leading slash before the path, as line 267 already writes for a path without one | high, not executed | UriComponents.DoubleSlashAsWritten | UriComponents.DoubleSlashCorrected |
