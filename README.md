# HTTP cache-header servlet filters, modelled in Dafny

The repository is a set of small Java servlet filters that decide how browsers
and proxies may cache a response:

- `com.samaxes.filter.CacheFilter` reads `private`, `static` and
  `expirationTime` once in `init`. On every request it sets Cache-Control
  (`<public|private>, max-age=<n>[, must-revalidate]`) and Expires (now plus `n`
  seconds), clears a Pragma header that is already present, and passes the
  request on.
- `com.samaxes.cachefilter.presentation.CacheFilter`, the older filter, keeps its
  `FilterConfig`. On every request it reads `privacy` and `expirationTime`. When
  both are non-blank it writes `privacy, max-age=<n>, must-revalidate` and an
  Expires date.
- `NoCacheFilter` marks every response as already expired and not to be cached.
- `NoETagFilter` and its older copy `NoEtagFilter` hand the rest of the chain a
  response wrapper whose `setHeader` discards ETag in any letter case.
- `HTTPCacheHeader`, `Cacheability` and `CacheConfigParameter` are the enums of
  header names, cacheability tokens and parameter names. `StringUtil.join` is a
  delimiter join.

## How the model is built

- `Servlet` (servlet.dfy) is the slice of the Servlet API the filters touch:
  - A `Response` is a header table keyed by the exact header name, plus a trace of
    everything that happened to it, in order.
  - `setHeader(name, null)` removes the entry.
  - `GuardedResponse` is the wrapper. It takes a `drops` guard that filters its
    `setHeader`, and it delegates `setDateHeader`.
  - A `FilterChain` stands for the later stages. It holds a fixed list of header
    writes, which it makes on whichever response it is handed, after logging a
    `Proceeded` event. It also counts its invocations.
  - The specification functions are:
    - `Apply`, `ApplyAll`: the table after one write, or after a sequence of writes.
    - `LastEntry`: the last write to a name.
    - `Forwarded`: the writes a guard lets through.
    - `Written`: the trace of a sequence of writes.
- `JavaLang` (java_lang.dfy) models the platform calls the filters depend on:
  - `Boolean.valueOf` and `equalsIgnoreCase`.
  - `Long.valueOf` and `Integer.valueOf`. `None` stands for NumberFormatException.
  - `Long.toString`.
  - commons-lang `StringUtils.isNotBlank`, which is not a JDK call but sits here
    with the other library calls.
  - two's-complement `long` arithmetic.
- Each filter is a class whose methods change the response in place. Each
  method's `ensures` gives the new header table and trace in terms of the
  specification functions. Lemmas beside each class prove what those tables
  contain.
- Where the model and the code's own documentation differ, the model follows the
  code:
  - A negative `expirationTime` is accepted, because `Long.valueOf` accepts it.
  - The ETag wrappers keep an ETag entry that already existed; they do not
    remove it.
  - The ETag wrappers intercept only `setHeader`.
- One exception: the older filter's Expires. The code's `cal.roll` is modelled
  as written (`RolledExpiry`) and recorded under Findings. The writes the older
  filter makes (`ExpireDateWrites`) use the corrected instant (`IntendedExpiry`).
- `Affixes` (affixes.dfy) takes a known prefix or suffix off a header value. It
  is used to read the Cache-Control values back.

## Model

| member | source | states |
|---|---|---|
| JavaLang.ParseBooleanAcceptsExactlyTrueSpellings | src/main/java/com/samaxes/filter/CacheFilter.java:149-151 | `Boolean.valueOf(s)` is true exactly when `s` is non-null and is "true" in some mix of cases; null and every other text give false |
| JavaLang.CharEqualsIgnoreCaseIsLowerCaseEquality | src/main/java/com/samaxes/filter/NoETagFilter.java:77 | the per-character test of `equalsIgnoreCase` is equality after ASCII lower-casing |
| JavaLang.EqualsIgnoreCaseIsEquivalence | src/main/java/com/samaxes/filter/NoETagFilter.java:77 | `equalsIgnoreCase` is reflexive, symmetric and transitive |
| JavaLang.CharMatchesLetter | src/main/java/com/samaxes/filter/NoETagFilter.java:77 | a character matches a lower-case letter ignoring case exactly when it is that letter or its upper-case form |
| JavaLang.WrapLong | src/main/java/com/samaxes/filter/CacheFilter.java:180-181 | a `long` result differs from the exact value by a multiple of 2^64: it equals it when that fits, and wraps by one period past either bound |
| JavaLang.ParseInteger | src/main/java/com/samaxes/filter/CacheFilter.java:154 | both directions: a number returned lies within the bounds and is the exact value of the signed digits, and every text of an optional sign and digits whose value is within the bounds is accepted with that value |
| JavaLang.ParseDecimalString | src/main/java/com/samaxes/filter/CacheFilter.java:172 | rendering a number in range as `StringBuilder.append(long)` does and parsing it back gives the number |
| JavaLang.DecimalStringOfParse | src/main/java/com/samaxes/filter/CacheFilter.java:154 | parsing canonical text (no '+', no leading zero) and rendering the value gives the same characters |
| JavaLang.ParseLongRejections | src/main/java/com/samaxes/filter/CacheFilter.java:153-159 | null, "", "-" and " 60" are rejected, so `init` throws |
| JavaLang.ParseLongAcceptances | src/main/java/com/samaxes/filter/CacheFilter.java:154 | "+60" reads as 60 and "-0060" as -60 |
| JavaLang.DecimalStringAlphabet | src/main/java/com/samaxes/filter/CacheFilter.java:172 | the rendering of a number is non-empty and made of digits and '-' |
| JavaLang.ParseBoolean | src/main/java/com/samaxes/filter/CacheFilter.java:149-151 | definition of `Boolean.valueOf`; what it accepts is stated by `ParseBooleanAcceptsExactlyTrueSpellings` |
| JavaLang.EqualsIgnoreCase | src/main/java/com/samaxes/filter/NoETagFilter.java:77 | definition of `equalsIgnoreCase`, one character at a time; its properties are the lemmas above |
| JavaLang.IsNotBlank | src/main/java/com/samaxes/cachefilter/presentation/CacheFilter.java:77 | definition of `isNotBlank`: non-null, and some character is not whitespace; used by `HeaderWritesDecision` |
| JavaLang.IsWhitespace | src/main/java/com/samaxes/cachefilter/presentation/CacheFilter.java:77 | definition of `Character.isWhitespace` on ASCII, which `isNotBlank` applies to each character; the non-ASCII whitespace is under Left out |
| JavaLang.ParseLong | src/main/java/com/samaxes/filter/CacheFilter.java:154 | a number `Long.valueOf` returns lies within the `long` bounds |
| JavaLang.ParseInt | src/main/java/com/samaxes/cachefilter/presentation/CacheFilter.java:79-80 | a number `Integer.valueOf` returns lies within the `int` bounds |
| JavaLang.DecimalString | src/main/java/com/samaxes/filter/CacheFilter.java:172 | the rendering of a number is non-empty and starts with '-' exactly when the number is negative |
| Vocabulary.HttpCacheHeader.Name | src/main/java/com/samaxes/filter/util/HTTPCacheHeader.java:33-61 | definition of `getName()`; stated by `HttpCacheHeadersEnumerated` |
| Vocabulary.Cacheability.Value | src/main/java/com/samaxes/filter/util/Cacheability.java:33-55 | definition of `getValue()`; stated by `CacheabilityTokens` |
| Vocabulary.CacheConfigParameter.Name | src/main/java/com/samaxes/filter/util/CacheConfigParameter.java:29-52 | definition of `getName()`; stated by `CacheConfigParameterNames` |
| Vocabulary.HttpCacheHeadersEnumerated | src/main/java/com/samaxes/filter/util/HTTPCacheHeader.java:33-61 | exactly four constants, each once, in the order CACHE_CONTROL, EXPIRES, PRAGMA, ETAG, named "Cache-Control", "Expires", "Pragma", "ETag" |
| Vocabulary.HttpCacheHeaderNamesDistinctIgnoringCase | src/main/java/com/samaxes/filter/util/HTTPCacheHeader.java:33-46 | two constants' names are equal ignoring case exactly when the constants are the same |
| Vocabulary.CacheabilityTokens | src/main/java/com/samaxes/filter/util/Cacheability.java:33-55 | exactly two constants, in the order PUBLIC, PRIVATE, with values "public" and "private": distinct and all lower-case letters |
| Vocabulary.CacheConfigParameterNames | src/main/java/com/samaxes/filter/util/CacheConfigParameter.java:29-52 | exactly three constants, each once, in the order STATIC, PRIVATE, EXPIRATION_TIME, named "static", "private", "expirationTime": pairwise distinct |
| StringUtil.Join | src/main/java/com/samaxes/filter/util/StringUtil.java:13-22 | the loop around the `first` flag returns the elements in order, with the delimiter between neighbours |
| StringUtil.JoinedSnoc | src/main/java/com/samaxes/filter/util/StringUtil.java:16-20 | for a non-empty list, joining one more element appends the delimiter and then the element |
| StringUtil.JoinedShortLists | src/main/java/com/samaxes/filter/util/StringUtil.java:14-21 | no elements give ""; one element is returned with no delimiter |
| StringUtil.JoinedPairAndTriple | src/main/java/com/samaxes/filter/util/StringUtil.java:16-20 | two and three elements give e0 + d + e1 and e0 + d + e1 + d + e2 |
| StringUtil.JoinedLength | src/main/java/com/samaxes/filter/util/StringUtil.java:16-21 | for n >= 1 elements the length is the sum of their lengths plus (n - 1) delimiters |
| Servlet.Response.SetHeader | src/main/java/com/samaxes/filter/CacheFilter.java:179 | the named entry becomes the text, or is removed for a null value; the write is traced |
| Servlet.FilterConfig.InitParameter | src/main/java/com/samaxes/filter/CacheFilter.java:149-154 | definition of `getInitParameter`: the configured value, or null when the name is not configured; `CacheFilter.CacheFilter.Init` states what each value becomes |
| Servlet.Response.ContainsHeader | src/main/java/com/samaxes/filter/CacheFilter.java:187 | definition of `containsHeader`: the exact name has an entry; `CacheFilter.CacheFilter.SetCacheHeaders` calls it to decide the Pragma write, which `CacheFilter.OwnWritesApplied` then describes |
| Servlet.Response.SetDateHeader | src/main/java/com/samaxes/filter/CacheFilter.java:180-181 | the named entry becomes the instant; the write is traced |
| Servlet.GuardedResponse.SetHeader | src/main/java/com/samaxes/filter/NoETagFilter.java:76-80 | a write the guard drops leaves the wrapped response untouched; any other write reaches it unchanged |
| Servlet.GuardedResponse.SetDateHeader | src/main/java/com/samaxes/filter/NoETagFilter.java:74 | the inherited `setDateHeader` is delegated unfiltered |
| Servlet.FilterChain.DoFilter | src/main/java/com/samaxes/filter/CacheFilter.java:191 | one invocation; the later stages' writes land on the response after a `Proceeded(false)` event |
| Servlet.FilterChain.DoFilterWrapped | src/main/java/com/samaxes/filter/NoETagFilter.java:74-81 | one invocation; only the writes the wrapper forwards land on the response, after a `Proceeded(true)` event |
| Servlet.ApplyAllLastWriteWins | src/main/java/com/samaxes/filter/NoCacheFilter.java:57-63 | after a sequence of writes an entry holds what the last write to it left, or its old value when none wrote it |
| Servlet.ApplyAllIdempotent | src/main/java/com/samaxes/filter/NoCacheFilter.java:55-63 | making the same writes a second time changes nothing |
| Servlet.ForwardedLastEntryKept | src/main/java/com/samaxes/filter/NoETagFilter.java:77-78 | for a name the guard does not drop, the last write through the wrapper is the last write made |
| Servlet.ForwardedLastEntryDropped | src/main/java/com/samaxes/filter/NoETagFilter.java:76-80 | when a dropped name is written only with `setHeader`, no write to it gets through, whatever else the chain writes |
| CacheFilter.CacheControlValue | src/main/java/com/samaxes/filter/CacheFilter.java:172-176 | definition of the `StringBuilder` value; its shape, round trip and injectivity are the lemmas below |
| CacheFilter.ExpiresMillis | src/main/java/com/samaxes/filter/CacheFilter.java:180-181 | the `long` Expires instant is now plus seconds times 1000, modulo 2^64 |
| CacheFilter.MissingParameterMessage | src/main/java/com/samaxes/filter/CacheFilter.java:156-158 | definition of the ServletException message; `CacheFilter.Init` states when it is thrown |
| CacheFilter.OwnWrites | src/main/java/com/samaxes/filter/CacheFilter.java:179-189 | definition of the writes `doFilter` makes itself; their effect is stated by `OwnWritesApplied` |
| CacheFilter.CacheControlSuffix | src/main/java/com/samaxes/filter/CacheFilter.java:172-176 | the value ends with ", must-revalidate" exactly when the resource is not static; before it come the token, ", max-age=" and the seconds |
| CacheFilter.DecodeCacheControlValue | src/main/java/com/samaxes/filter/CacheFilter.java:172-176 | cacheability, seconds and the static flag read back from the Cache-Control value |
| CacheFilter.CacheControlValueInjective | src/main/java/com/samaxes/filter/CacheFilter.java:172-176 | two settings give the same Cache-Control value only when they are the same settings |
| CacheFilter.CacheControlIsJoinedDirectives | src/main/java/com/samaxes/filter/CacheFilter.java:172-176 | the value is the directive list (token, max-age, optional must-revalidate) joined with ", " |
| CacheFilter.MaxAgeRoundTrip | src/main/java/com/samaxes/filter/CacheFilter.java:154-172 | the seconds parsed from `expirationTime` and rendered into max-age parse back to the same number; canonical text comes back character for character |
| CacheFilter.ExpiresIsMaxAgeAhead | src/main/java/com/samaxes/filter/CacheFilter.java:180-181 | without `long` overflow Expires is now plus seconds times 1000 |
| CacheFilter.ExpiresWrapsForHugeExpirationTime | src/main/java/com/samaxes/filter/CacheFilter.java:180-181 | two examples at now 0: for 9223372036854776 seconds, just past `Long.MAX_VALUE / 1000`, the product wraps and Expires lies before the epoch; for 18446744073709552 seconds the product wraps to 384 ms past the epoch, so Expires lies just after it |
| CacheFilter.OwnWritesApplied | src/main/java/com/samaxes/filter/CacheFilter.java:179-189 | before the chain runs, Cache-Control holds the built value, Expires the expiry, Pragma is absent, and every other header is as it was |
| CacheFilter.CacheFilter.constructor | src/main/java/com/samaxes/filter/CacheFilter.java:140-142 | fields start at Java's defaults: null, false, 0 |
| CacheFilter.CacheFilter.Init | src/main/java/com/samaxes/filter/CacheFilter.java:148-160 | cacheability is PRIVATE iff `private` reads true, else PUBLIC; `isStatic` from `static`; seconds from `expirationTime`, or a ServletException naming the parameter and the filter, after the first two fields are stored |
| CacheFilter.CacheFilter.DoFilter | src/main/java/com/samaxes/filter/CacheFilter.java:169-192 | fields unchanged; Cache-Control, Expires and (only if present) Pragma written in that order, then the chain exactly once with the unwrapped response |
| CacheFilter.CacheFilter.SetCacheHeaders | src/main/java/com/samaxes/filter/CacheFilter.java:171-189 | the three header writes of `doFilter`, in order, with Pragma cleared only when `containsHeader("Pragma")` |
| CacheFilter.CacheFilter.Destroy | src/main/java/com/samaxes/filter/CacheFilter.java:198-199 | changes nothing |
| PresentationCacheFilter.CacheControlValue | src/main/java/com/samaxes/cachefilter/presentation/CacheFilter.java:93 | definition of the concatenated value; stated by `CacheControlEchoesPrivacy` |
| PresentationCacheFilter.RolledExpiry | src/main/java/com/samaxes/cachefilter/presentation/CacheFilter.java:91-92 | the instant `cal.roll` gives, as written; stated by `RolledExpiryStaysInMinute` |
| PresentationCacheFilter.IntendedExpiry | src/main/java/com/samaxes/cachefilter/presentation/CacheFilter.java:91-92 | the instant `cal.add(Calendar.SECOND, seconds)` would give: the corrected half of the Findings row; `ExpiresAgreesWithMaxAge` proves it agrees with max-age |
| PresentationCacheFilter.WholeSeconds | src/main/java/com/samaxes/cachefilter/presentation/CacheFilter.java:94 | the instant the formatted Expires text names: a multiple of 1000 ms, at most the instant and less than a second before it (the text itself is under Left out) |
| PresentationCacheFilter.ExpireDateWrites | src/main/java/com/samaxes/cachefilter/presentation/CacheFilter.java:93-94 | definition of the two writes of `setCacheExpireDate`, with the corrected Expires instant (under Left out and Findings); their effect is stated by `ExpireDateWritesApplied` |
| PresentationCacheFilter.HeaderWrites | src/main/java/com/samaxes/cachefilter/presentation/CacheFilter.java:74-81 | definition of the decision before the chain call; stated by `HeaderWritesDecision` |
| PresentationCacheFilter.CacheControlEchoesPrivacy | src/main/java/com/samaxes/cachefilter/presentation/CacheFilter.java:93 | the value starts with the privacy text verbatim, always ends with ", must-revalidate", and its max-age reads back as the seconds |
| PresentationCacheFilter.AgreesWithNewerFilter | src/main/java/com/samaxes/cachefilter/presentation/CacheFilter.java:93 | with "public" or "private" as privacy it is the newer filter's value for a non-static resource |
| PresentationCacheFilter.RolledExpiryStaysInMinute | src/main/java/com/samaxes/cachefilter/presentation/CacheFilter.java:91-92 | as written, the expiry stays in the minute of the request and keeps its milliseconds, whatever the expiration time |
| PresentationCacheFilter.RolledExpiryContradictsMaxAge | src/main/java/com/samaxes/cachefilter/presentation/CacheFilter.java:91-93 | as written, max-age=3600 comes with an Expires equal to the request time |
| PresentationCacheFilter.ExpiresAgreesWithMaxAge | src/main/java/com/samaxes/cachefilter/presentation/CacheFilter.java:91-94 | corrected, the seconds between request and Expires (to the second) are the max-age the Cache-Control value carries |
| PresentationCacheFilter.WholeSecondsShift | src/main/java/com/samaxes/cachefilter/presentation/CacheFilter.java:94 | shifting an instant by whole seconds shifts its HTTP-date second by the same amount |
| PresentationCacheFilter.HeaderWritesDecision | src/main/java/com/samaxes/cachefilter/presentation/CacheFilter.java:74-81 | headers are written iff both parameters are non-blank and `expirationTime` is an `int`; a non-blank malformed value throws NumberFormatException instead |
| PresentationCacheFilter.BlankParameterSamples | src/main/java/com/samaxes/cachefilter/presentation/CacheFilter.java:77 | a blank or absent parameter writes nothing |
| PresentationCacheFilter.PaddedExpirationTimeThrows | src/main/java/com/samaxes/cachefilter/presentation/CacheFilter.java:77-80 | " 60" passes the blank check and then makes `Integer.valueOf` throw |
| PresentationCacheFilter.PlusSignAccepted | src/main/java/com/samaxes/cachefilter/presentation/CacheFilter.java:79-80 | "+60" is read as 60 |
| PresentationCacheFilter.ExpireDateWritesApplied | src/main/java/com/samaxes/cachefilter/presentation/CacheFilter.java:93-94 | after the two writes Cache-Control and Expires hold the new values; every other header is as it was |
| PresentationCacheFilter.CacheFilter.constructor | src/main/java/com/samaxes/cachefilter/presentation/CacheFilter.java:40 | no configuration before `init` |
| PresentationCacheFilter.CacheFilter.Init | src/main/java/com/samaxes/cachefilter/presentation/CacheFilter.java:47-49 | stores the configuration |
| PresentationCacheFilter.CacheFilter.Destroy | src/main/java/com/samaxes/cachefilter/presentation/CacheFilter.java:54-56 | drops the configuration |
| PresentationCacheFilter.CacheFilter.DoFilter | src/main/java/com/samaxes/cachefilter/presentation/CacheFilter.java:67-85 | on NumberFormatException nothing changes and the chain is not called; otherwise the headers (if any) then the chain exactly once with the original response, null included |
| PresentationCacheFilter.CacheFilter.SetCacheExpireDate | src/main/java/com/samaxes/cachefilter/presentation/CacheFilter.java:87-96 | a non-null response gets Cache-Control then Expires; a null one gets nothing |
| NoETagFilter.SuppressesHeader | src/main/java/com/samaxes/filter/NoETagFilter.java:77 | definition of the guard; stated by `SuppressesExactlyETagSpellings` |
| NoETagFilter.SuppressesExactlyETagSpellings | src/main/java/com/samaxes/filter/NoETagFilter.java:77 | the guard accepts exactly the four-letter names that lower-case to "etag" |
| NoETagFilter.SuppressesHeaderSamples | src/main/java/com/samaxes/filter/NoETagFilter.java:77-78 | "etag" and "ETAG" are dropped; "ETag-X", "Tag", "E-Tag" and the other three cache headers pass |
| NoETagFilter.ETagEntryKept | src/main/java/com/samaxes/filter/NoETagFilter.java:74-81 | after any downstream writes through the wrapper that touch ETag only with `setHeader` (date headers to other names allowed), every ETag entry is as it was before the chain ran |
| NoETagFilter.CacheFilterBehindKeepsETag | src/main/java/com/samaxes/filter/NoETagFilter.java:74-81 | with `CacheFilter` downstream, its Cache-Control, Expires date and Pragma writes leave every ETag entry as it was |
| NoETagFilter.OtherEntriesTransparent | src/main/java/com/samaxes/filter/NoETagFilter.java:77-78 | every other entry ends as it would without the wrapper |
| NoETagFilter.DateHeadersPassThrough | src/main/java/com/samaxes/filter/NoETagFilter.java:74-81 | only `setHeader` is overridden: a date header named ETag gets through |
| NoETagFilter.NoETagFilter.Init | src/main/java/com/samaxes/filter/NoETagFilter.java:61-62 | keeps no state |
| NoETagFilter.NoETagFilter.DoFilter | src/main/java/com/samaxes/filter/NoETagFilter.java:72-82 | writes no header itself; the chain runs once with the wrapper, and only forwarded writes reach the response |
| NoETagFilter.NoETagFilter.Destroy | src/main/java/com/samaxes/filter/NoETagFilter.java:88-89 | keeps no state |
| NoEtagFilter.SuppressesHeader | src/main/java/com/samaxes/filter/NoEtagFilter.java:60 | definition of the literal "ETag" guard; stated by `SameGuard` |
| NoEtagFilter.SameGuard | src/main/java/com/samaxes/filter/NoEtagFilter.java:60 | the literal "ETag" guard accepts the same names as the enum-based one |
| NoEtagFilter.SameForwarded | src/main/java/com/samaxes/filter/NoEtagFilter.java:58-64 | both wrappers let exactly the same writes through, in the same order |
| NoEtagFilter.ETagEntryKept | src/main/java/com/samaxes/filter/NoEtagFilter.java:58-64 | downstream writes that touch ETag only with `setHeader` never change an ETag entry |
| NoEtagFilter.OtherEntriesTransparent | src/main/java/com/samaxes/filter/NoEtagFilter.java:59-62 | every other entry ends as it would without the wrapper: the last value written to it downstream, or its old value when nothing downstream wrote it |
| NoEtagFilter.NoEtagFilter.Init | src/main/java/com/samaxes/filter/NoEtagFilter.java:46-47 | keeps no state |
| NoEtagFilter.NoEtagFilter.DoFilter | src/main/java/com/samaxes/filter/NoEtagFilter.java:56-65 | writes no header itself; the chain runs once with the wrapper; the outcome equals the newer filter's |
| NoEtagFilter.NoEtagFilter.Destroy | src/main/java/com/samaxes/filter/NoEtagFilter.java:70-71 | keeps no state |
| NoCacheFilter.OwnWrites | src/main/java/com/samaxes/filter/NoCacheFilter.java:60-61 | definition of the two writes; stated by `OwnWritesApplied` |
| NoCacheFilter.NoCacheDirectivesJoined | src/main/java/com/samaxes/filter/NoCacheFilter.java:61 | the Cache-Control value is no-cache, no-store and must-revalidate joined with ", " |
| NoCacheFilter.OwnWritesApplied | src/main/java/com/samaxes/filter/NoCacheFilter.java:60-61 | Expires becomes the epoch origin, Cache-Control the fixed value; no other header is touched |
| NoCacheFilter.OwnWritesIdempotent | src/main/java/com/samaxes/filter/NoCacheFilter.java:55-63 | the writes depend on nothing; making them twice equals making them once |
| NoCacheFilter.DownstreamWritesWin | src/main/java/com/samaxes/filter/NoCacheFilter.java:57-63 | the response is not wrapped: a header written downstream ends with its last downstream value |
| NoCacheFilter.NoCacheFilter.Init | src/main/java/com/samaxes/filter/NoCacheFilter.java:45-46 | keeps no state |
| NoCacheFilter.NoCacheFilter.DoFilter | src/main/java/com/samaxes/filter/NoCacheFilter.java:55-64 | Expires then Cache-Control, then the chain exactly once with the original response |
| NoCacheFilter.NoCacheFilter.Destroy | src/main/java/com/samaxes/filter/NoCacheFilter.java:69-70 | keeps no state |

## Left out

- Logging through slf4j, and the request URI it prints: output only.
- `System.currentTimeMillis` and the calendar's current time become a `now`
  parameter in epoch milliseconds.
- The older filter's Expires value is the text `SimpleDateFormat` writes in
  GMT. It is modelled as a date entry holding the instant that text names: the
  instant cut to whole seconds. The spelling of the RFC 1123 date is not modelled.
- `GregorianCalendar.roll` works in the server's time zone. The model takes the
  second of the minute from the epoch milliseconds, which agrees for every zone
  whose offset is a whole number of minutes.
- Header names are compared exactly, as in a map. The case-insensitive lookup
  some containers apply to `containsHeader` and `setHeader` is not modelled.
- `setHeader(name, null)` is taken to remove the entry. Containers differ here.
- Other entry points are not modelled: `addHeader`, `addDateHeader`,
  `setIntHeader` and the response body. The wrappers delegate all of them
  unchanged; the modelled later stages make only `setHeader` and
  `setDateHeader` calls.
- Exceptions thrown by later stages of the chain, and IOException, are not
  modelled. Neither is the ClassCastException of the casts to
  `HttpServletResponse`.
- A null response is not modelled for four filters; their `DoFilter` takes a
  non-null `Response`. Each would throw before the chain runs:
  - `com.samaxes.filter.CacheFilter` throws NullPointerException at its first
    `setHeader` (CacheFilter.java:179).
  - `NoCacheFilter` throws NullPointerException at `setDateHeader`
    (NoCacheFilter.java:60).
  - `NoETagFilter` and `NoEtagFilter` throw IllegalArgumentException at
    `new HttpServletResponseWrapper(null)` (NoETagFilter.java:74,
    NoEtagFilter.java:58).
  - Only the older presentation filter, which checks for null, is modelled with
    a null response.
- `doFilter` before `init`: the servlet life cycle rules it out. The model
  requires `init` to have run, instead of modelling the NullPointerException.
- Only ASCII is modelled. Unicode case folding in `equalsIgnoreCase`, non-ASCII
  whitespace in `isNotBlank`, and the non-ASCII digits `Long.valueOf` accepts
  are left out.
- `Long.valueOf` accepts a leading '+'. That is the behaviour since Java 7; the
  Java 6 behaviour, which rejects it, is not modelled.
- Concurrent requests through one filter instance are not modelled.
- PresentationCacheFilter.CacheFilter.SetCacheExpireDate: the Expires it writes
  is the corrected instant, `seconds` seconds after the request. The code's
  `cal.roll` would keep it within the request's minute; that behaviour is
  modelled separately by `RolledExpiry` and is listed under Findings.
- PresentationCacheFilter.CacheFilter.DoFilter: the same as `SetCacheExpireDate`;
  its Expires write is the corrected instant, not the rolled one.
- PresentationCacheFilter.ExpireDateWrites: the same corrected Expires instant.
- StringUtil.Join: Java appends a null element or a null delimiter as the text
  "null". A `seq<string>` holds no null, so that case is not modelled.

## Findings

| source | as written | input that shows it | evidently intended | confidence | as-written member | corrected member |
|---|---|---|---|---|---|---|
| src/main/java/com/samaxes/cachefilter/presentation/CacheFilter.java:91-92 | `cal.roll(Calendar.SECOND, seconds)` moves only the second-of-minute field, modulo 60, and never carries into the minute, so Expires stays within the minute of the request (`RolledExpiry`; `RolledExpiryStaysInMinute` proves it for every input) | `expirationTime` "3600" on a request at the epoch: Cache-Control says max-age=3600, but Expires is the request time itself | `cal.add(Calendar.SECOND, seconds)`: Expires `seconds` seconds after the request, matching max-age (`IntendedExpiry`, which `ExpireDateWrites` uses) | high; not executed | PresentationCacheFilter.RolledExpiryContradictsMaxAge | PresentationCacheFilter.ExpiresAgreesWithMaxAge |
