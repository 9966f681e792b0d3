/**
 * `com.samaxes.filter.CacheFilter`: reads its three init parameters once, then
 * on every request sets Cache-Control (section 14.9 of RFC 2616), Expires
 * (section 14.21) and clears a Pragma header (section 14.32) before passing the
 * request on.
 */
module CacheFilter {
  import opened Wrappers
  import opened JavaLang
  import opened Affixes
  import opened Vocabulary
  import opened Servlet
  import StringUtil

  const MaxAgePrefix := ", max-age="
  const MustRevalidateSuffix := ", must-revalidate"

  /** The Cache-Control value `doFilter` builds: the cacheability token, the max-age, and must-revalidate unless the resource is static. */
  function CacheControlValue(cacheability: Cacheability, seconds: int, isStatic: bool): string {
    cacheability.Value() + MaxAgePrefix + DecimalString(seconds) + (if !isStatic then MustRevalidateSuffix else "")
  }

  /** The directives of the Cache-Control value, in the order they are written. */
  function Directives(cacheability: Cacheability, seconds: int, isStatic: bool): seq<string> {
    [cacheability.Value(), "max-age=" + DecimalString(seconds)] + (if !isStatic then ["must-revalidate"] else [])
  }

  /** The three settings `init` stores. */
  datatype Policy = Policy(cacheability: Cacheability, seconds: int, isStatic: bool)

  /** The cacheability token and the text after ", max-age=". */
  function DecodeHead(body: string): Option<(Cacheability, string)> {
    match StripPrefix(body, Public.Value() + MaxAgePrefix)
    case Some(rest) => Some((Public, rest))
    case None =>
      match StripPrefix(body, Private.Value() + MaxAgePrefix)
      case Some(rest) => Some((Private, rest))
      case None => None
  }

  /** Reads a Cache-Control value of the shape `doFilter` writes back into the settings that produced it. */
  function DecodeCacheControl(s: string): Option<Policy> {
    var stripped := StripSuffix(s, MustRevalidateSuffix);
    var body := if stripped.Some? then stripped.value else s;
    match DecodeHead(body)
    case None => None
    case Some((c, digits)) =>
      match ParseLong(Some(digits))
      case None => None
      case Some(n) => Some(Policy(c, n, stripped.None?))
  }

  /** `System.currentTimeMillis() + seconds * 1000L` in `long` arithmetic. */
  function ExpiresMillis(now: Long, seconds: Long): (r: Long)
    ensures (r - (now + seconds * 1000)) % 0x1_0000_0000_0000_0000 == 0
  {
    var product := WrapLong(seconds * 1000);
    var r := WrapLong(now + product);
    LongCongruenceSum(r - (now + product), product - seconds * 1000);
    r
  }

  /** Two differences that are multiples of 2^64 add up to one. */
  lemma LongCongruenceSum(a: int, b: int)
    requires a % 0x1_0000_0000_0000_0000 == 0 && b % 0x1_0000_0000_0000_0000 == 0
    ensures (a + b) % 0x1_0000_0000_0000_0000 == 0
  {
    var m := 0x1_0000_0000_0000_0000;
    assert a == m * (a / m);
    assert b == m * (b / m);
    assert a + b == m * (a / m + b / m);
  }

  /** "The initialization parameter expirationTime is missing for filter <name>." */
  function MissingParameterMessage(filterName: string): string {
    "The initialization parameter " + ExpirationTime.Name() + " is missing for filter " + filterName + "."
  }

  /** The header writes `doFilter` itself makes, in order, before passing the request on. */
  function OwnWrites(cacheability: Cacheability, isStatic: bool, seconds: Long, now: Long, pragmaPresent: bool): seq<HeaderWrite> {
    [ HeaderWrite.SetHeader(CacheControl.Name(), Some(CacheControlValue(cacheability, seconds, isStatic))),
      HeaderWrite.SetDateHeader(Expires.Name(), ExpiresMillis(now, seconds)) ]
    + (if pragmaPresent then [HeaderWrite.SetHeader(Pragma.Name(), None)] else [])
  }

  // ---------------------------------------------------------------------------------------------
  // The Cache-Control value

  /** The value ends with must-revalidate exactly when the resource is not static; what precedes it is the token and the max-age. */
  lemma CacheControlSuffix(cacheability: Cacheability, seconds: int, isStatic: bool)
    ensures var head := cacheability.Value() + MaxAgePrefix + DecimalString(seconds);
      StripSuffix(CacheControlValue(cacheability, seconds, isStatic), MustRevalidateSuffix) == if isStatic then None else Some(head)
  {
    var v := CacheControlValue(cacheability, seconds, isStatic);
    var d := DecimalString(seconds);
    var head := cacheability.Value() + MaxAgePrefix + d;
    if isStatic {
      DecimalStringAlphabet(seconds);
      assert v == head;
      assert v[|v| - 1] == d[|d| - 1];
    } else {
      assert v == head + MustRevalidateSuffix;
      StripAffixes(head, MustRevalidateSuffix);
    }
  }

  /** The token and the text after ", max-age=" are read back; "private" is not mistaken for "public". */
  lemma DecodeHeadOf(cacheability: Cacheability, digits: string)
    ensures DecodeHead(cacheability.Value() + MaxAgePrefix + digits) == Some((cacheability, digits))
  {
    var body := cacheability.Value() + MaxAgePrefix + digits;
    assert body == (cacheability.Value() + MaxAgePrefix) + digits;
    StripAffixes(digits, cacheability.Value() + MaxAgePrefix);
    if cacheability == Private {
      assert body[1] == 'r';
    }
  }

  /** Round trip: the settings can be read back from the Cache-Control value, so the value determines them. */
  lemma DecodeCacheControlValue(cacheability: Cacheability, seconds: Long, isStatic: bool)
    ensures DecodeCacheControl(CacheControlValue(cacheability, seconds, isStatic)) == Some(Policy(cacheability, seconds, isStatic))
  {
    var head := cacheability.Value() + MaxAgePrefix + DecimalString(seconds);
    CacheControlSuffix(cacheability, seconds, isStatic);
    assert isStatic ==> CacheControlValue(cacheability, seconds, isStatic) == head;
    DecodeHeadOf(cacheability, DecimalString(seconds));
    ParseDecimalString(seconds, MIN_LONG, MAX_LONG);
  }

  /** Two policies give the same Cache-Control value only when they are the same policy. */
  lemma CacheControlValueInjective(p: Policy, q: Policy)
    requires MIN_LONG <= p.seconds <= MAX_LONG && MIN_LONG <= q.seconds <= MAX_LONG
    ensures CacheControlValue(p.cacheability, p.seconds, p.isStatic) == CacheControlValue(q.cacheability, q.seconds, q.isStatic) <==> p == q
  {
    DecodeCacheControlValue(p.cacheability, p.seconds, p.isStatic);
    DecodeCacheControlValue(q.cacheability, q.seconds, q.isStatic);
  }

  /** The value is the directive list joined with ", ", as `StringUtil.join` would join it. */
  lemma CacheControlIsJoinedDirectives(cacheability: Cacheability, seconds: int, isStatic: bool)
    ensures CacheControlValue(cacheability, seconds, isStatic) == StringUtil.Joined(", ", Directives(cacheability, seconds, isStatic))
  {
    var c, d := cacheability.Value(), DecimalString(seconds);
    var m := "max-age=" + d;
    StringUtil.JoinedPairAndTriple(", ", c, m, "must-revalidate");
    assert MaxAgePrefix == ", " + "max-age=";
    assert MustRevalidateSuffix == ", " + "must-revalidate";
    assert c + MaxAgePrefix + d == c + ", " + m;
    if !isStatic {
      assert Directives(cacheability, seconds, isStatic) == [c, m, "must-revalidate"];
    } else {
      assert Directives(cacheability, seconds, isStatic) == [c, m];
    }
  }

  // ---------------------------------------------------------------------------------------------
  // The expirationTime parameter

  /** Parsing `expirationTime` and rendering `seconds` into max-age gives back the same number, and for canonical text the same characters. */
  lemma MaxAgeRoundTrip(expirationTime: string)
    requires ParseLong(Some(expirationTime)).Some?
    ensures var seconds := ParseLong(Some(expirationTime)).value;
      && ParseLong(Some(DecimalString(seconds))) == Some(seconds)
      && (IsCanonicalDecimal(expirationTime) ==> DecimalString(seconds) == expirationTime)
  {
    var seconds := ParseLong(Some(expirationTime)).value;
    ParseDecimalString(seconds, MIN_LONG, MAX_LONG);
    if IsCanonicalDecimal(expirationTime) {
      DecimalStringOfParse(expirationTime, MIN_LONG, MAX_LONG);
    }
  }

  /** Expires lies `seconds` seconds after the request time whenever the `long` arithmetic does not overflow. */
  lemma ExpiresIsMaxAgeAhead(now: Long, seconds: Long)
    requires MIN_LONG <= seconds * 1000 <= MAX_LONG
    requires MIN_LONG <= now + seconds * 1000 <= MAX_LONG
    ensures ExpiresMillis(now, seconds) == now + seconds * 1000
  {
  }

  /**
   * Two requests at the epoch origin whose `long` product wraps. With 9223372036854776
   * seconds, just past `Long.MAX_VALUE / 1000`, Expires lies before the epoch although
   * max-age is positive. With 18446744073709552 seconds, about twice as many, the
   * product wraps to 384 ms: Expires lies just after the epoch, nowhere near max-age.
   */
  lemma ExpiresWrapsForHugeExpirationTime()
    ensures ExpiresMillis(0, 9223372036854776) == 9223372036854776000 - 0x1_0000_0000_0000_0000 < 0
    ensures ExpiresMillis(0, 18446744073709552) == 384
  {
    assert 9223372036854776 * 1000 == 9223372036854776000 > MAX_LONG;
    assert 18446744073709552 * 1000 == 18446744073709552000 == 384 + 0x1_0000_0000_0000_0000;
  }

  // ---------------------------------------------------------------------------------------------
  // The headers doFilter sets

  /** The writes `doFilter` makes, unfolded: Cache-Control, then Expires, then Pragma when it was present. */
  lemma OwnWritesUnfolded(cacheability: Cacheability, isStatic: bool, seconds: Long, now: Long, pragmaPresent: bool, h: Headers)
    ensures var ws := OwnWrites(cacheability, isStatic, seconds, now, pragmaPresent);
      var h2 := Apply(Apply(h, ws[0]), ws[1]);
      && |ws| == (if pragmaPresent then 3 else 2)
      && ApplyAll(h, ws) == (if pragmaPresent then Apply(h2, ws[2]) else h2)
      && Written(ws) == [Wrote(ws[0]), Wrote(ws[1])] + (if pragmaPresent then [Wrote(ws[2])] else [])
  {
    var ws := OwnWrites(cacheability, isStatic, seconds, now, pragmaPresent);
    var p := HeaderWrite.SetHeader(Pragma.Name(), None);
    ShortWriteLists(h, ws[0], ws[1], p);
    if pragmaPresent {
      assert ws == [ws[0], ws[1], p];
    } else {
      assert ws == [ws[0], ws[1]];
    }
  }

  /**
   * What `doFilter` leaves before the chain runs: Cache-Control holds the value
   * built from the settings, Expires the expiry instant, Pragma is gone, and
   * every other header is as it was.
   */
  lemma OwnWritesApplied(cacheability: Cacheability, isStatic: bool, seconds: Long, now: Long, h: Headers)
    ensures var r := ApplyAll(h, OwnWrites(cacheability, isStatic, seconds, now, Pragma.Name() in h));
      && Lookup(r, CacheControl.Name()) == Some(Text(CacheControlValue(cacheability, seconds, isStatic)))
      && Lookup(r, Expires.Name()) == Some(Date(ExpiresMillis(now, seconds)))
      && Pragma.Name() !in r
      && forall k :: k != CacheControl.Name() && k != Expires.Name() && k != Pragma.Name() ==> Lookup(r, k) == Lookup(h, k)
  {
    OwnWritesUnfolded(cacheability, isStatic, seconds, now, Pragma.Name() in h, h);
    var r := ApplyAll(h, OwnWrites(cacheability, isStatic, seconds, now, Pragma.Name() in h));
    assert Lookup(r, Pragma.Name()) == None;
  }

  /** `CacheFilter`: the three settings are its whole state, assigned only by `init`. */
  class CacheFilter {
    var cacheability: Option<Cacheability>
    var isStatic: bool
    var seconds: Long

    /** A fresh instance holds Java's field defaults: null, false and 0. */
    constructor ()
      ensures cacheability == None && !isStatic && seconds == 0
    {
      cacheability := None;
      isStatic := false;
      seconds := 0;
    }

    /** `init` has assigned the cacheability, which `doFilter` dereferences. */
    predicate Initialized()
      reads this
    {
      cacheability.Some?
    }

    /**
     * `init(filterConfig)`: `private` and `static` through `Boolean.valueOf`,
     * `expirationTime` through `Long.valueOf`; an absent or malformed
     * `expirationTime` throws a ServletException after the first two are stored.
     */
    method Init(config: FilterConfig) returns (outcome: Outcome)
      modifies this
      ensures cacheability == Some(if ParseBoolean(config.InitParameter(PrivateParameter.Name())) then Private else Public)
      ensures isStatic == ParseBoolean(config.InitParameter(Static.Name()))
      ensures match ParseLong(config.InitParameter(ExpirationTime.Name()))
        case Some(v) => seconds == v && outcome == Completed
        case None => seconds == old(seconds) && outcome == Threw(ServletException(MissingParameterMessage(config.filterName)))
    {
      cacheability := if ParseBoolean(config.InitParameter(PrivateParameter.Name())) then Some(Private) else Some(Public);
      isStatic := ParseBoolean(config.InitParameter(Static.Name()));
      match ParseLong(config.InitParameter(ExpirationTime.Name()))
      case Some(v) =>
        seconds := v;
        outcome := Completed;
      case None =>
        outcome := Threw(ServletException(MissingParameterMessage(config.filterName)));
    }

    /**
     * `doFilter`: sets Cache-Control and Expires, clears Pragma only if present,
     * then passes the original response down the chain exactly once.
     */
    method DoFilter(response: Response, chain: FilterChain, now: Long)
      requires Initialized()
      modifies response, chain
      ensures unchanged(this)
      ensures chain.invocations == old(chain.invocations) + 1
      ensures var own := OwnWrites(cacheability.value, isStatic, seconds, now, Pragma.Name() in old(response.headers));
        && response.headers == ApplyAll(ApplyAll(old(response.headers), own), chain.writes)
        && response.trace == old(response.trace) + Written(own) + [Proceeded(false)] + Written(chain.writes)
    {
      SetCacheHeaders(response, now);
      chain.DoFilter(response);
    }

    /** The header writes of `doFilter`, in order, before the chain call. */
    method SetCacheHeaders(response: Response, now: Long)
      requires Initialized()
      modifies response
      ensures var own := OwnWrites(cacheability.value, isStatic, seconds, now, Pragma.Name() in old(response.headers));
        && response.headers == ApplyAll(old(response.headers), own)
        && response.trace == old(response.trace) + Written(own)
    {
      ghost var h0, t0 := response.headers, response.trace;
      ghost var own := OwnWrites(cacheability.value, isStatic, seconds, now, Pragma.Name() in h0);
      OwnWritesUnfolded(cacheability.value, isStatic, seconds, now, Pragma.Name() in h0, h0);
      var cacheControl := CacheControlValue(cacheability.value, seconds, isStatic);
      response.SetHeader(CacheControl.Name(), Some(cacheControl));
      assert response.headers == Apply(h0, own[0]) && response.trace == t0 + [Wrote(own[0])];
      response.SetDateHeader(Expires.Name(), ExpiresMillis(now, seconds));
      ghost var h2 := response.headers;
      assert h2 == Apply(Apply(h0, own[0]), own[1]) && response.trace == t0 + [Wrote(own[0]), Wrote(own[1])];
      assert Pragma.Name() in h2 <==> Pragma.Name() in h0;
      if response.ContainsHeader("Pragma") {
        response.SetHeader(Pragma.Name(), None);
        assert response.headers == Apply(h2, own[2]);
      }
    }

    /** `destroy()`: nothing to release. */
    method Destroy()
      ensures unchanged(this)
    {
    }
  }
}
