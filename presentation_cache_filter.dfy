/**
 * `com.samaxes.cachefilter.presentation.CacheFilter`, the older filter: it keeps
 * its `FilterConfig` and on every request reads `privacy` and `expirationTime`
 * from it; when both are non-blank it writes Cache-Control and Expires, then it
 * passes the request on.
 */
module PresentationCacheFilter {
  import opened Wrappers
  import opened JavaLang
  import opened Affixes
  import opened Servlet
  import MainFilter = CacheFilter
  import Vocabulary

  const PrivacyParameter := "privacy"
  const ExpirationTimeParameter := "expirationTime"
  const CacheControlHeader := "Cache-Control"
  const ExpiresHeader := "Expires"
  const MaxAgeInfix := ", max-age="
  const MustRevalidateSuffix := ", must-revalidate"

  /** `privacy + ", max-age=" + seconds + ", must-revalidate"`: the privacy text goes in as given. */
  function CacheControlValue(privacy: string, seconds: int): string {
    privacy + MaxAgeInfix + DecimalString(seconds) + MustRevalidateSuffix
  }

  /** The max-age a Cache-Control value of that shape carries, read with `Integer.valueOf`. */
  function MaxAgeOf(value: string, privacy: string): Option<int> {
    match StripSuffix(value, MustRevalidateSuffix)
    case None => None
    case Some(body) =>
      match StripPrefix(body, privacy + MaxAgeInfix)
      case None => None
      case Some(digits) => ParseInt(Some(digits))
  }

  /** The second of the minute an instant in epoch milliseconds falls in. */
  function SecondOfMinute(millis: int): int {
    (millis / 1000) % 60
  }

  /**
   * The instant `cal.roll(Calendar.SECOND, seconds)` leaves, as the code is
   * written: only the second-of-minute field moves, modulo 60, and nothing
   * carries into the minute.
   */
  function RolledExpiry(now: int, seconds: int): int {
    var s := SecondOfMinute(now);
    now + ((s + seconds) % 60 - s) * 1000
  }

  /** The instant `seconds` seconds after `now`, the moment the max-age also names. */
  function IntendedExpiry(now: int, seconds: int): int {
    now + seconds * 1000
  }

  /** What an HTTP-date keeps of an instant: the whole seconds. */
  function WholeSeconds(millis: int): (r: int)
    ensures r % 1000 == 0 && r <= millis < r + 1000
  {
    millis - millis % 1000
  }

  /** The writes of `setCacheExpireDate` on a non-null response, with the expiry corrected to add the seconds. */
  function ExpireDateWrites(privacy: string, seconds: int, now: int): seq<HeaderWrite> {
    [ HeaderWrite.SetHeader(CacheControlHeader, Some(CacheControlValue(privacy, seconds))),
      HeaderWrite.SetDateHeader(ExpiresHeader, WholeSeconds(IntendedExpiry(now, seconds))) ]
  }

  /**
   * What `doFilter` does before the chain: nothing when a parameter is blank, a
   * NumberFormatException when `expirationTime` is not an `int`, otherwise the
   * two header writes.
   */
  function HeaderWrites(privacy: Option<string>, expirationTime: Option<string>, now: int): Result<seq<HeaderWrite>, JavaException> {
    if !(IsNotBlank(privacy) && IsNotBlank(expirationTime)) then Ok([])
    else match ParseInt(expirationTime)
      case None => Err(NumberFormatException(expirationTime))
      case Some(seconds) => Ok(ExpireDateWrites(privacy.value, seconds, now))
  }

  // ---------------------------------------------------------------------------------------------
  // The Cache-Control value

  /** The value starts with the privacy text as given, always ends with must-revalidate, and its max-age reads back as the number written. */
  lemma CacheControlEchoesPrivacy(privacy: string, seconds: Int)
    ensures var v := CacheControlValue(privacy, seconds);
      && StripPrefix(v, privacy) == Some(MaxAgeInfix + DecimalString(seconds) + MustRevalidateSuffix)
      && StripSuffix(v, MustRevalidateSuffix).Some?
      && MaxAgeOf(v, privacy) == Some(seconds)
  {
    var d := DecimalString(seconds);
    var body := privacy + MaxAgeInfix + d;
    assert CacheControlValue(privacy, seconds) == privacy + (MaxAgeInfix + d + MustRevalidateSuffix);
    StripAffixes(MaxAgeInfix + d + MustRevalidateSuffix, privacy);
    StripAffixes(body, MustRevalidateSuffix);
    assert body == (privacy + MaxAgeInfix) + d;
    StripAffixes(d, privacy + MaxAgeInfix);
    ParseDecimalString(seconds, MIN_INT, MAX_INT);
  }

  /** With a cacheability token as privacy, the value is the one the newer filter writes for a resource that is not static. */
  lemma AgreesWithNewerFilter(cacheability: Vocabulary.Cacheability, seconds: int)
    ensures CacheControlValue(cacheability.Value(), seconds) == MainFilter.CacheControlValue(cacheability, seconds, false)
    ensures CacheControlHeader == Vocabulary.HttpCacheHeader.CacheControl.Name() && ExpiresHeader == Vocabulary.HttpCacheHeader.Expires.Name()
  {
  }

  // ---------------------------------------------------------------------------------------------
  // The Expires instant

  /** As written, the expiry never leaves the minute of the request, and keeps its milliseconds, whatever the expiration time. */
  lemma RolledExpiryStaysInMinute(now: int, seconds: int)
    ensures RolledExpiry(now, seconds) / 60000 == now / 60000
    ensures RolledExpiry(now, seconds) % 1000 == now % 1000
    ensures now - SecondOfMinute(now) * 1000 <= RolledExpiry(now, seconds) < now - SecondOfMinute(now) * 1000 + 60000
  {
    var q, rem := now / 1000, now % 1000;
    var m, s := q / 60, q % 60;
    var k := (s + seconds) % 60;
    var r := RolledExpiry(now, seconds);
    assert 0 <= k < 60 && 0 <= s < 60 && 0 <= rem < 1000;
    assert now == 1000 * q + rem;
    assert q == 60 * m + s;
    assert r == now + (k - s) * 1000;
    assert r == 1000 * (60 * m + k) + rem;
    DivisionByLiteral(r, 1000, 60 * m + k, rem);
    DivisionByLiteral(r, 60000, m, 1000 * k + rem);
    DivisionByLiteral(now, 60000, m, 1000 * s + rem);
  }

  /** The quotient and remainder of a division are the unique pair with the remainder in range. */
  lemma DivisionByLiteral(x: int, d: int, quotient: int, remainder: int)
    requires d == 1000 || d == 60000
    requires x == d * quotient + remainder && 0 <= remainder < d
    ensures x / d == quotient && x % d == remainder
  {
  }

  /** As written, an hour's max-age comes with an Expires equal to the request time: the two headers disagree. */
  lemma RolledExpiryContradictsMaxAge()
    ensures MaxAgeOf(CacheControlValue("public", 3600), "public") == Some(3600)
    ensures RolledExpiry(0, 3600) == 0
    ensures IntendedExpiry(0, 3600) == 3600000
  {
    CacheControlEchoesPrivacy("public", 3600);
  }

  /** Corrected, Expires lies exactly max-age seconds after the request, to the second: the two headers agree. */
  lemma ExpiresAgreesWithMaxAge(privacy: string, seconds: Int, now: int)
    ensures MaxAgeOf(CacheControlValue(privacy, seconds), privacy) == Some((WholeSeconds(IntendedExpiry(now, seconds)) - WholeSeconds(now)) / 1000)
  {
    CacheControlEchoesPrivacy(privacy, seconds);
    WholeSecondsShift(now, seconds);
    assert (seconds * 1000) / 1000 == seconds;
  }

  /** Shifting an instant by whole seconds shifts its whole-second part by the same amount. */
  lemma WholeSecondsShift(millis: int, seconds: int)
    ensures WholeSeconds(millis + seconds * 1000) == WholeSeconds(millis) + seconds * 1000
  {
    var q, rem := millis / 1000, millis % 1000;
    assert millis == 1000 * q + rem && 0 <= rem < 1000;
    assert millis + seconds * 1000 == 1000 * (q + seconds) + rem;
    assert (millis + seconds * 1000) % 1000 == rem;
  }

  // ---------------------------------------------------------------------------------------------
  // The request-time decision

  /** Headers are written exactly when both parameters are non-blank and `expirationTime` is an `int`; a non-blank malformed value throws instead. */
  lemma HeaderWritesDecision(privacy: Option<string>, expirationTime: Option<string>, now: int)
    ensures var r := HeaderWrites(privacy, expirationTime, now);
      && (r.Ok? && r.value != [] <==> IsNotBlank(privacy) && IsNotBlank(expirationTime) && ParseInt(expirationTime).Some?)
      && (r.Err? <==> IsNotBlank(privacy) && IsNotBlank(expirationTime) && ParseInt(expirationTime).None?)
      && (r.Err? ==> r.error == NumberFormatException(expirationTime))
      && (r.Ok? && r.value != [] ==> r.value == ExpireDateWrites(privacy.value, ParseInt(expirationTime).value, now))
  {
  }

  /** Blank or absent parameters write nothing, even when the other is set. */
  lemma BlankParameterSamples(now: int)
    ensures HeaderWrites(Some("public"), Some("  "), now) == Ok([])
    ensures HeaderWrites(None, Some("60"), now) == Ok([])
  {
  }

  /** Padding is not blank, so it gets past the guard and then makes `Integer.valueOf` throw. */
  lemma PaddedExpirationTimeThrows(now: int)
    ensures HeaderWrites(Some("public"), Some(" 60"), now) == Err(NumberFormatException(Some(" 60")))
  {
    assert !IsWhitespace("public"[0]) && !IsWhitespace(" 60"[1]);
    assert !IsDigit(" 60"[0]);
  }

  /** An explicit '+' sign is accepted. */
  lemma PlusSignAccepted(now: int)
    ensures HeaderWrites(Some("public"), Some("+60"), now) == Ok(ExpireDateWrites("public", 60, now))
  {
    assert !IsWhitespace("public"[0]) && !IsWhitespace("+60"[0]);
    assert "+60"[1..] == "60" && "60"[..1] == "6" && "6"[..0] == "";
    assert SignedDigitsValue("+60") == Some(60);
  }

  /** After the two writes: Cache-Control and Expires hold the new values, every other header is as it was. */
  lemma ExpireDateWritesApplied(privacy: string, seconds: int, now: int, h: Headers)
    ensures var r := ApplyAll(h, ExpireDateWrites(privacy, seconds, now));
      && Lookup(r, CacheControlHeader) == Some(Text(CacheControlValue(privacy, seconds)))
      && Lookup(r, ExpiresHeader) == Some(Date(WholeSeconds(IntendedExpiry(now, seconds))))
      && forall k :: k != CacheControlHeader && k != ExpiresHeader ==> Lookup(r, k) == Lookup(h, k)
  {
    var ws := ExpireDateWrites(privacy, seconds, now);
    ShortWriteLists(h, ws[0], ws[1], ws[1]);
  }

  /** The filter; its only state is the configuration `init` stores and `destroy` drops. */
  class CacheFilter {
    var filterConfig: Option<FilterConfig>

    constructor ()
      ensures filterConfig == None
    {
      filterConfig := None;
    }

    /** `init(filterConfig)`: keep the configuration. */
    method Init(config: FilterConfig)
      modifies this
      ensures filterConfig == Some(config)
    {
      filterConfig := Some(config);
    }

    /** `destroy()`: forget the configuration. */
    method Destroy()
      modifies this
      ensures filterConfig == None
    {
      filterConfig := None;
    }

    /**
     * `doFilter`: read both parameters; when both are non-blank convert
     * `expirationTime` (which may throw) and set the headers; then pass the
     * original response on exactly once.
     */
    method DoFilter(response: Response?, chain: FilterChain, now: int) returns (outcome: Outcome)
      requires filterConfig.Some?
      modifies response, chain
      ensures var config := filterConfig.value;
        match HeaderWrites(config.InitParameter(PrivacyParameter), config.InitParameter(ExpirationTimeParameter), now)
        case Err(e) =>
          && outcome == Threw(e)
          && unchanged(chain)
          && (response != null ==> unchanged(response))
        case Ok(ws) =>
          && outcome == Completed
          && chain.invocations == old(chain.invocations) + 1
          && (response != null ==>
              && response.headers == ApplyAll(ApplyAll(old(response.headers), ws), chain.writes)
              && response.trace == old(response.trace) + Written(ws) + [Proceeded(false)] + Written(chain.writes))
    {
      var privacy := filterConfig.value.InitParameter(PrivacyParameter);
      var expirationTime := filterConfig.value.InitParameter(ExpirationTimeParameter);
      if IsNotBlank(privacy) && IsNotBlank(expirationTime) {
        match ParseInt(expirationTime)
        case None =>
          return Threw(NumberFormatException(expirationTime));
        case Some(seconds) =>
          SetCacheExpireDate(response, privacy.value, seconds, now);
      } else {
        assert response != null ==> Written([]) == [] && ApplyAll(response.headers, []) == response.headers;
      }
      chain.DoFilter(response);
      outcome := Completed;
    }

    /** `setCacheExpireDate`: on a non-null response, Cache-Control then Expires; on null, nothing. */
    method SetCacheExpireDate(response: Response?, privacy: string, seconds: Int, now: int)
      modifies response
      ensures response != null ==>
        && response.headers == ApplyAll(old(response.headers), ExpireDateWrites(privacy, seconds, now))
        && response.trace == old(response.trace) + Written(ExpireDateWrites(privacy, seconds, now))
    {
      if response != null {
        ghost var h0 := response.headers;
        var expires := WholeSeconds(IntendedExpiry(now, seconds));
        response.SetHeader(CacheControlHeader, Some(CacheControlValue(privacy, seconds)));
        response.SetDateHeader(ExpiresHeader, expires);
        ghost var ws := ExpireDateWrites(privacy, seconds, now);
        ShortWriteLists(h0, ws[0], ws[1], ws[1]);
      }
    }
  }
}
