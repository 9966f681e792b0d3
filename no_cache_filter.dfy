/**
 * `com.samaxes.filter.NoCacheFilter`: marks every response as already expired
 * and forbids caching it, then passes the request on with the response itself.
 */
module NoCacheFilter {
  import opened Wrappers
  import opened Servlet
  import StringUtil

  /** The Cache-Control value: no-cache, no-store and must-revalidate (section 14.9 of RFC 2616). */
  const NoCacheDirectives := "no-cache, no-store, must-revalidate"

  /** The writes `doFilter` makes, in order: Expires at the epoch origin, then Cache-Control. */
  function OwnWrites(): seq<HeaderWrite> {
    [HeaderWrite.SetDateHeader("Expires", 0), HeaderWrite.SetHeader("Cache-Control", Some(NoCacheDirectives))]
  }

  /** The value is the three directives joined with ", ". */
  lemma NoCacheDirectivesJoined()
    ensures NoCacheDirectives == StringUtil.Joined(", ", ["no-cache", "no-store", "must-revalidate"])
  {
    StringUtil.JoinedPairAndTriple(", ", "no-cache", "no-store", "must-revalidate");
    var joined := "no-cache" + ", " + "no-store" + ", " + "must-revalidate";
    assert |joined| == |NoCacheDirectives|;
    forall i | 0 <= i < |joined|
      ensures joined[i] == NoCacheDirectives[i]
    {
    }
  }

  /** Before the chain runs: Expires is the epoch origin, Cache-Control the fixed value, nothing else is touched. */
  lemma OwnWritesApplied(h: Headers)
    ensures var r := ApplyAll(h, OwnWrites());
      && Lookup(r, "Expires") == Some(Date(0))
      && Lookup(r, "Cache-Control") == Some(Text(NoCacheDirectives))
      && forall k :: k != "Expires" && k != "Cache-Control" ==> Lookup(r, k) == Lookup(h, k)
  {
    var ws := OwnWrites();
    ShortWriteLists(h, ws[0], ws[1], ws[1]);
  }

  /** The writes depend on nothing: running them again on their own result changes nothing. */
  lemma OwnWritesIdempotent(h: Headers)
    ensures ApplyAll(ApplyAll(h, OwnWrites()), OwnWrites()) == ApplyAll(h, OwnWrites())
  {
    ApplyAllIdempotent(h, OwnWrites());
  }

  /** The response is not wrapped, so a header the later stages write ends with their last value, Cache-Control and Expires included. */
  lemma DownstreamWritesWin(h: Headers, ws: seq<HeaderWrite>, name: string)
    requires LastEntry(ws, name).Some?
    ensures Lookup(ApplyAll(ApplyAll(h, OwnWrites()), ws), name) == LastEntry(ws, name).value
  {
    ApplyAllLastWriteWins(ApplyAll(h, OwnWrites()), ws, name);
  }

  /** The filter; it has no state. */
  class NoCacheFilter {
    constructor ()
    {
    }

    /** `init(filterConfig)`: nothing to set up. */
    method Init(config: FilterConfig)
      ensures unchanged(this)
    {
    }

    /** `doFilter`: the two headers, then the chain exactly once with the original response. */
    method DoFilter(response: Response, chain: FilterChain)
      modifies response, chain
      ensures chain.invocations == old(chain.invocations) + 1
      ensures response.headers == ApplyAll(ApplyAll(old(response.headers), OwnWrites()), chain.writes)
      ensures response.trace == old(response.trace) + Written(OwnWrites()) + [Proceeded(false)] + Written(chain.writes)
    {
      ghost var h0 := response.headers;
      response.SetDateHeader("Expires", 0);
      response.SetHeader("Cache-Control", Some(NoCacheDirectives));
      ghost var ws := OwnWrites();
      ShortWriteLists(h0, ws[0], ws[1], ws[1]);
      chain.DoFilter(response);
    }

    /** `destroy()`: nothing to release. */
    method Destroy()
      ensures unchanged(this)
    {
    }
  }
}
