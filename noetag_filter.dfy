/**
 * `com.samaxes.filter.NoETagFilter`: hands the rest of the chain a response
 * wrapper whose `setHeader` silently discards ETag (section 14.19 of RFC 2616),
 * whatever its case, so no entity tag reaches the client through that call.
 */
module NoETagFilter {
  import opened Wrappers
  import opened JavaLang
  import opened Vocabulary
  import opened Servlet
  import CacheFilter

  /** The wrapper's guard: `HTTPCacheHeader.ETAG.getName().equalsIgnoreCase(name)`. */
  predicate SuppressesHeader(name: string) {
    EqualsIgnoreCase(ETag.Name(), name)
  }

  /** The guard accepts exactly the four-letter names that spell "etag" in any mix of cases. */
  lemma SuppressesExactlyETagSpellings(name: string)
    ensures SuppressesHeader(name) <==> |name| == 4 && forall i :: 0 <= i < 4 ==> ToLowerAscii(name[i]) == "etag"[i]
  {
    if |name| == 4 {
      forall i | 0 <= i < 4
        ensures CharEqualsIgnoreCase("ETag"[i], name[i]) <==> ToLowerAscii(name[i]) == "etag"[i]
      {
        CharEqualsIgnoreCaseIsLowerCaseEquality("ETag"[i], name[i]);
      }
    }
  }

  /** Other spellings of ETag are caught; near misses and the other cache headers are not. */
  lemma SuppressesHeaderSamples()
    ensures SuppressesHeader("ETag") && SuppressesHeader("etag") && SuppressesHeader("ETAG")
    ensures !SuppressesHeader("ETag-X") && !SuppressesHeader("Tag") && !SuppressesHeader("E-Tag")
    ensures forall h: HttpCacheHeader :: SuppressesHeader(h.Name()) <==> h == ETag
  {
    SuppressesExactlyETagSpellings("etag");
    SuppressesExactlyETagSpellings("ETAG");
    forall h: HttpCacheHeader
      ensures SuppressesHeader(h.Name()) <==> h == ETag
    {
      HttpCacheHeaderNamesDistinctIgnoringCase(ETag, h);
    }
  }

  /** After any downstream writes through the wrapper that touch ETag only with `setHeader`, every ETag entry is as it was before the chain ran. */
  lemma ETagEntryKept(h: Headers, ws: seq<HeaderWrite>, name: string)
    requires SuppressesHeader(name)
    requires forall i :: 0 <= i < |ws| && ws[i].name == name ==> ws[i].SetHeader?
    ensures Lookup(ApplyAll(h, Forwarded(ws, SuppressesHeader)), name) == Lookup(h, name)
  {
    ForwardedLastEntryDropped(ws, SuppressesHeader, name);
    ApplyAllLastWriteWins(h, Forwarded(ws, SuppressesHeader), name);
  }

  /** `CacheFilter` mapped behind this filter: its Cache-Control, Expires date and Pragma writes leave the ETag entry as it was. */
  lemma CacheFilterBehindKeepsETag(h: Headers, c: Cacheability, isStatic: bool, seconds: Long, now: Long, pragmaPresent: bool, name: string)
    requires SuppressesHeader(name)
    ensures Lookup(ApplyAll(h, Forwarded(CacheFilter.OwnWrites(c, isStatic, seconds, now, pragmaPresent), SuppressesHeader)), name) == Lookup(h, name)
  {
    var ws := CacheFilter.OwnWrites(c, isStatic, seconds, now, pragmaPresent);
    SuppressesHeaderSamples();
    assert ws[1].name == Expires.Name() && !SuppressesHeader(Expires.Name());
    forall i | 0 <= i < |ws| && ws[i].name == name
      ensures ws[i].SetHeader?
    {
      assert i != 1;
    }
    ETagEntryKept(h, ws, name);
  }

  /** Every other entry ends as it would without the wrapper: the last value written to it downstream, or its old value when nothing downstream wrote it. */
  lemma OtherEntriesTransparent(h: Headers, ws: seq<HeaderWrite>, name: string)
    requires !SuppressesHeader(name)
    ensures Lookup(ApplyAll(h, Forwarded(ws, SuppressesHeader)), name) == Lookup(ApplyAll(h, ws), name)
  {
    ForwardedLastEntryKept(ws, SuppressesHeader, name);
    ApplyAllLastWriteWins(h, Forwarded(ws, SuppressesHeader), name);
    ApplyAllLastWriteWins(h, ws, name);
  }

  /** Only `setHeader` is overridden: a date header named ETag still gets through. */
  lemma DateHeadersPassThrough(h: Headers, millis: int)
    ensures Lookup(ApplyAll(h, Forwarded([HeaderWrite.SetDateHeader(ETag.Name(), millis)], SuppressesHeader)), ETag.Name()) == Some(Date(millis))
  {
    var w := HeaderWrite.SetDateHeader(ETag.Name(), millis);
    ForwardedSnoc([], w, SuppressesHeader);
    assert [] + [w] == [w];
    ShortWriteLists(h, w, w, w);
    ApplyAllSnoc(h, [], w);
  }

  /** The filter; it has no state. */
  class NoETagFilter {
    constructor ()
    {
    }

    /** `init(filterConfig)`: nothing to set up. */
    method Init(config: FilterConfig)
      ensures unchanged(this)
    {
    }

    /**
     * `doFilter`: writes no header itself and proceeds exactly once, handing the
     * chain the wrapper instead of the response.
     */
    method DoFilter(response: Response, chain: FilterChain)
      modifies response, chain
      ensures chain.invocations == old(chain.invocations) + 1
      ensures response.headers == ApplyAll(old(response.headers), Forwarded(chain.writes, SuppressesHeader))
      ensures response.trace == old(response.trace) + [Proceeded(true)] + Written(Forwarded(chain.writes, SuppressesHeader))
    {
      var wrapper := new GuardedResponse(response, SuppressesHeader);
      chain.DoFilterWrapped(wrapper);
    }

    /** `destroy()`: nothing to release. */
    method Destroy()
      ensures unchanged(this)
    {
    }
  }
}
