/**
 * `com.samaxes.filter.NoEtagFilter`, the older copy of `NoETagFilter` whose
 * wrapper compares with the literal "ETag" instead of the header enum. It is
 * shown here to behave exactly like the newer filter.
 */
module NoEtagFilter {
  import opened JavaLang
  import opened Servlet
  import NoETagFilter

  /** The wrapper's guard: `"ETag".equalsIgnoreCase(name)`. */
  predicate SuppressesHeader(name: string) {
    EqualsIgnoreCase("ETag", name)
  }

  /** The literal and the enum name are the same text, so the two guards accept the same names. */
  lemma SameGuard(name: string)
    ensures SuppressesHeader(name) <==> NoETagFilter.SuppressesHeader(name)
  {
  }

  /** Through either wrapper exactly the same downstream writes get through, in the same order. */
  lemma {:induction false} SameForwarded(ws: seq<HeaderWrite>)
    ensures Forwarded(ws, SuppressesHeader) == Forwarded(ws, NoETagFilter.SuppressesHeader)
  {
    if ws != [] {
      SameForwarded(ws[..|ws| - 1]);
      SameGuard(ws[|ws| - 1].name);
    }
  }

  /** Downstream writes through this wrapper that touch ETag only with `setHeader` never change an ETag entry. */
  lemma ETagEntryKept(h: Headers, ws: seq<HeaderWrite>, name: string)
    requires SuppressesHeader(name)
    requires forall i :: 0 <= i < |ws| && ws[i].name == name ==> ws[i].SetHeader?
    ensures Lookup(ApplyAll(h, Forwarded(ws, SuppressesHeader)), name) == Lookup(h, name)
  {
    SameForwarded(ws);
    NoETagFilter.ETagEntryKept(h, ws, name);
  }

  /** Every other entry ends as it would without the wrapper: the last value written to it downstream, or its old value when nothing downstream wrote it. */
  lemma OtherEntriesTransparent(h: Headers, ws: seq<HeaderWrite>, name: string)
    requires !SuppressesHeader(name)
    ensures Lookup(ApplyAll(h, Forwarded(ws, SuppressesHeader)), name) == Lookup(ApplyAll(h, ws), name)
  {
    SameForwarded(ws);
    NoETagFilter.OtherEntriesTransparent(h, ws, name);
  }

  /** The filter; it has no state. */
  class NoEtagFilter {
    constructor ()
    {
    }

    /** `init(filterConfig)`: nothing to set up. */
    method Init(config: FilterConfig)
      ensures unchanged(this)
    {
    }

    /** `doFilter`: proceeds exactly once with the wrapper and writes no header itself; the result is the newer filter's. */
    method DoFilter(response: Response, chain: FilterChain)
      modifies response, chain
      ensures chain.invocations == old(chain.invocations) + 1
      ensures response.headers == ApplyAll(old(response.headers), Forwarded(chain.writes, NoETagFilter.SuppressesHeader))
      ensures response.trace == old(response.trace) + [Proceeded(true)] + Written(Forwarded(chain.writes, NoETagFilter.SuppressesHeader))
    {
      var wrapper := new GuardedResponse(response, SuppressesHeader);
      chain.DoFilterWrapped(wrapper);
      SameForwarded(chain.writes);
    }

    /** `destroy()`: nothing to release. */
    method Destroy()
      ensures unchanged(this)
    {
    }
  }
}
