/**
 * The part of the Servlet API the filters use. A response is a header table
 * keyed by exact header name, together with a trace of everything that happened
 * to it in order. The filter chain stands for the rest of the pipeline: it is
 * the fixed list of header writes the later stages perform on whatever response
 * they are handed, plus a count of how often it was invoked.
 */
module Servlet {
  import opened Wrappers

  /** What a header entry holds: text from `setHeader`, or an instant in epoch milliseconds from `setDateHeader`. */
  datatype HeaderValue = Text(text: string) | Date(millis: int)

  /** One header-writing call on a response; `SetHeader(n, None)` is `setHeader(n, null)`. */
  datatype HeaderWrite =
    | SetHeader(name: string, value: Option<string>)
    | SetDateHeader(name: string, millis: int)

  /** What a response goes through: a write that reaches it, or the hand-off down the chain, wrapped or not. */
  datatype Event = Wrote(write: HeaderWrite) | Proceeded(wrapped: bool)

  type Headers = map<string, HeaderValue>

  /** The exceptions the filters raise. */
  datatype JavaException =
    | ServletException(message: string)
    | NumberFormatException(input: Option<string>)

  /** How a call ends: normally, or by throwing. */
  datatype Outcome = Completed | Threw(exception: JavaException)

  /** `FilterConfig`: the filter's name and its init-parameter table. */
  datatype FilterConfig = FilterConfig(filterName: string, initParameters: map<string, string>)
  {
    /** `getInitParameter(name)`: null when the parameter is not configured. */
    function InitParameter(name: string): Option<string> {
      if name in initParameters then Some(initParameters[name]) else None
    }
  }

  function Lookup(h: Headers, name: string): Option<HeaderValue> {
    if name in h then Some(h[name]) else None
  }

  /** What a write leaves in the entry it names; a null value clears the entry. */
  function Entry(w: HeaderWrite): Option<HeaderValue> {
    match w
    case SetHeader(_, v) => if v.Some? then Some(Text(v.value)) else None
    case SetDateHeader(_, ms) => Some(Date(ms))
  }

  /** The header table after one write. */
  function Apply(h: Headers, w: HeaderWrite): Headers {
    match Entry(w)
    case Some(v) => h[w.name := v]
    case None => h - {w.name}
  }

  /** One write replaces the entry it names and keeps every other entry. */
  lemma ApplyEffect(h: Headers, w: HeaderWrite)
    ensures Lookup(Apply(h, w), w.name) == Entry(w)
    ensures forall k :: k != w.name ==> Lookup(Apply(h, w), k) == Lookup(h, k)
  {
  }

  /** The header table after a sequence of writes, in order. */
  function ApplyAll(h: Headers, ws: seq<HeaderWrite>): Headers {
    if ws == [] then h else Apply(ApplyAll(h, ws[..|ws| - 1]), ws[|ws| - 1])
  }

  /** The entry the last write to `name` in `ws` leaves, or `None` when no write names it. */
  function LastEntry(ws: seq<HeaderWrite>, name: string): Option<Option<HeaderValue>> {
    if ws == [] then None
    else if ws[|ws| - 1].name == name then Some(Entry(ws[|ws| - 1]))
    else LastEntry(ws[..|ws| - 1], name)
  }

  /** The trace entries for a sequence of writes. */
  function Written(ws: seq<HeaderWrite>): seq<Event> {
    if ws == [] then [] else Written(ws[..|ws| - 1]) + [Wrote(ws[|ws| - 1])]
  }

  /** The writes that get through a wrapper whose `setHeader` discards names `drops` accepts; every other call passes. */
  function Forwarded(ws: seq<HeaderWrite>, drops: string -> bool): seq<HeaderWrite> {
    if ws == [] then []
    else
      var w := ws[|ws| - 1];
      Forwarded(ws[..|ws| - 1], drops) + (if w.SetHeader? && drops(w.name) then [] else [w])
  }

  lemma ApplyAllSnoc(h: Headers, ws: seq<HeaderWrite>, w: HeaderWrite)
    ensures ApplyAll(h, ws + [w]) == Apply(ApplyAll(h, ws), w)
  {
    assert (ws + [w])[..|ws|] == ws;
  }

  lemma ForwardedSnoc(ws: seq<HeaderWrite>, w: HeaderWrite, drops: string -> bool)
    ensures Forwarded(ws + [w], drops) == Forwarded(ws, drops) + (if w.SetHeader? && drops(w.name) then [] else [w])
  {
    assert (ws + [w])[..|ws|] == ws;
  }

  lemma WrittenSnoc(ws: seq<HeaderWrite>, w: HeaderWrite)
    ensures Written(ws + [w]) == Written(ws) + [Wrote(w)]
  {
    assert (ws + [w])[..|ws|] == ws;
  }

  /** Short write lists, unfolded: each write is applied to the table the previous one left, and traced in order. */
  lemma ShortWriteLists(h: Headers, a: HeaderWrite, b: HeaderWrite, c: HeaderWrite)
    ensures ApplyAll(h, [a, b]) == Apply(Apply(h, a), b)
    ensures ApplyAll(h, [a, b, c]) == Apply(Apply(Apply(h, a), b), c)
    ensures Written([a, b]) == [Wrote(a), Wrote(b)]
    ensures Written([a, b, c]) == [Wrote(a), Wrote(b), Wrote(c)]
  {
    assert [a, b][..1] == [a] && [a][..0] == [];
    assert ApplyAll(h, [a]) == Apply(h, a) && Written([a]) == [Wrote(a)];
    assert [a, b, c][..2] == [a, b];
  }

  /** One more write: the table and the trace grow by it. */
  lemma PrefixStep(h: Headers, ws: seq<HeaderWrite>, i: nat)
    requires i < |ws|
    ensures ApplyAll(h, ws[..i + 1]) == Apply(ApplyAll(h, ws[..i]), ws[i])
    ensures Written(ws[..i + 1]) == Written(ws[..i]) + [Wrote(ws[i])]
  {
    assert ws[..i + 1] == ws[..i] + [ws[i]];
    ApplyAllSnoc(h, ws[..i], ws[i]);
    WrittenSnoc(ws[..i], ws[i]);
  }

  /** One more downstream write through a wrapper: the table and the trace grow by it, unless the guard drops it. */
  lemma ForwardedStep(h: Headers, ws: seq<HeaderWrite>, i: nat, drops: string -> bool)
    requires i < |ws|
    ensures var before, w := Forwarded(ws[..i], drops), ws[i];
      && (w.SetHeader? && drops(w.name) ==> Forwarded(ws[..i + 1], drops) == before)
      && (!(w.SetHeader? && drops(w.name)) ==>
          && ApplyAll(h, Forwarded(ws[..i + 1], drops)) == Apply(ApplyAll(h, before), w)
          && Written(Forwarded(ws[..i + 1], drops)) == Written(before) + [Wrote(w)])
  {
    var w := ws[i];
    assert ws[..i + 1] == ws[..i] + [w];
    ForwardedSnoc(ws[..i], w, drops);
    ApplyAllSnoc(h, Forwarded(ws[..i], drops), w);
    WrittenSnoc(Forwarded(ws[..i], drops), w);
  }

  /** Last write wins: after a sequence of writes an entry holds what the last write to it left, or its old value if none wrote it. */
  lemma {:induction false} ApplyAllLastWriteWins(h: Headers, ws: seq<HeaderWrite>, name: string)
    ensures Lookup(ApplyAll(h, ws), name) ==
      match LastEntry(ws, name)
      case Some(e) => e
      case None => Lookup(h, name)
  {
    if ws != [] {
      ApplyAllLastWriteWins(h, ws[..|ws| - 1], name);
      ApplyEffect(ApplyAll(h, ws[..|ws| - 1]), ws[|ws| - 1]);
    }
  }

  /** Performing the same writes a second time changes nothing. */
  lemma ApplyAllIdempotent(h: Headers, ws: seq<HeaderWrite>)
    ensures ApplyAll(ApplyAll(h, ws), ws) == ApplyAll(h, ws)
  {
    var once := ApplyAll(h, ws);
    var twice := ApplyAll(once, ws);
    forall k
      ensures Lookup(twice, k) == Lookup(once, k)
    {
      ApplyAllLastWriteWins(h, ws, k);
      ApplyAllLastWriteWins(once, ws, k);
    }
    forall k
      ensures k in twice <==> k in once
    {
      assert Lookup(twice, k) == Lookup(once, k);
    }
    forall k | k in once
      ensures twice[k] == once[k]
    {
      assert Lookup(twice, k) == Lookup(once, k);
    }
  }

  /** A wrapper is transparent for an entry its guard does not drop: the entry ends as it would without the wrapper. */
  lemma {:induction false} ForwardedLastEntryKept(ws: seq<HeaderWrite>, drops: string -> bool, name: string)
    requires !drops(name)
    ensures LastEntry(Forwarded(ws, drops), name) == LastEntry(ws, name)
  {
    if ws != [] {
      var init := ws[..|ws| - 1];
      var w := ws[|ws| - 1];
      ForwardedLastEntryKept(init, drops, name);
      if w.SetHeader? && drops(w.name) {
        assert w.name != name;
        assert Forwarded(ws, drops) == Forwarded(init, drops);
        assert LastEntry(ws, name) == LastEntry(init, name);
      } else {
        assert (Forwarded(init, drops) + [w])[..|Forwarded(init, drops)|] == Forwarded(init, drops);
      }
    }
  }

  /** When a name the guard drops is written only through `setHeader`, no write to it gets through the wrapper; writes to other names do not matter. */
  lemma {:induction false} ForwardedLastEntryDropped(ws: seq<HeaderWrite>, drops: string -> bool, name: string)
    requires drops(name)
    requires forall i :: 0 <= i < |ws| && ws[i].name == name ==> ws[i].SetHeader?
    ensures LastEntry(Forwarded(ws, drops), name) == None
  {
    if ws != [] {
      var init := ws[..|ws| - 1];
      var w := ws[|ws| - 1];
      ForwardedLastEntryDropped(init, drops, name);
      if !(w.SetHeader? && drops(w.name)) {
        assert w.name != name;
        assert (Forwarded(init, drops) + [w])[..|Forwarded(init, drops)|] == Forwarded(init, drops);
      } else {
        assert Forwarded(ws, drops) == Forwarded(init, drops);
      }
    }
  }

  /** `HttpServletResponse`, reduced to its header table. */
  class Response {
    var headers: Headers
    var trace: seq<Event>

    constructor (initial: Headers)
      ensures headers == initial && trace == []
    {
      headers := initial;
      trace := [];
    }

    /** `containsHeader(name)`. */
    predicate ContainsHeader(name: string)
      reads this
    {
      name in headers
    }

    /** `setHeader(name, value)`; a null value clears the entry. */
    method SetHeader(name: string, value: Option<string>)
      modifies this
      ensures headers == Apply(old(headers), HeaderWrite.SetHeader(name, value))
      ensures trace == old(trace) + [Wrote(HeaderWrite.SetHeader(name, value))]
    {
      headers := Apply(headers, HeaderWrite.SetHeader(name, value));
      trace := trace + [Wrote(HeaderWrite.SetHeader(name, value))];
    }

    /** `setDateHeader(name, millis)`. */
    method SetDateHeader(name: string, millis: int)
      modifies this
      ensures headers == Apply(old(headers), HeaderWrite.SetDateHeader(name, millis))
      ensures trace == old(trace) + [Wrote(HeaderWrite.SetDateHeader(name, millis))]
    {
      headers := Apply(headers, HeaderWrite.SetDateHeader(name, millis));
      trace := trace + [Wrote(HeaderWrite.SetDateHeader(name, millis))];
    }

    /** Makes whichever call `w` describes. */
    method Perform(w: HeaderWrite)
      modifies this
      ensures headers == Apply(old(headers), w)
      ensures trace == old(trace) + [Wrote(w)]
    {
      match w
      case SetHeader(name, value) => SetHeader(name, value);
      case SetDateHeader(name, millis) => SetDateHeader(name, millis);
    }
  }

  /**
   * `HttpServletResponseWrapper` with `setHeader` overridden to discard writes to
   * the names `drops` accepts; every other call is delegated unchanged.
   */
  class GuardedResponse {
    const response: Response
    const drops: string -> bool

    constructor (response: Response, drops: string -> bool)
      ensures this.response == response && this.drops == drops
    {
      this.response := response;
      this.drops := drops;
    }

    /** The overridden `setHeader`: forwarded unless the guard drops the name. */
    method SetHeader(name: string, value: Option<string>)
      modifies response
      ensures drops(name) ==> unchanged(response)
      ensures !drops(name) ==>
        && response.headers == Apply(old(response.headers), HeaderWrite.SetHeader(name, value))
        && response.trace == old(response.trace) + [Wrote(HeaderWrite.SetHeader(name, value))]
    {
      if !drops(name) {
        response.SetHeader(name, value);
      }
    }

    /** The inherited `setDateHeader`: always delegated. */
    method SetDateHeader(name: string, millis: int)
      modifies response
      ensures response.headers == Apply(old(response.headers), HeaderWrite.SetDateHeader(name, millis))
      ensures response.trace == old(response.trace) + [Wrote(HeaderWrite.SetDateHeader(name, millis))]
    {
      response.SetDateHeader(name, millis);
    }

    /** Makes whichever call `w` describes through the wrapper. */
    method Perform(w: HeaderWrite)
      modifies response
      ensures w.SetHeader? && drops(w.name) ==> unchanged(response)
      ensures !(w.SetHeader? && drops(w.name)) ==>
        && response.headers == Apply(old(response.headers), w)
        && response.trace == old(response.trace) + [Wrote(w)]
    {
      match w
      case SetHeader(name, value) => SetHeader(name, value);
      case SetDateHeader(name, millis) => SetDateHeader(name, millis);
    }
  }

  /** `FilterChain`: the rest of the pipeline. */
  class FilterChain {
    /** The header writes the later stages make, in order, on the response they are handed. */
    const writes: seq<HeaderWrite>
    var invocations: nat

    constructor (writes: seq<HeaderWrite>)
      ensures this.writes == writes && invocations == 0
    {
      this.writes := writes;
      invocations := 0;
    }

    /** `doFilter(request, response)` with a plain response; with a null response there is nothing to write to. */
    method DoFilter(response: Response?)
      modifies this, response
      ensures invocations == old(invocations) + 1
      ensures response != null ==>
        && response.headers == ApplyAll(old(response.headers), writes)
        && response.trace == old(response.trace) + [Proceeded(false)] + Written(writes)
    {
      invocations := invocations + 1;
      if response != null {
        response.trace := response.trace + [Proceeded(false)];
        Deliver(response);
      }
    }

    /** The later stages make their writes on the response, in order. */
    method Deliver(response: Response)
      modifies response
      ensures response.headers == ApplyAll(old(response.headers), writes)
      ensures response.trace == old(response.trace) + Written(writes)
    {
      ghost var h0, t0 := response.headers, response.trace;
      for i := 0 to |writes|
        invariant response.headers == ApplyAll(h0, writes[..i])
        invariant response.trace == t0 + Written(writes[..i])
      {
        response.Perform(writes[i]);
        PrefixStep(h0, writes, i);
      }
      assert writes[..|writes|] == writes;
    }

    /** `doFilter(request, wrapper)`: the later stages write through the wrapper. */
    method DoFilterWrapped(wrapper: GuardedResponse)
      modifies this, wrapper.response
      ensures invocations == old(invocations) + 1
      ensures wrapper.response.headers == ApplyAll(old(wrapper.response.headers), Forwarded(writes, wrapper.drops))
      ensures wrapper.response.trace == old(wrapper.response.trace) + [Proceeded(true)] + Written(Forwarded(writes, wrapper.drops))
    {
      invocations := invocations + 1;
      wrapper.response.trace := wrapper.response.trace + [Proceeded(true)];
      DeliverThrough(wrapper);
    }

    /** The later stages make their writes through the wrapper, in order; only those it forwards reach the response. */
    method DeliverThrough(wrapper: GuardedResponse)
      modifies wrapper.response
      ensures wrapper.response.headers == ApplyAll(old(wrapper.response.headers), Forwarded(writes, wrapper.drops))
      ensures wrapper.response.trace == old(wrapper.response.trace) + Written(Forwarded(writes, wrapper.drops))
    {
      var response := wrapper.response;
      var drops := wrapper.drops;
      ghost var h0, t0 := response.headers, response.trace;
      for i := 0 to |writes|
        invariant response.headers == ApplyAll(h0, Forwarded(writes[..i], drops))
        invariant response.trace == t0 + Written(Forwarded(writes[..i], drops))
      {
        wrapper.Perform(writes[i]);
        ForwardedStep(h0, writes, i, drops);
      }
      assert writes[..|writes|] == writes;
    }
  }
}
