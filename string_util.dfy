/** `StringUtil.join`: a delimiter join written for Java 6, which has no `String.join`. */
module StringUtil {

  /** Each element preceded by the delimiter, concatenated in order. */
  function Delimited(delimiter: string, elements: seq<string>): string {
    if elements == [] then "" else delimiter + elements[0] + Delimited(delimiter, elements[1..])
  }

  /** The elements in order with the delimiter between each pair of neighbours: e0 + d + e1 + ... + d + e(n-1). */
  function Joined(delimiter: string, elements: seq<string>): string {
    if elements == [] then "" else elements[0] + Delimited(delimiter, elements[1..])
  }

  /** The total length of the elements. */
  function TotalLength(elements: seq<string>): nat {
    if elements == [] then 0 else |elements[0]| + TotalLength(elements[1..])
  }

  lemma {:induction false} DelimitedSnoc(delimiter: string, elements: seq<string>, last: string)
    ensures Delimited(delimiter, elements + [last]) == Delimited(delimiter, elements) + delimiter + last
  {
    if elements == [] {
      assert Delimited(delimiter, [last]) == delimiter + last + Delimited(delimiter, []);
    } else {
      assert (elements + [last])[1..] == elements[1..] + [last];
      DelimitedSnoc(delimiter, elements[1..], last);
    }
  }

  /** Appending one element to a non-empty list appends the delimiter and then that element: the invariant of the loop around `first`. */
  lemma JoinedSnoc(delimiter: string, elements: seq<string>, last: string)
    requires elements != []
    ensures Joined(delimiter, elements + [last]) == Joined(delimiter, elements) + delimiter + last
  {
    var longer := elements + [last];
    assert longer[0] == elements[0] && longer[1..] == elements[1..] + [last];
    assert Joined(delimiter, longer) == elements[0] + Delimited(delimiter, elements[1..] + [last]);
    DelimitedSnoc(delimiter, elements[1..], last);
  }

  /** No elements give the empty string; one element is returned as it is, with no delimiter. */
  lemma JoinedShortLists(delimiter: string, element: string)
    ensures Joined(delimiter, []) == ""
    ensures Joined(delimiter, [element]) == element
  {
  }

  /** Two and three elements, written out. */
  lemma JoinedPairAndTriple(delimiter: string, a: string, b: string, c: string)
    ensures Joined(delimiter, [a, b]) == a + delimiter + b
    ensures Joined(delimiter, [a, b, c]) == a + delimiter + b + delimiter + c
  {
    JoinedSnoc(delimiter, [a], b);
    assert [a] + [b] == [a, b];
    JoinedSnoc(delimiter, [a, b], c);
    assert [a, b] + [c] == [a, b, c];
  }

  lemma {:induction false} DelimitedLength(delimiter: string, elements: seq<string>)
    ensures |Delimited(delimiter, elements)| == TotalLength(elements) + |elements| * |delimiter|
  {
    if elements != [] {
      DelimitedLength(delimiter, elements[1..]);
    }
  }

  /** For n >= 1 elements the result holds every element's characters and exactly n - 1 copies of the delimiter. */
  lemma JoinedLength(delimiter: string, elements: seq<string>)
    requires elements != []
    ensures |Joined(delimiter, elements)| == TotalLength(elements) + (|elements| - 1) * |delimiter|
  {
    DelimitedLength(delimiter, elements[1..]);
  }

  /** `join(delimiter, elements...)`: append the delimiter before every element but the first. */
  method Join(delimiter: string, elements: seq<string>) returns (s: string)
    ensures s == Joined(delimiter, elements)
  {
    var first := true;
    s := "";
    for i := 0 to |elements|
      invariant first <==> i == 0
      invariant s == Joined(delimiter, elements[..i])
    {
      if !first {
        s := s + delimiter;
      }
      s := s + elements[i];
      first := false;
      assert elements[..i + 1] == elements[..i] + [elements[i]];
      if i > 0 {
        JoinedSnoc(delimiter, elements[..i], elements[i]);
      }
    }
    assert elements[..|elements|] == elements;
  }
}
