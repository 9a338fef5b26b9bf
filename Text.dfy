/** Character-level helpers shared by both components: the whitespace test,
    the whitespace filter applied to fully qualified names and the trimming
    applied to a directive body. */
module Text {

  /** A fixed approximation of char.IsWhiteSpace: the ASCII whitespace
      characters and the no-break space. */
  predicate IsWhiteSpace(c: char) {
    c == ' ' || c == '\t' || c == '\n' || c == '\r' || c == '\U{000B}' || c == '\U{000C}' || c == '\U{00A0}'
  }

  predicate AllWhiteSpace(s: string) {
    forall i :: 0 <= i < |s| ==> IsWhiteSpace(s[i])
  }

  predicate NoWhiteSpace(s: string) {
    forall i :: 0 <= i < |s| ==> !IsWhiteSpace(s[i])
  }

  /** The whitespace filter that the fully qualified name goes through: every
      whitespace character is dropped, every other one kept in order. */
  function RemoveWhitespace(s: string): (r: string)
    ensures NoWhiteSpace(r)
    ensures |r| <= |s|
    ensures NoWhiteSpace(s) ==> r == s
  {
    if s == [] then []
    else if IsWhiteSpace(s[0]) then RemoveWhitespace(s[1..])
    else [s[0]] + RemoveWhitespace(s[1..])
  }

  lemma {:induction false} RemoveWhitespaceAppend(a: string, b: string)
    ensures RemoveWhitespace(a + b) == RemoveWhitespace(a) + RemoveWhitespace(b)
  {
    if a == [] {
      assert a + b == b;
    } else {
      assert (a + b)[0] == a[0];
      assert (a + b)[1..] == a[1..] + b;
      RemoveWhitespaceAppend(a[1..], b);
    }
  }

  /** TrimEnd(null): drops the trailing whitespace. */
  function TrimEnd(s: string): (r: string)
    ensures |r| <= |s| && r == s[..|r|]
    ensures AllWhiteSpace(s[|r|..])
    ensures r == [] || !IsWhiteSpace(r[|r| - 1])
  {
    if s == [] then []
    else if IsWhiteSpace(s[|s| - 1]) then TrimEnd(s[..|s| - 1])
    else s
  }

  /** The number of leading whitespace characters. */
  function LeadingWhiteSpace(s: string): (n: nat)
    ensures n <= |s|
    ensures AllWhiteSpace(s[..n])
    ensures n < |s| ==> !IsWhiteSpace(s[n])
  {
    if s == [] || !IsWhiteSpace(s[0]) then 0
    else 1 + LeadingWhiteSpace(s[1..])
  }
}
