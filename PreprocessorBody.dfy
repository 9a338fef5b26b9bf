/** GetConditionalPreprocessorBodyExpression: the body of a conditional
    directive is cut from the directive's text, trimmed, lexed on its own and
    parsed as one expression. */
module PreprocessorBody {

  import opened Wrappers
  import opened Text
  import opened PreprocessorSymbols
  import opened PreprocessorSpec
  import opened PreprocessorParser

  /** The text the body is parsed from and its offset in the directive. */
  datatype Body = Body(text: string, start: nat)

  /** The lexer run over the body (CodeLexer.GetSymbols): the body text, the
      index and column of its first character, and the line it is on. The
      lexer is not part of this model, so it is a parameter. */
  type Lexer = (string, int, int, int) -> seq<Symbol>

  /** Lines 61-108 without the lexer and the parser: the text from
      startIndex on, with trailing and then leading whitespace removed, and
      the start offset moved past the leading whitespace. None when nothing
      but whitespace is left. */
  function DirectiveBody(text: string, startIndex: int): (r: Result<Option<Body>, ParseError>)
    ensures r.Err? <==> startIndex < 0 || startIndex > |text|
    ensures r.Err? ==> r.error == OutOfRange
  {
    if startIndex < 0 || startIndex > |text| then Err(OutOfRange)
    else
      var trimmed := TrimEnd(text[startIndex..]);
      if |trimmed| > 0 then
        var n := LeadingWhiteSpace(trimmed);
        var body := trimmed[n..];
        if |body| > 0 then Ok(Some(Body(body, startIndex + n))) else Ok(None)
      else Ok(None)
  }

  /** A body with nothing but whitespace from startIndex on has no
      expression, and any other body has one. */
  lemma {:induction false} EmptyBody(text: string, startIndex: int)
    requires 0 <= startIndex <= |text|
    ensures DirectiveBody(text, startIndex) == Ok(None) <==> AllWhiteSpace(text[startIndex..])
  {
    var tail := text[startIndex..];
    var trimmed := TrimEnd(tail);
    assert tail == trimmed + tail[|trimmed|..];
    if |trimmed| > 0 {
      assert !IsWhiteSpace(tail[|trimmed| - 1]);
      assert LeadingWhiteSpace(trimmed) < |trimmed|;
    }
  }

  /** The body found is the stretch of the directive from its start offset
      on, and everything around it after startIndex is whitespace: the
      offset grows by exactly the number of leading whitespace characters
      removed. */
  lemma {:induction false} BodyPlacement(text: string, startIndex: int)
    requires DirectiveBody(text, startIndex).Ok? && DirectiveBody(text, startIndex).value.Some?
    ensures var b := DirectiveBody(text, startIndex).value.value;
      && 0 <= startIndex <= b.start && b.start + |b.text| <= |text|
      && text[b.start..b.start + |b.text|] == b.text
      && AllWhiteSpace(text[startIndex..b.start])
      && AllWhiteSpace(text[b.start + |b.text|..])
  {
    var tail := text[startIndex..];
    var trimmed := TrimEnd(tail);
    var n := LeadingWhiteSpace(trimmed);
    assert text[startIndex..startIndex + n] == trimmed[..n];
    assert text[startIndex + n..startIndex + |trimmed|] == trimmed[n..];
    assert text[startIndex + |trimmed|..] == tail[|trimmed|..];
  }

  /** The body starts and ends with a character that is not whitespace. */
  lemma {:induction false} BodyTrimmed(text: string, startIndex: int)
    requires DirectiveBody(text, startIndex).Ok? && DirectiveBody(text, startIndex).value.Some?
    ensures var b := DirectiveBody(text, startIndex).value.value;
      |b.text| > 0 && !IsWhiteSpace(b.text[0]) && !IsWhiteSpace(b.text[|b.text| - 1])
  {
    var trimmed := TrimEnd(text[startIndex..]);
    var n := LeadingWhiteSpace(trimmed);
    assert trimmed[n..][|trimmed| - n - 1] == trimmed[|trimmed| - 1];
  }

  /** GetConditionalPreprocessorBodyExpression: the trim counter of lines
      65-76 is the loop; the body, if any, is lexed from its own offset and
      parsed by a new parser reading from its first symbol. */
  method GetBodyExpression(text: string, startIndex: int, index: int, indexOnLine: int, lineNumber: int,
                          lex: Lexer, check: Check, parentProxy: Proxy)
      returns (r: Result<Option<Node>, ParseError>)
    modifies parentProxy
    ensures match DirectiveBody(text, startIndex)
      case Err(e) => r == Err(e) && parentProxy.children == old(parentProxy.children)
      case Ok(None) => r == Ok(None) && parentProxy.children == old(parentProxy.children)
      case Ok(Some(b)) =>
        Delivers(r, NextExpression(lex(b.text, index + b.start, indexOnLine + b.start, lineNumber), check, 0, NoPrecedence),
                 old(parentProxy.children), parentProxy.children)
  {
    if startIndex < 0 || startIndex > |text| {
      return Err(OutOfRange);
    }
    var body := TrimEnd(text[startIndex..]);
    var start := startIndex;
    if |body| > 0 {
      var trimIndex := 0;
      for i := 0 to |body|
        invariant trimIndex == i
        invariant AllWhiteSpace(body[..i])
      {
        if IsWhiteSpace(body[i]) {
          trimIndex := trimIndex + 1;
        } else {
          break;
        }
      }
      assert trimIndex == LeadingWhiteSpace(body) by {
        LeadingWhiteSpaceIs(body, trimIndex);
      }
      if trimIndex > 0 {
        body := body[trimIndex..];
        start := start + trimIndex;
      }
      if |body| > 0 {
        var symbols := lex(body, index + start, indexOnLine + start, lineNumber);
        var parser := new Parser(symbols, check);
        r := parser.GetExpression(parentProxy);
        return;
      }
    }
    return Ok(None);
  }

  /** LeadingWhiteSpace is the length of the whitespace run at the start. */
  lemma {:induction false} LeadingWhiteSpaceIs(s: string, n: nat)
    requires n <= |s| && AllWhiteSpace(s[..n]) && (n < |s| ==> !IsWhiteSpace(s[n]))
    ensures LeadingWhiteSpace(s) == n
    decreases n
  {
    if n > 0 {
      assert IsWhiteSpace(s[..n][0]);
      assert s[1..][..n - 1] == s[..n][1..];
      if n - 1 < |s[1..]| {
        assert s[1..][n - 1] == s[n];
      }
      LeadingWhiteSpaceIs(s[1..], n - 1);
    } else if |s| > 0 {
      assert !IsWhiteSpace(s[0]);
    }
  }
}
