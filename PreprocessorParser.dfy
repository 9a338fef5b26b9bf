/** The parser of CodeParser.Preprocessor.cs as the source writes it: a
    cursor over the symbols of a directive body that the builders advance,
    and proxies whose child lists they append to. Every builder is proved to
    do what its function in PreprocessorSpec describes. */
module PreprocessorParser {

  import opened Wrappers
  import opened PreprocessorSymbols
  import opened PreprocessorSpec

  /** CodeUnitProxy: the list of children a builder collects. */
  class Proxy {
    var children: seq<Node>

    constructor()
      ensures children == []
    {
      children := [];
    }

    /** Children.Add. */
    method Add(n: Node)
      modifies this
      ensures children == old(children) + [n]
    {
      children := children + [n];
    }
  }

  /** What a builder should leave, as the specification function says: the
      exception, or the expression, the cursor and the proxy's children
      (before, grown by the units the function lists). */
  function Predicted(spec: Result<Parsed, ParseError>, before: seq<Node>): (r: Result<Parsed, ParseError>)
    ensures r.Err? <==> spec.Err?
    ensures r.Err? ==> r.error == spec.error
    ensures r.Ok? ==> r.value == Parsed(spec.value.expr, spec.value.pos, before + spec.value.added)
  {
    match spec
    case Err(e) => Err(e)
    case Ok(p) => Ok(Parsed(p.expr, p.pos, before + p.added))
  }

  /** What a builder did leave, in the same shape: the exception, or the
      expression it returned, the cursor and the proxy's children. */
  function Observed(r: Result<Option<Node>, ParseError>, after: seq<Node>, pos: nat): (o: Result<Parsed, ParseError>)
    ensures o.Err? <==> r.Err?
    ensures o.Err? ==> o.error == r.error
    ensures o.Ok? ==> o.value == Parsed(r.value, pos, after)
  {
    match r
    case Err(e) => Err(e)
    case Ok(x) => Ok(Parsed(x, pos, after))
  }

  /** Follows without the cursor, for a caller that does not see it. */
  predicate Delivers(r: Result<Option<Node>, ParseError>, spec: Result<Parsed, ParseError>, before: seq<Node>, after: seq<Node>) {
    match spec
    case Err(e) => r == Err(e)
    case Ok(p) => r == Ok(p.expr) && after == before + p.added
  }

  /** The builder leaves what the function predicts: the same exception, or
      the same expression, the cursor where the function puts it, and the
      proxy grown by exactly the units the function lists. */
  predicate Follows(r: Result<Option<Node>, ParseError>, spec: Result<Parsed, ParseError>, before: seq<Node>, after: seq<Node>, pos: nat) {
    Observed(r, after, pos) == Predicted(spec, before)
  }

  /** Follows, for the builders of primary expressions, which never return
      null. */
  predicate Builds(r: Result<Node, ParseError>, spec: Result<Parsed, ParseError>, before: seq<Node>, after: seq<Node>, pos: nat) {
    Observed(if r.Ok? then Ok(Some(r.value)) else Err(r.error), after, pos) == Predicted(spec, before)
  }

  /** Appending to a proxy that already grew by b. */
  lemma Joined(a: seq<Node>, b: seq<Node>, c: seq<Node>)
    ensures (a + b) + c == a + (b + c)
  {
  }

  lemma Appended(a: seq<Node>, b: seq<Node>, n: Node)
    ensures (a + b) + [n] == a + (b + [n])
  {
  }

  /** Lines 208-216: every child of from is moved, in order, to the end of
      to, and from is left empty. */
  method MoveChildren(from: Proxy, to: Proxy)
    requires from != to
    modifies from, to
    ensures to.children == old(to.children) + old(from.children)
    ensures from.children == []
  {
    while from.children != []
      invariant to.children + from.children == old(to.children) + old(from.children)
      decreases |from.children|
    {
      var unit := from.children[0];
      assert from.children == [unit] + from.children[1..];
      from.children := from.children[1..];
      to.Add(unit);
    }
  }

  /** A CodeParser reading the symbols of one directive body. */
  class Parser {
    const symbols: seq<Symbol>
    const check: Check
    var pos: nat

    constructor(symbols: seq<Symbol>, check: Check)
      ensures this.symbols == symbols && this.check == check && pos == 0
    {
      this.symbols := symbols;
      this.check := check;
      pos := 0;
    }

    /** AdvanceToNextConditionalDirectiveCodeSymbol: every trivia symbol at
        the cursor is turned into a node of its kind, appended to the proxy,
        and passed. */
    method AdvancePastTrivia(proxy: Proxy)
      requires pos <= |symbols|
      modifies this, proxy
      ensures pos == SkipTrivia(symbols, old(pos))
      ensures proxy.children == old(proxy.children) + Lead(symbols, old(pos))
    {
      ghost var start := pos;
      while pos < |symbols|
        invariant start <= pos <= |symbols|
        invariant forall i :: start <= i < pos ==> IsTrivia(symbols[i].kind)
        invariant SkipTrivia(symbols, pos) == SkipTrivia(symbols, start)
        invariant proxy.children == old(proxy.children) + TriviaNodes(symbols, start, pos)
        decreases |symbols| - pos
      {
        var symbol := symbols[pos];
        var unit: Node;
        if symbol.kind == WhiteSpace {
          unit := Trivia(Whitespace, symbol.text, symbol.line);
        } else if symbol.kind == EndOfLine {
          unit := Trivia(EndOfLineTrivia, symbol.text, symbol.line);
        } else if symbol.kind == SingleLineComment {
          unit := Trivia(SingleLineCommentTrivia, symbol.text, symbol.line);
        } else if symbol.kind == MultiLineComment {
          unit := Trivia(MultilineCommentTrivia, symbol.text, symbol.line);
        } else if symbol.kind == SkippedSection {
          unit := Trivia(SkippedSectionTrivia, symbol.text, symbol.line);
        } else {
          break;
        }
        assert unit == TriviaNode(symbol);
        Appended(old(proxy.children), TriviaNodes(symbols, start, pos), unit);
        proxy.Add(unit);
        pos := pos + 1;
      }
    }

    /** The internal GetNextConditionalPreprocessorExpression (lines
        119-126): an expression read with no precedence before it. */
    method GetExpression(parentProxy: Proxy) returns (r: Result<Option<Node>, ParseError>)
      requires pos <= |symbols|
      modifies this, parentProxy
      ensures Follows(r, NextExpression(symbols, check, old(pos), NoPrecedence), old(parentProxy.children), parentProxy.children, pos)
    {
      r := GetNextExpression(parentProxy, NoPrecedence);
    }

    /** GetNextConditionalPreprocessorExpression: trivia into the parent,
        then, unless the input is exhausted, the extended primary. */
    method GetNextExpression(parentProxy: Proxy, previous: Precedence) returns (r: Result<Option<Node>, ParseError>)
      requires pos <= |symbols|
      modifies this, parentProxy
      ensures Follows(r, NextExpression(symbols, check, old(pos), previous), old(parentProxy.children), parentProxy.children, pos)
      decreases |symbols| - pos, 4
    {
      AdvancePastTrivia(parentProxy);
      var expressionExtensionProxy := new Proxy();
      if pos == |symbols| {
        return Ok(None);
      }
      ghost var rest := ExtendedPrimary(symbols, check, pos, previous);
      var expression :- ReadExtendedPrimary(parentProxy, expressionExtensionProxy, previous);
      Joined(old(parentProxy.children), Lead(symbols, old(pos)), rest.value.added);
      return Ok(Some(expression));
    }

    /** Lines 153-216 of GetNextConditionalPreprocessorExpression: the
        primary read into the empty extension proxy, the extension loop, and
        the children of the last extension proxy moved to the parent. */
    method ReadExtendedPrimary(parentProxy: Proxy, expressionExtensionProxy: Proxy, previous: Precedence) returns (r: Result<Node, ParseError>)
      requires pos < |symbols| && parentProxy != expressionExtensionProxy && expressionExtensionProxy.children == []
      modifies this, parentProxy, expressionExtensionProxy
      ensures Builds(r, ExtendedPrimary(symbols, check, old(pos), previous), old(parentProxy.children), parentProxy.children, pos)
      decreases |symbols| - pos, 3
    {
      var expression :- GetPrimaryExpression(expressionExtensionProxy);
      assert expressionExtensionProxy.children == PrimaryExpression(symbols, check, old(pos)).value.added;
      var extended := ExtendPrimary(parentProxy, expressionExtensionProxy, expression, previous);
      if extended.Err? {
        return Err(extended.error);
      }
      return Ok(expression);
    }

    /** Lines 186-216: the extension loop, then the children of the last
        extension proxy moved to the parent. */
    method ExtendPrimary(parentProxy: Proxy, expressionExtensionProxy: Proxy, expression: Node, previous: Precedence) returns (r: Result<(), ParseError>)
      requires pos <= |symbols| && parentProxy != expressionExtensionProxy
      modifies this, parentProxy, expressionExtensionProxy
      ensures match Extensions(symbols, check, old(pos), expression, previous, old(expressionExtensionProxy.children))
        case Err(e) => r == Err(e)
        case Ok(p) => r.Ok? && parentProxy.children == old(parentProxy.children) + p.added && pos == p.pos
      decreases |symbols| - pos, 3
    {
      var last :- GatherExtensions(expressionExtensionProxy, expression, previous);
      MoveChildren(last, parentProxy);
      return Ok(());
    }

    /** The extension loop of GetNextConditionalPreprocessorExpression
        (lines 186-204): each extension is attempted with the primary
        expression as its left side, and each success replaces the extension
        proxy by a fresh one holding that expression. The result is the last
        extension proxy. */
    method GatherExtensions(proxy: Proxy, expression: Node, previous: Precedence) returns (r: Result<Proxy, ParseError>)
      requires pos <= |symbols|
      modifies this, proxy
      ensures var spec := Extensions(symbols, check, old(pos), expression, previous, old(proxy.children));
        match spec
        case Err(e) => r == Err(e)
        case Ok(p) => r.Ok? && (r.value == proxy || fresh(r.value)) && r.value.children == p.added && pos == p.pos
      decreases |symbols| - pos, 2
    {
      var expressionExtensionProxy := proxy;
      ghost var whole := Extensions(symbols, check, pos, expression, previous, proxy.children);
      while true
        invariant pos <= |symbols| && old(pos) <= pos
        invariant expressionExtensionProxy == proxy || fresh(expressionExtensionProxy)
        invariant Extensions(symbols, check, pos, expression, previous, expressionExtensionProxy.children) == whole
        decreases |symbols| - pos
      {
        var extension :- GetExpressionExtension(expressionExtensionProxy, expression, previous);
        if extension.Some? {
          expressionExtensionProxy := new Proxy();
          expressionExtensionProxy.Add(expression);
          assert expressionExtensionProxy.children == [expression];
        } else {
          assert whole == Ok(Parsed(Some(expression), pos, expressionExtensionProxy.children));
          break;
        }
      }
      return Ok(expressionExtensionProxy);
    }

    /** The switch on the next symbol's type in
        GetNextConditionalPreprocessorExpression. */
    method GetPrimaryExpression(parentProxy: Proxy) returns (r: Result<Node, ParseError>)
      requires pos < |symbols|
      modifies this, parentProxy
      ensures Builds(r, PrimaryExpression(symbols, check, old(pos)), old(parentProxy.children), parentProxy.children, pos)
      decreases |symbols| - pos, 2
    {
      var symbol := symbols[pos];
      match symbol.kind {
        case Other =>
          var e := GetConstantExpression(parentProxy);
          return Ok(e);
        case NotSymbol =>
          r := GetNotExpression(parentProxy);
        case OpenParenthesis =>
          r := GetParenthesizedExpression(parentProxy);
        case FalseSymbol =>
          var e := CreateLiteralExpression(parentProxy, false);
          return Ok(e);
        case TrueSymbol =>
          var e := CreateLiteralExpression(parentProxy, true);
          return Ok(e);
        case _ =>
          return Err(SyntaxError(symbol.line));
      }
    }

    /** CreateLiteralExpression for the symbols `true` and `false`. The
        source first calls AdvanceToNextCodeSymbol and GetToken, which are not
        part of this model; at this point the symbol at the cursor is the
        keyword, which the first leaves in place and the second turns into a
        token and passes. */
    method CreateLiteralExpression(parentProxy: Proxy, value: bool) returns (e: Node)
      requires pos < |symbols|
      modifies this, parentProxy
      ensures Builds(Ok(e), Ok(LiteralExpression(symbols, old(pos), value)), old(parentProxy.children), parentProxy.children, pos)
    {
      var expressionProxy := new Proxy();
      var symbol := symbols[pos];
      pos := pos + 1;
      var token := Token(if value then TrueToken else FalseToken, symbol.text, symbol.line, None);
      expressionProxy.Add(token);
      assert expressionProxy.children == [token];
      e := Expression(LiteralExpr, [token], expressionProxy.children);
      parentProxy.Add(e);
    }

    /** GetConditionalPreprocessorConstantExpression. */
    method GetConstantExpression(parentProxy: Proxy) returns (e: Node)
      requires pos <= |symbols| && SkipTrivia(symbols, pos) < |symbols| && symbols[SkipTrivia(symbols, pos)].kind.Other?
      modifies this, parentProxy
      ensures Builds(Ok(e), Ok(ConstantExpression(symbols, old(pos))), old(parentProxy.children), parentProxy.children, pos)
    {
      AdvancePastTrivia(parentProxy);
      var expressionProxy := new Proxy();
      var symbol := symbols[pos];
      pos := pos + 1;
      var literalToken := Token(LiteralToken, symbol.text, symbol.line, None);
      expressionProxy.Add(literalToken);
      assert expressionProxy.children == [literalToken];
      e := Expression(LiteralExpr, [literalToken], expressionProxy.children);
      Appended(old(parentProxy.children), Lead(symbols, old(pos)), e);
      parentProxy.Add(e);
    }

    /** GetConditionalPreprocessorNotExpression. */
    method GetNotExpression(parentProxy: Proxy) returns (r: Result<Node, ParseError>)
      requires pos <= |symbols| && SkipTrivia(symbols, pos) < |symbols|
      modifies this, parentProxy
      ensures Builds(r, NotExpression(symbols, check, old(pos)), old(parentProxy.children), parentProxy.children, pos)
      decreases |symbols| - pos, 1
    {
      AdvancePastTrivia(parentProxy);
      var expressionProxy := new Proxy();
      var symbol := symbols[pos];
      var token := Token(NotOperator, symbol.text, symbol.line, None);
      expressionProxy.Add(token);
      assert expressionProxy.children == [token];
      pos := pos + 1;
      var expression :- GetNextExpression(expressionProxy, Unary);
      if expression.None? || expression.value.children == [] {
        return Err(SyntaxError(symbol.line));
      }
      var unaryExpression := Expression(NotExpr, [expression.value], expressionProxy.children);
      Appended(old(parentProxy.children), Lead(symbols, old(pos)), unaryExpression);
      parentProxy.Add(unaryExpression);
      return Ok(unaryExpression);
    }

    /** GetConditionalPreprocessorParenthesizedExpression. */
    method GetParenthesizedExpression(parentProxy: Proxy) returns (r: Result<Node, ParseError>)
      requires pos <= |symbols|
      modifies this, parentProxy
      ensures Builds(r, ParenthesizedExpression(symbols, check, old(pos)), old(parentProxy.children), parentProxy.children, pos)
      decreases |symbols| - pos, 1
    {
      ghost var spec := ParenthesizedExpression(symbols, check, pos);
      AdvancePastTrivia(parentProxy);
      var expressionProxy := new Proxy();
      if pos == |symbols| {
        assert spec == Err(NullSymbol);
        return Err(NullSymbol);
      }
      var firstSymbol := symbols[pos];
      if !firstSymbol.kind.OpenParenthesis? {
        assert spec == Err(SyntaxError(firstSymbol.line));
        return Err(SyntaxError(firstSymbol.line));
      }
      ghost var q := pos;
      pos := pos + 1;
      expressionProxy.Add(Token(OpenParenthesisToken, firstSymbol.text, firstSymbol.line, None));
      assert expressionProxy.children == [Token(OpenParenthesisToken, firstSymbol.text, firstSymbol.line, None)];
      ghost var inner := NextExpression(symbols, check, pos, NoPrecedence);
      var expression :- GetNextExpression(expressionProxy, NoPrecedence);
      r := CloseParenthesizedExpression(parentProxy, expressionProxy, firstSymbol, expression, old(parentProxy.children), old(pos), q, inner.value);
    }

    /** Lines 426-449 of GetConditionalPreprocessorParenthesizedExpression,
        once the inner expression has been read: trivia, the `)` token, and
        the two brackets paired. */
    method CloseParenthesizedExpression(parentProxy: Proxy, expressionProxy: Proxy, firstSymbol: Symbol, expression: Option<Node>,
                                        ghost before: seq<Node>, ghost start: nat, ghost q: nat, ghost inner: Parsed)
        returns (r: Result<Node, ParseError>)
      requires start <= q < inner.pos <= |symbols| && symbols[q] == firstSymbol
      requires pos == inner.pos && expression == inner.expr && parentProxy != expressionProxy
      requires parentProxy.children == before + Lead(symbols, start)
      requires expressionProxy.children == [Token(OpenParenthesisToken, firstSymbol.text, firstSymbol.line, None)] + inner.added
      modifies this, parentProxy, expressionProxy
      ensures Builds(r, CloseParenthesized(symbols, start, q, inner), before, parentProxy.children, pos)
    {
      if expression.None? {
        return Err(SyntaxError(firstSymbol.line));
      }
      ghost var open := [expressionProxy.children[0]];
      AdvancePastTrivia(expressionProxy);
      ghost var middle := inner.added + Lead(symbols, inner.pos);
      assert expressionProxy.children == open + middle;
      if pos == |symbols| || !symbols[pos].kind.CloseParenthesis? {
        return Err(SyntaxError(firstSymbol.line));
      }
      var symbol := symbols[pos];
      pos := pos + 1;
      expressionProxy.Add(Token(CloseParenthesisToken, symbol.text, symbol.line, None));
      // The brackets point at each other.
      var last := |expressionProxy.children| - 1;
      expressionProxy.children := expressionProxy.children[0 := expressionProxy.children[0].(matchingBracket := Some(last))];
      expressionProxy.children := expressionProxy.children[last := expressionProxy.children[last].(matchingBracket := Some(0))];
      assert expressionProxy.children == Bracketed(firstSymbol, middle, symbol);
      var parenthesizedExpression := Expression(ParenthesizedExpr, [expression.value], expressionProxy.children);
      Appended(before, Lead(symbols, start), parenthesizedExpression);
      parentProxy.Add(parenthesizedExpression);
      return Ok(parenthesizedExpression);
    }

    /** GetConditionalPreprocessorExpressionExtension. */
    method GetExpressionExtension(parentProxy: Proxy, leftSide: Node, previous: Precedence) returns (r: Result<Option<Node>, ParseError>)
      requires pos <= |symbols|
      modifies this, parentProxy
      ensures Follows(r, ExpressionExtension(symbols, check, old(pos), leftSide, previous), old(parentProxy.children), parentProxy.children, pos)
      decreases |symbols| - pos, 1
    {
      AdvancePastTrivia(parentProxy);
      if pos < |symbols| && !symbols[pos].kind.CloseParenthesis? && symbols[pos].kind.OperatorSymbol? && IsConditionalOperator(symbols[pos].kind.op) {
        // The switch on the operator type picks the builder.
        var family := FamilyOf(symbols[pos].kind.op);
        ghost var built := BinaryExpression(symbols, check, pos, leftSide, previous, family);
        r := GetBinaryExpression(parentProxy, leftSide, previous, family);
        if built.Ok? {
          Joined(old(parentProxy.children), Lead(symbols, old(pos)), built.value.added);
        }
      } else {
        r := Ok(None);
      }
    }

    /** GetConditionalPreprocessorEqualityExpression (EqualityFamily) and
        GetConditionalPreprocessorAndOrExpression (AndOrFamily), which differ
        only in the operators their switch accepts. */
    method GetBinaryExpression(parentProxy: Proxy, leftHandSide: Node, previous: Precedence, family: Family) returns (r: Result<Option<Node>, ParseError>)
      requires pos <= |symbols| && AtConditionalOperator(symbols, pos)
      modifies this, parentProxy
      ensures Follows(r, BinaryExpression(symbols, check, old(pos), leftHandSide, previous, family), old(parentProxy.children), parentProxy.children, pos)
      decreases |symbols| - pos, 0
    {
      AdvancePastTrivia(parentProxy);
      var expressionProxy := new Proxy();
      var symbol := symbols[pos];
      var op := symbol.kind.op;
      var operatorToken := Token(OperatorSymbolToken(op), symbol.text, symbol.line, None);
      var precedence := OperatorPrecedence(op);
      if !check(previous, precedence) {
        return Ok(None);
      }
      ghost var q := pos;
      pos := pos + 1;
      expressionProxy.Add(operatorToken);
      assert expressionProxy.children == [operatorToken];
      ghost var right := NextExpression(symbols, check, pos, precedence);
      var rightHandSide :- GetNextExpression(expressionProxy, precedence);
      r := CompleteBinaryExpression(parentProxy, expressionProxy, symbol, leftHandSide, rightHandSide, family,
                                    old(parentProxy.children), old(pos), q, right.value);
    }

    /** Lines 490-510 of GetConditionalPreprocessorEqualityExpression and
        548-568 of GetConditionalPreprocessorAndOrExpression, once the
        right-hand side has been read: the null check, the switch on the
        operator, and the new expression added to the parent. */
    method CompleteBinaryExpression(parentProxy: Proxy, expressionProxy: Proxy, symbol: Symbol, leftHandSide: Node,
                                    rightHandSide: Option<Node>, family: Family,
                                    ghost before: seq<Node>, ghost start: nat, ghost q: nat, ghost right: Parsed)
        returns (r: Result<Option<Node>, ParseError>)
      requires start <= q < right.pos <= |symbols| && symbols[q] == symbol && symbol.kind.OperatorSymbol?
      requires pos == right.pos && rightHandSide == right.expr && parentProxy != expressionProxy
      requires parentProxy.children == before + Lead(symbols, start)
      requires expressionProxy.children == [Token(OperatorSymbolToken(symbol.kind.op), symbol.text, symbol.line, None)] + right.added
      modifies parentProxy
      ensures Follows(r, CompleteBinary(symbols, start, q, leftHandSide, family, right), before, parentProxy.children, pos)
    {
      if rightHandSide.None? {
        return Err(SyntaxError(symbol.line));
      }
      var kind := BinaryKind(family, symbol.kind.op);
      if kind.None? {
        return Err(SyntaxError(symbol.line));
      }
      var expression := Expression(kind.value, [leftHandSide, rightHandSide.value], expressionProxy.children);
      Appended(before, Lead(symbols, start), expression);
      parentProxy.Add(expression);
      return Ok(Some(expression));
    }
  }
}
