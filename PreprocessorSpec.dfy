/** The conditional preprocessor expression parser of
    CodeParser.Preprocessor.cs as functions of the symbol list and the
    cursor position. Each function describes one builder of the source: where
    the cursor ends up, the units appended to the proxy it is given, the
    expression it returns, or the exception it throws. The parser class
    (PreprocessorParser) is proved to behave as these functions say.

    The functions are mutually recursive. They terminate because every
    primary and every extension consumes at least one symbol: each function
    is measured by the number of symbols left, then by its rank in the call
    order next > extended primary > primary, extensions > extension >
    builders. */
module PreprocessorSpec {

  import opened Wrappers
  import opened PreprocessorSymbols

  /** The cursor after AdvanceToNextConditionalDirectiveCodeSymbol: the first
      symbol at or after pos that is not trivia, or the end of the input. */
  function SkipTrivia(syms: seq<Symbol>, pos: nat): (end: nat)
    requires pos <= |syms|
    ensures pos <= end <= |syms|
    ensures forall i :: pos <= i < end ==> IsTrivia(syms[i].kind)
    ensures end == |syms| || !IsTrivia(syms[end].kind)
    decreases |syms| - pos
  {
    if pos < |syms| && IsTrivia(syms[pos].kind) then SkipTrivia(syms, pos + 1) else pos
  }

  /** The nodes created for the trivia symbols lo .. hi - 1: one per
      symbol, in source order. */
  function TriviaNodes(syms: seq<Symbol>, lo: nat, hi: nat): (r: seq<Node>)
    requires lo <= hi <= |syms|
    requires forall i :: lo <= i < hi ==> IsTrivia(syms[i].kind)
    ensures |r| == hi - lo
    ensures forall k :: 0 <= k < |r| ==> r[k] == TriviaNode(syms[lo + k])
    decreases hi
  {
    if lo == hi then [] else TriviaNodes(syms, lo, hi - 1) + [TriviaNode(syms[hi - 1])]
  }

  /** The trivia nodes the skip from pos appends. */
  function Lead(syms: seq<Symbol>, pos: nat): (r: seq<Node>)
    requires pos <= |syms|
    ensures |r| == SkipTrivia(syms, pos) - pos
  {
    TriviaNodes(syms, pos, SkipTrivia(syms, pos))
  }

  /** GetNextConditionalPreprocessorExpression: skip trivia into the parent
      proxy; at the end of the input there is no expression, otherwise an
      extended primary expression follows. */
  function NextExpression(syms: seq<Symbol>, check: Check, pos: nat, previous: Precedence): (r: Result<Parsed, ParseError>)
    requires pos <= |syms|
    ensures r.Ok? ==> pos <= r.value.pos <= |syms|
    ensures r.Ok? && r.value.expr.Some? ==> pos < r.value.pos && r.value.expr.value.Expression? && |r.value.expr.value.children| > 0
    decreases |syms| - pos, 4
  {
    var q := SkipTrivia(syms, pos);
    if q == |syms| then Ok(Parsed(None, q, Lead(syms, pos)))
    else
      var rest :- ExtendedPrimary(syms, check, q, previous);
      Ok(Parsed(rest.expr, rest.pos, Lead(syms, pos) + rest.added))
  }

  /** The rest of GetNextConditionalPreprocessorExpression, from a symbol
      that is not trivia: a primary expression read into a fresh extension
      proxy, then its extensions. The parent receives the children of the
      last extension proxy; the expression returned is the primary. */
  function ExtendedPrimary(syms: seq<Symbol>, check: Check, q: nat, previous: Precedence): (r: Result<Parsed, ParseError>)
    requires q < |syms|
    ensures r.Ok? ==> q < r.value.pos <= |syms| && r.value.expr.Some?
    ensures r.Ok? ==> r.value.expr.value.Expression? && |r.value.expr.value.children| > 0
    decreases |syms| - q, 3
  {
    var primary :- PrimaryExpression(syms, check, q);
    Extensions(syms, check, primary.pos, primary.expr.value, previous, primary.added)
  }

  /** The symbol types a primary expression can start with. */
  predicate StartsPrimary(k: SymbolKind) {
    k.Other? || k.NotSymbol? || k.OpenParenthesis? || k.FalseSymbol? || k.TrueSymbol?
  }

  /** The dispatch on the next symbol's type in
      GetNextConditionalPreprocessorExpression. */
  function PrimaryExpression(syms: seq<Symbol>, check: Check, q: nat): (r: Result<Parsed, ParseError>)
    requires q < |syms|
    ensures r.Ok? ==> q < r.value.pos <= |syms| && r.value.expr.Some?
    ensures r.Ok? ==> r.value.expr.value.Expression? && |r.value.expr.value.children| > 0
    decreases |syms| - q, 2
  {
    match syms[q].kind
    case Other => Ok(ConstantExpression(syms, q))
    case NotSymbol => NotExpression(syms, check, q)
    case OpenParenthesis => ParenthesizedExpression(syms, check, q)
    case FalseSymbol => Ok(LiteralExpression(syms, q, false))
    case TrueSymbol => Ok(LiteralExpression(syms, q, true))
    case _ => Err(SyntaxError(syms[q].line))
  }

  /** GetConditionalPreprocessorConstantExpression: the next symbol, which
      its callers guarantee to be a word, becomes a literal token and a
      literal expression holding it. */
  function ConstantExpression(syms: seq<Symbol>, pos: nat): (r: Parsed)
    requires pos <= |syms| && SkipTrivia(syms, pos) < |syms| && syms[SkipTrivia(syms, pos)].kind.Other?
    ensures pos < r.pos <= |syms| && r.expr.Some? && r.expr.value.Expression? && |r.expr.value.children| > 0
  {
    var q := SkipTrivia(syms, pos);
    var token := Token(LiteralToken, syms[q].text, syms[q].line, None);
    var e := Expression(LiteralExpr, [token], [token]);
    Parsed(Some(e), q + 1, Lead(syms, pos) + [e])
  }

  /** CreateLiteralExpression for `true` and `false`: the symbol at the
      cursor becomes a keyword token and a literal expression holding it. */
  function LiteralExpression(syms: seq<Symbol>, pos: nat, value: bool): (r: Parsed)
    requires pos < |syms|
    ensures pos < r.pos <= |syms| && r.expr.Some? && r.expr.value.Expression? && |r.expr.value.children| > 0
  {
    var token := Token(if value then TrueToken else FalseToken, syms[pos].text, syms[pos].line, None);
    var e := Expression(LiteralExpr, [token], [token]);
    Parsed(Some(e), pos + 1, [e])
  }

  /** GetConditionalPreprocessorNotExpression: the `!` token followed by an
      operand read at unary precedence; a missing operand, or one without
      children, is a syntax error at the line of the `!`. */
  function NotExpression(syms: seq<Symbol>, check: Check, pos: nat): (r: Result<Parsed, ParseError>)
    requires pos <= |syms| && SkipTrivia(syms, pos) < |syms|
    ensures r.Ok? ==> pos < r.value.pos <= |syms| && r.value.expr.Some?
    ensures r.Ok? ==> r.value.expr.value.Expression? && |r.value.expr.value.children| > 0
    decreases |syms| - pos, 1
  {
    var q := SkipTrivia(syms, pos);
    var token := Token(NotOperator, syms[q].text, syms[q].line, None);
    var operand :- NextExpression(syms, check, q + 1, Unary);
    if operand.expr.None? || operand.expr.value.children == [] then
      Err(SyntaxError(syms[q].line))
    else
      var e := Expression(NotExpr, [operand.expr.value], [token] + operand.added);
      Ok(Parsed(Some(e), operand.pos, Lead(syms, pos) + [e]))
  }

  /** The children of a parenthesized expression: the open token, what lies
      between, and the close token, the two brackets pointing at each other. */
  function Bracketed(open: Symbol, middle: seq<Node>, close: Symbol): (r: seq<Node>)
    ensures |r| == |middle| + 2
  {
    [Token(OpenParenthesisToken, open.text, open.line, Some(|middle| + 1))] + middle
      + [Token(CloseParenthesisToken, close.text, close.line, Some(0))]
  }

  /** GetConditionalPreprocessorParenthesizedExpression: `(`, an inner
      expression read from scratch, trivia, then `)`. Every failure is a
      syntax error at the line of the `(`, except that a missing first symbol
      dereferences null. */
  function ParenthesizedExpression(syms: seq<Symbol>, check: Check, pos: nat): (r: Result<Parsed, ParseError>)
    requires pos <= |syms|
    ensures r.Ok? ==> pos < r.value.pos <= |syms| && r.value.expr.Some?
    ensures r.Ok? ==> r.value.expr.value.Expression? && |r.value.expr.value.children| > 0
    decreases |syms| - pos, 1
  {
    var q := SkipTrivia(syms, pos);
    if q == |syms| then Err(NullSymbol)
    else if !syms[q].kind.OpenParenthesis? then Err(SyntaxError(syms[q].line))
    else
      var inner :- NextExpression(syms, check, q + 1, NoPrecedence);
      CloseParenthesized(syms, pos, q, inner)
  }

  /** What follows the inner expression of a parenthesized expression opened
      by the symbol at q: it must exist and be followed, after trivia, by
      `)`, else the `(` line is reported. */
  function CloseParenthesized(syms: seq<Symbol>, pos: nat, q: nat, inner: Parsed): (r: Result<Parsed, ParseError>)
    requires pos <= q < inner.pos <= |syms|
    ensures r.Ok? ==> inner.pos < r.value.pos <= |syms| && r.value.expr.Some?
    ensures r.Ok? ==> r.value.expr.value.Expression? && |r.value.expr.value.children| > 0
  {
    if inner.expr.None? then Err(SyntaxError(syms[q].line))
    else
      var c := SkipTrivia(syms, inner.pos);
      if c == |syms| || !syms[c].kind.CloseParenthesis? then Err(SyntaxError(syms[q].line))
      else
        var children := Bracketed(syms[q], inner.added + Lead(syms, inner.pos), syms[c]);
        var e := Expression(ParenthesizedExpr, [inner.expr.value], children);
        Ok(Parsed(Some(e), c + 1, Lead(syms, pos) + [e]))
  }

  /** The operator types each binary builder accepts. */
  datatype Family = EqualityFamily | AndOrFamily

  /** The expression a builder of the family builds for an operator, or None
      when its switch falls through to the default case. */
  function BinaryKind(family: Family, op: OperatorType): Option<ExpressionKind> {
    match family
    case EqualityFamily =>
      if op == ConditionalEquals then Some(EqualToExpr)
      else if op == NotEquals then Some(NotEqualToExpr)
      else None
    case AndOrFamily =>
      if op == ConditionalAnd then Some(ConditionalAndExpr)
      else if op == ConditionalOr then Some(ConditionalOrExpr)
      else None
  }

  /** The operator the cursor stands on once trivia is skipped, which the
      callers of the binary builders guarantee (PeekOperatorSymbolToken). */
  predicate AtConditionalOperator(syms: seq<Symbol>, pos: nat)
    requires pos <= |syms|
  {
    var q := SkipTrivia(syms, pos);
    q < |syms| && syms[q].kind.OperatorSymbol? && IsConditionalOperator(syms[q].kind.op)
  }

  /** GetConditionalPreprocessorEqualityExpression (EqualityFamily) and
      GetConditionalPreprocessorAndOrExpression (AndOrFamily): the operator
      is gathered only when CheckPrecedence admits its precedence after the
      previous one; otherwise nothing is consumed and null is returned. The
      right-hand side is read at the operator's precedence. */
  function BinaryExpression(syms: seq<Symbol>, check: Check, pos: nat, left: Node, previous: Precedence, family: Family): (r: Result<Parsed, ParseError>)
    requires pos <= |syms| && AtConditionalOperator(syms, pos)
    ensures r.Ok? ==> pos <= r.value.pos <= |syms|
    ensures r.Ok? && r.value.expr.Some? ==> pos < r.value.pos
    decreases |syms| - pos, 0
  {
    var q := SkipTrivia(syms, pos);
    var precedence := OperatorPrecedence(syms[q].kind.op);
    if !check(previous, precedence) then Ok(Parsed(None, q, Lead(syms, pos)))
    else
      var right :- NextExpression(syms, check, q + 1, precedence);
      CompleteBinary(syms, pos, q, left, family, right)
  }

  /** What follows the right-hand side of the operator at q: it must exist,
      and the builder's switch must accept the operator, else the operator's
      line is reported. The new expression holds the operator token and the
      units the right-hand side appended. */
  function CompleteBinary(syms: seq<Symbol>, pos: nat, q: nat, left: Node, family: Family, right: Parsed): (r: Result<Parsed, ParseError>)
    requires pos <= q < right.pos <= |syms| && syms[q].kind.OperatorSymbol?
    ensures r.Ok? ==> r.value.pos == right.pos && r.value.expr.Some?
  {
    var op := syms[q].kind.op;
    if right.expr.None? then Err(SyntaxError(syms[q].line))
    else if BinaryKind(family, op).None? then Err(SyntaxError(syms[q].line))
    else
      var token := Token(OperatorSymbolToken(op), syms[q].text, syms[q].line, None);
      var e := Expression(BinaryKind(family, op).value, [left, right.expr.value], [token] + right.added);
      Ok(Parsed(Some(e), right.pos, Lead(syms, pos) + [e]))
  }

  /** The family of builders GetConditionalPreprocessorExpressionExtension
      hands an operator to. */
  function FamilyOf(op: OperatorType): (f: Family)
    requires IsConditionalOperator(op)
    ensures BinaryKind(f, op).Some?
  {
    if op == ConditionalEquals || op == NotEquals then EqualityFamily else AndOrFamily
  }

  /** GetConditionalPreprocessorExpressionExtension: after trivia, an
      extension is attempted only at one of `==`, `!=`, `&&`, `||` (and never
      at `)`); anything else, or the end of input, gives null. */
  function ExpressionExtension(syms: seq<Symbol>, check: Check, pos: nat, left: Node, previous: Precedence): (r: Result<Parsed, ParseError>)
    requires pos <= |syms|
    ensures r.Ok? ==> pos <= r.value.pos <= |syms|
    ensures r.Ok? && r.value.expr.Some? ==> pos < r.value.pos
    decreases |syms| - pos, 1
  {
    var q := SkipTrivia(syms, pos);
    if q < |syms| && !syms[q].kind.CloseParenthesis? && syms[q].kind.OperatorSymbol? && IsConditionalOperator(syms[q].kind.op) then
      var built :- BinaryExpression(syms, check, q, left, previous, FamilyOf(syms[q].kind.op));
      Ok(Parsed(built.expr, built.pos, Lead(syms, pos) + built.added))
    else
      Ok(Parsed(None, q, Lead(syms, pos)))
  }

  /** The extension loop of GetNextConditionalPreprocessorExpression, run
      from the cursor pos with the current extension proxy holding proxy.
      Every extension is attempted with the primary left as its left side.
      After a successful extension a new proxy holding left replaces the
      current one; when no extension follows, the loop stops with the current
      proxy's children, and the expression returned is left. */
  function Extensions(syms: seq<Symbol>, check: Check, pos: nat, left: Node, previous: Precedence, proxy: seq<Node>): (r: Result<Parsed, ParseError>)
    requires pos <= |syms|
    ensures r.Ok? ==> pos <= r.value.pos <= |syms| && r.value.expr == Some(left)
    decreases |syms| - pos, 2
  {
    var extension :- ExpressionExtension(syms, check, pos, left, previous);
    if extension.expr.Some? then Extensions(syms, check, extension.pos, left, previous, [left])
    else Ok(Parsed(Some(left), extension.pos, proxy + extension.added))
  }
}
