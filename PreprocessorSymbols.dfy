/** The vocabulary of the conditional preprocessor expression parser
    (CodeParser.Preprocessor.cs): the symbols the lexer hands over, the code
    units the parser builds from them, and the precedence levels of the
    pp-expression grammar of section 9.5.2 of ECMA-334, 4th edition. */
module PreprocessorSymbols {

  import opened Wrappers

  /** The operator types that GetOperatorType can report; OtherOperator
      stands for every operator that is not a pp-expression operator. */
  datatype OperatorType =
    | ConditionalEquals
    | NotEquals
    | ConditionalAnd
    | ConditionalOr
    | OtherOperator(tag: string)

  /** The symbol types the parser distinguishes. An operator symbol carries
      the operator type GetOperatorType reports for it; OtherSymbol stands for
      every remaining symbol type (a preprocessor directive, a number, ...). */
  datatype SymbolKind =
    | WhiteSpace
    | EndOfLine
    | SingleLineComment
    | MultiLineComment
    | SkippedSection
    | Other
    | NotSymbol
    | OpenParenthesis
    | CloseParenthesis
    | TrueSymbol
    | FalseSymbol
    | OperatorSymbol(op: OperatorType)
    | OtherSymbol(tag: string)

  /** A symbol of the directive body with the line it starts on. */
  datatype Symbol = Symbol(kind: SymbolKind, text: string, line: int)

  /** Whitespace, end of line, comments and skipped sections: the symbols that
      are kept in the tree but carry no meaning for the expression. */
  predicate IsTrivia(k: SymbolKind) {
    k.WhiteSpace? || k.EndOfLine? || k.SingleLineComment? || k.MultiLineComment? || k.SkippedSection?
  }

  /** The operators of a pp-expression. */
  predicate IsConditionalOperator(op: OperatorType) {
    op == ConditionalEquals || op == NotEquals || op == ConditionalAnd || op == ConditionalOr
  }

  /** The expression precedence levels the parser passes around. */
  datatype Precedence = NoPrecedence | ConditionalOrLevel | ConditionalAndLevel | EqualityLevel | Unary

  /** How tightly a level binds: the pp-expression grammar nests unary `!`
      inside equality, equality inside `&&` and `&&` inside `||`. */
  function Binding(p: Precedence): (b: nat)
    ensures p == NoPrecedence <==> b == 0
  {
    match p
    case NoPrecedence => 0
    case ConditionalOrLevel => 1
    case ConditionalAndLevel => 2
    case EqualityLevel => 3
    case Unary => 4
  }

  /** GetOperatorPrecedence on the pp-expression operators. */
  function OperatorPrecedence(op: OperatorType): (p: Precedence)
    requires IsConditionalOperator(op)
    ensures Binding(p) > 0
  {
    match op
    case ConditionalEquals => EqualityLevel
    case NotEquals => EqualityLevel
    case ConditionalAnd => ConditionalAndLevel
    case ConditionalOr => ConditionalOrLevel
  }

  /** The order of section 9.5.2: unary binds tighter than equality, equality
      than `&&`, and `&&` than `||`. It documents the levels the parser gives
      the operators; since `check` below is a parameter about which nothing is
      assumed, no parser contract depends on this order. */
  lemma PrecedenceOrder()
    ensures Binding(Unary) > Binding(OperatorPrecedence(ConditionalEquals)) == Binding(OperatorPrecedence(NotEquals))
    ensures Binding(OperatorPrecedence(NotEquals)) > Binding(OperatorPrecedence(ConditionalAnd))
    ensures Binding(OperatorPrecedence(ConditionalAnd)) > Binding(OperatorPrecedence(ConditionalOr))
  {
  }

  /** CheckPrecedence(previous, next): whether an operator of precedence next
      may be gathered while an expression of precedence previous is being
      read. Its body is not part of this model, so the parser takes it as a
      parameter. */
  type Check = (Precedence, Precedence) -> bool

  datatype TriviaKind = Whitespace | EndOfLineTrivia | SingleLineCommentTrivia | MultilineCommentTrivia | SkippedSectionTrivia

  datatype TokenKind =
    | LiteralToken
    | TrueToken
    | FalseToken
    | NotOperator
    | OpenParenthesisToken
    | CloseParenthesisToken
    | OperatorSymbolToken(op: OperatorType)

  datatype ExpressionKind =
    | LiteralExpr
    | NotExpr
    | ParenthesizedExpr
    | EqualToExpr
    | NotEqualToExpr
    | ConditionalAndExpr
    | ConditionalOrExpr

  /** The code units the parser creates. A token's matchingBracket is the
      index, among the children of the expression that holds it, of the
      bracket it is paired with (MatchingBracket). An expression holds its
      operands (the literal's token, the operand of `!`, the inner expression
      of a parenthesized expression, the two sides of a binary expression)
      and its children: every unit its builder collected, in order. */
  datatype Node =
    | Trivia(trivia: TriviaKind, text: string, line: int)
    | Token(token: TokenKind, text: string, line: int, matchingBracket: Option<nat>)
    | Expression(kind: ExpressionKind, operands: seq<Node>, children: seq<Node>)

  /** SyntaxException at a line, the NullReferenceException raised when a
      missing symbol's line is read, and the ArgumentOutOfRangeException of a
      directive body start outside the directive's text. */
  datatype ParseError = SyntaxError(line: int) | NullSymbol | OutOfRange

  /** What a parse step produced: the expression it returns (None for
      null), where the cursor stands afterwards, and the units it appended,
      in order, to the proxy it was given. */
  datatype Parsed = Parsed(expr: Option<Node>, pos: nat, added: seq<Node>)

  /** The node created for a trivia symbol. */
  function TriviaNode(s: Symbol): (n: Node)
    requires IsTrivia(s.kind)
    ensures n.Trivia? && n.text == s.text && n.line == s.line
  {
    var k := match s.kind
      case WhiteSpace => Whitespace
      case EndOfLine => EndOfLineTrivia
      case SingleLineComment => SingleLineCommentTrivia
      case MultiLineComment => MultilineCommentTrivia
      case SkippedSection => SkippedSectionTrivia;
    Trivia(k, s.text, s.line)
  }
}
