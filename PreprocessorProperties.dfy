/** What the conditional preprocessor expression parser promises, proved
    about the functions of PreprocessorSpec: which symbol starts which
    expression, when `!` and `(` fail, when an operator is gathered, where
    the extension loop stops, and that the first expression read is the one
    returned. */
module PreprocessorProperties {

  import opened Wrappers
  import opened PreprocessorSymbols
  import opened PreprocessorSpec

  /** The expression a primary builder creates for its first symbol. */
  function PrimaryKind(k: SymbolKind): (e: ExpressionKind)
    requires StartsPrimary(k)
  {
    match k
    case NotSymbol => NotExpr
    case OpenParenthesis => ParenthesizedExpr
    case _ => LiteralExpr
  }

  /** Lines 153-181: a primary expression is read only from a word, `!`,
      `(`, `true` or `false`; any other symbol is a syntax error at its own
      line. A successful read builds the expression its first symbol calls
      for. */
  lemma PrimaryDispatch(syms: seq<Symbol>, check: Check, q: nat)
    requires q < |syms|
    ensures !StartsPrimary(syms[q].kind) ==> PrimaryExpression(syms, check, q) == Err(SyntaxError(syms[q].line))
    ensures PrimaryExpression(syms, check, q).Ok? ==>
      StartsPrimary(syms[q].kind) && PrimaryExpression(syms, check, q).value.expr.value.kind == PrimaryKind(syms[q].kind)
  {
    match syms[q].kind
    case Other =>
      assert SkipTrivia(syms, q) == q;
    case NotSymbol =>
    case OpenParenthesis =>
    case FalseSymbol =>
    case TrueSymbol =>
    case _ =>
  }

  /** The expression a successful read returns is the primary expression its
      first symbol starts: the expressions gathered as extensions are never
      returned (line 197 saves the primary again). */
  lemma ReturnsPrimary(syms: seq<Symbol>, check: Check, pos: nat, previous: Precedence)
    requires pos <= |syms|
    ensures var r := NextExpression(syms, check, pos, previous);
      var q := SkipTrivia(syms, pos);
      r.Ok? && r.value.expr.Some? ==>
        q < |syms| && PrimaryExpression(syms, check, q).Ok? && PrimaryExpression(syms, check, q).value.expr == r.value.expr
  {
    var q := SkipTrivia(syms, pos);
    if q < |syms| {
      var primary := PrimaryExpression(syms, check, q);
      if primary.Ok? {
        var rest := Extensions(syms, check, primary.value.pos, primary.value.expr.value, previous, primary.value.added);
        assert ExtendedPrimary(syms, check, q, previous) == rest;
      }
    }
  }

  /** There is no expression exactly when only trivia is left; the trivia
      are then all appended and the cursor stands at the end. */
  lemma NoExpressionAtEnd(syms: seq<Symbol>, check: Check, pos: nat, previous: Precedence)
    requires pos <= |syms|
    ensures var r := NextExpression(syms, check, pos, previous);
      (r.Ok? && r.value.expr.None?) <==> SkipTrivia(syms, pos) == |syms|
    ensures SkipTrivia(syms, pos) == |syms| ==>
      NextExpression(syms, check, pos, previous) == Ok(Parsed(None, |syms|, Lead(syms, pos)))
  {
    var q := SkipTrivia(syms, pos);
    if q < |syms| {
      var rest := ExtendedPrimary(syms, check, q, previous);
      assert rest.Ok? ==> rest.value.expr.Some?;
    }
  }

  /** Lines 384-395: the operand of `!` is read at unary precedence right
      after the `!`. Its failure is passed on; a missing operand is a syntax
      error at the line of the `!`; otherwise the operand is the operand of
      the new expression, whose children start with the `!` token. */
  lemma NotOperand(syms: seq<Symbol>, check: Check, pos: nat)
    requires pos <= |syms| && SkipTrivia(syms, pos) < |syms|
    ensures var q := SkipTrivia(syms, pos);
      var operand := NextExpression(syms, check, q + 1, Unary);
      var r := NotExpression(syms, check, pos);
      && (operand.Err? ==> r == Err(operand.error))
      && (operand.Ok? && operand.value.expr.None? ==> r == Err(SyntaxError(syms[q].line)))
      && (operand.Ok? && operand.value.expr.Some? ==>
            r.Ok? && r.value.pos == operand.value.pos
            && r.value.expr.value.operands == [operand.value.expr.value]
            && r.value.expr.value.children == [Token(NotOperator, syms[q].text, syms[q].line, None)] + operand.value.added)
  {
  }

  /** Lines 417-447: the children of a parenthesized expression begin with
      the `(` token and end with the `)` token, each pointing at the other
      through its matching bracket. */
  lemma BracketsMatch(syms: seq<Symbol>, check: Check, pos: nat)
    requires pos <= |syms|
    ensures var r := ParenthesizedExpression(syms, check, pos);
      r.Ok? ==>
        var children := r.value.expr.value.children;
        var last := |children| - 1;
        && children[0].Token? && children[0].token == OpenParenthesisToken && children[0].matchingBracket == Some(last)
        && children[last].Token? && children[last].token == CloseParenthesisToken && children[last].matchingBracket == Some(0)
  {
    var q := SkipTrivia(syms, pos);
    if q < |syms| && syms[q].kind.OpenParenthesis? {
      var inner := NextExpression(syms, check, q + 1, NoPrecedence);
      if inner.Ok? {
        var r := CloseParenthesized(syms, pos, q, inner.value);
        if r.Ok? {
          var c := SkipTrivia(syms, inner.value.pos);
          var middle := inner.value.added + Lead(syms, inner.value.pos);
          assert r.value.expr.value.children == Bracketed(syms[q], middle, syms[c]);
        }
      }
    }
  }

  /** Lines 412-424 and 430-434: a parenthesized expression fails with a
      syntax error at the `(` line when the inner expression is missing or
      is not followed by `)`, and the null symbol is dereferenced when the
      input ends before the `(`. */
  lemma ParenthesisErrors(syms: seq<Symbol>, check: Check, pos: nat)
    requires pos <= |syms|
    ensures var q := SkipTrivia(syms, pos);
      var r := ParenthesizedExpression(syms, check, pos);
      && (q == |syms| ==> r == Err(NullSymbol))
      && (q < |syms| && !syms[q].kind.OpenParenthesis? ==> r == Err(SyntaxError(syms[q].line)))
      && (q < |syms| && syms[q].kind.OpenParenthesis? ==>
            var inner := NextExpression(syms, check, q + 1, NoPrecedence);
            && (inner.Ok? && inner.value.expr.None? ==> r == Err(SyntaxError(syms[q].line)))
            && (inner.Ok? && inner.value.expr.Some? ==>
                  var c := SkipTrivia(syms, inner.value.pos);
                  (r.Ok? <==> c < |syms| && syms[c].kind.CloseParenthesis?)
                  && (r.Err? ==> r == Err(SyntaxError(syms[q].line)))))
  {
  }

  /** Lines 264-291: an extension is built only at one of `==`, `!=`, `&&`,
      `||` after trivia (never at `)`), and anywhere else nothing is read but
      the trivia. */
  lemma ExtensionOnlyAtOperator(syms: seq<Symbol>, check: Check, pos: nat, left: Node, previous: Precedence)
    requires pos <= |syms|
    ensures var q := SkipTrivia(syms, pos);
      var r := ExpressionExtension(syms, check, pos, left, previous);
      && (r.Ok? && r.value.expr.Some? ==> AtConditionalOperator(syms, pos) && !syms[q].kind.CloseParenthesis?)
      && (!AtConditionalOperator(syms, pos) ==> r == Ok(Parsed(None, q, Lead(syms, pos))))
  {
  }

  /** Lines 476-511 and 534-569: the operator is gathered exactly when
      CheckPrecedence admits its precedence after the previous one; when it
      does not, nothing but trivia is read and the cursor stays on the
      operator. */
  lemma GatheredOnlyWhenAdmitted(syms: seq<Symbol>, check: Check, pos: nat, left: Node, previous: Precedence, family: Family)
    requires pos <= |syms| && AtConditionalOperator(syms, pos)
    ensures var q := SkipTrivia(syms, pos);
      var precedence := OperatorPrecedence(syms[q].kind.op);
      var r := BinaryExpression(syms, check, pos, left, previous, family);
      && (!check(previous, precedence) ==> r == Ok(Parsed(None, q, Lead(syms, pos))))
      && (r.Ok? && r.value.expr.Some? ==> check(previous, precedence))
  {
  }

  /** Lines 484-510 and 542-568: once gathered, the right-hand side is read
      at the operator's precedence right after the operator. Its failure is
      passed on; a missing right-hand side is a syntax error at the
      operator's line; otherwise the new expression joins the left side and
      the right-hand side, its children starting with the operator token. */
  lemma RightHandSide(syms: seq<Symbol>, check: Check, pos: nat, left: Node, previous: Precedence, family: Family)
    requires pos <= |syms| && AtConditionalOperator(syms, pos)
    requires check(previous, OperatorPrecedence(syms[SkipTrivia(syms, pos)].kind.op))
    requires BinaryKind(family, syms[SkipTrivia(syms, pos)].kind.op).Some?
    ensures var q := SkipTrivia(syms, pos);
      var op := syms[q].kind.op;
      var right := NextExpression(syms, check, q + 1, OperatorPrecedence(op));
      var r := BinaryExpression(syms, check, pos, left, previous, family);
      && (right.Err? ==> r == Err(right.error))
      && (right.Ok? && right.value.expr.None? ==> r == Err(SyntaxError(syms[q].line)))
      && (right.Ok? && right.value.expr.Some? ==>
            r.Ok? && r.value.pos == right.value.pos
            && r.value.expr == Some(Expression(BinaryKind(family, op).value, [left, right.value.expr.value],
                                               [Token(OperatorSymbolToken(op), syms[q].text, syms[q].line, None)] + right.value.added)))
  {
  }

  /** An operator handed to the builder of the other family is a syntax
      error at its line once the right-hand side is read (the default case of
      each builder's switch). */
  lemma WrongFamily(syms: seq<Symbol>, check: Check, pos: nat, left: Node, previous: Precedence, family: Family)
    requires pos <= |syms| && AtConditionalOperator(syms, pos)
    requires check(previous, OperatorPrecedence(syms[SkipTrivia(syms, pos)].kind.op))
    requires BinaryKind(family, syms[SkipTrivia(syms, pos)].kind.op).None?
    ensures var q := SkipTrivia(syms, pos);
      var right := NextExpression(syms, check, q + 1, OperatorPrecedence(syms[q].kind.op));
      right.Ok? ==> BinaryExpression(syms, check, pos, left, previous, family) == Err(SyntaxError(syms[q].line))
  {
  }

  /** Where an expression can end: not on trivia, and not on an operator
      that would have been gathered. */
  predicate Stops(syms: seq<Symbol>, check: Check, pos: nat, previous: Precedence)
    requires pos <= |syms|
  {
    && (pos == |syms| || !IsTrivia(syms[pos].kind))
    && (AtConditionalOperator(syms, pos) ==>
          !check(previous, OperatorPrecedence(syms[pos].kind.op)))
  }

  /** The extension loop (lines 187-204) stops where no further extension
      can be gathered, and the units it leaves for the parent are those of
      the current extension proxy followed by the trivia skipped last. */
  lemma {:induction false} ExtensionsStop(syms: seq<Symbol>, check: Check, pos: nat, left: Node, previous: Precedence, proxy: seq<Node>)
    requires pos <= |syms|
    ensures var r := Extensions(syms, check, pos, left, previous, proxy);
      r.Ok? ==> Stops(syms, check, r.value.pos, previous)
    decreases |syms| - pos
  {
    var extension := ExpressionExtension(syms, check, pos, left, previous);
    if extension.Ok? {
      if extension.value.expr.Some? {
        ExtensionsStop(syms, check, extension.value.pos, left, previous, [left]);
      } else {
        ExtensionStops(syms, check, pos, left, previous);
      }
    }
  }

  /** A single extension that builds nothing ends where Stops holds. */
  lemma ExtensionStops(syms: seq<Symbol>, check: Check, pos: nat, left: Node, previous: Precedence)
    requires pos <= |syms|
    ensures var r := ExpressionExtension(syms, check, pos, left, previous);
      r.Ok? && r.value.expr.None? ==> Stops(syms, check, r.value.pos, previous)
  {
    var q := SkipTrivia(syms, pos);
    assert SkipTrivia(syms, q) == q;
    if AtConditionalOperator(syms, pos) {
      GatheredOnlyWhenAdmitted(syms, check, q, left, previous, FamilyOf(syms[q].kind.op));
    }
  }
}
