/** The code unit tree that the element attributes are computed over, as an
    arena: the units of one document stored in document (pre-)order, each
    with the index of its parent and the index of its last descendant, so
    that the subtree of unit i is exactly the units i .. last(i).

    The navigation primitives of CodeUnit (FindFirstDescendent,
    FindNextDescendentOf, FindLastDescendent, FindFirstChild, FindNextSibling,
    FindNextSiblingToken, Parent) are defined here over that layout. */
module CodeTree {

  import opened Wrappers
  import opened Access

  datatype ElementType =
    | Document | Namespace | Class | Struct | Interface | Enum | Delegate
    | Constructor | Method | Property | Indexer | Field | Event | OtherElement

  datatype OperatorType = Equals | OtherOperator

  /** Token types; `Other` stands for every token type this model does not
      single out (static, class, identifiers, ...), distinguished by tag. */
  datatype TokenType =
    | Public | Private | Internal | Protected | Unsafe
    | OpenCurlyBracket | Semicolon
    | OpenParenthesis | OpenGenericBracket | OpenSquareBracket
    | OperatorSymbol(op: OperatorType)
    | Other(tag: string)

  predicate IsAccessKeyword(tt: TokenType) {
    tt == TokenType.Public || tt == TokenType.Private || tt == TokenType.Internal || tt == TokenType.Protected
  }

  /** What the model needs of each kind of code unit.
      An element carries the results of its type's virtual members: its name
      (GetElementName), DefaultAccessModifierType and AllowedModifiers.
      A token carries its type, its text and, for an open bracket, the index
      of its MatchingBracket.
      A header (ElementHeader) and trivia (whitespace, comments, end of line)
      are lexical elements that are not tokens; OtherUnit is any code unit
      that is not a lexical element (expressions, statements, ...). */
  datatype UnitKind =
    | ElementUnit(elementType: ElementType, name: string, defaultAccess: AccessModifierType, allowedModifiers: seq<string>)
    | AttributeUnit
    | TokenUnit(tokenType: TokenType, text: string, matchingBracket: Option<nat>)
    | HeaderUnit
    | TriviaUnit
    | OtherUnit

  datatype Unit = Unit(kind: UnitKind, parent: Option<nat>, last: nat, line: int)

  type Tree = seq<Unit>

  predicate IsElement(t: Tree, i: nat) { i < |t| && t[i].kind.ElementUnit? }
  predicate IsAttribute(t: Tree, i: nat) { i < |t| && t[i].kind.AttributeUnit? }
  predicate IsToken(t: Tree, i: nat) { i < |t| && t[i].kind.TokenUnit? }
  predicate IsHeader(t: Tree, i: nat) { i < |t| && t[i].kind.HeaderUnit? }
  predicate IsLexical(t: Tree, i: nat) {
    i < |t| && (t[i].kind.TokenUnit? || t[i].kind.HeaderUnit? || t[i].kind.TriviaUnit?)
  }

  predicate IsTokenOf(t: Tree, i: nat, tt: TokenType) {
    IsToken(t, i) && t[i].kind.tokenType == tt
  }

  predicate IsOpenBracket(t: Tree, i: nat) {
    IsTokenOf(t, i, OpenParenthesis) || IsTokenOf(t, i, OpenGenericBracket) || IsTokenOf(t, i, OpenSquareBracket)
  }

  /** The tokens at which a declaration ends: `{`, `;` and the `=` operator. */
  predicate IsDeclarationEnd(t: Tree, i: nat) {
    IsTokenOf(t, i, OpenCurlyBracket) || IsTokenOf(t, i, Semicolon) || IsTokenOf(t, i, OperatorSymbol(Equals))
  }

  /** j lies strictly inside the range of i. */
  predicate InRange(t: Tree, i: nat, j: nat) {
    i < j < |t| && i < |t| && j <= t[i].last
  }

  /** Every unit's subtree is a range i .. last(i) inside the arena. */
  ghost predicate Spans(t: Tree) {
    forall i :: 0 <= i < |t| ==> i <= t[i].last < |t|
  }

  /** A parent precedes its children and its range covers theirs. */
  ghost predicate ParentsCover(t: Tree) {
    forall i {:trigger t[i].parent} :: 0 <= i < |t| && t[i].parent.Some? ==>
      t[i].parent.value < i && i <= t[t[i].parent.value].last
  }

  /** A unit strictly inside range i has its parent at i or later and ends
      inside range i: ranges nest and the parent is the nearest enclosing
      unit. The fact is used through the lemma Nested, which names the
      pair. */
  ghost predicate RangesNest(t: Tree) {
    forall i: nat, j: nat {:trigger InRange(t, i, j)} :: InRange(t, i, j) ==>
      t[j].parent.Some? && i <= t[j].parent.value && t[j].last <= t[i].last
  }

  /** An attribute has children (Attribute.cs asserts at least two). */
  ghost predicate AttributesHaveChildren(t: Tree) {
    forall i :: 0 <= i < |t| && t[i].kind.AttributeUnit? ==> i < t[i].last
  }

  /** An open bracket has a matching bracket after it, inside its parent. */
  ghost predicate BracketsMatched(t: Tree)
    requires ParentsCover(t)
  {
    forall i {:trigger t[i].parent} :: 0 <= i < |t| && IsOpenBracket(t, i) ==>
      t[i].kind.matchingBracket.Some? && t[i].parent.Some? &&
      i < t[i].kind.matchingBracket.value <= t[t[i].parent.value].last
  }

  /** The parent of an element is an element (Element.cs line 529). */
  ghost predicate ElementParents(t: Tree)
    requires ParentsCover(t)
  {
    forall i {:trigger t[i].parent} :: 0 <= i < |t| && t[i].kind.ElementUnit? && t[i].parent.Some? ==>
      t[t[i].parent.value].kind.ElementUnit?
  }

  /** The arena layout plus what the source asserts of the tree. */
  ghost predicate WellFormed(t: Tree) {
    Spans(t) && ParentsCover(t) && RangesNest(t) && AttributesHaveChildren(t) && BracketsMatched(t) && ElementParents(t)
  }

  /** Units strictly inside the range of e end no later than e's range. */
  lemma Nested(t: Tree, e: nat, j: nat)
    requires Spans(t) && RangesNest(t) && e < |t| && e < j <= t[e].last
    ensures t[j].parent.Some? && e <= t[j].parent.value && t[j].last <= t[e].last
  {
    assert InRange(t, e, j);
  }

  /** A unit's matching bracket lies inside any range that contains the unit. */
  lemma MatchingInside(t: Tree, e: nat, i: nat)
    requires Spans(t) && ParentsCover(t) && RangesNest(t) && BracketsMatched(t)
    requires e < |t| && e < i <= t[e].last && IsOpenBracket(t, i)
    ensures i < t[i].kind.matchingBracket.value <= t[e].last
  {
    Nested(t, e, i);
    var p := t[i].parent.value;
    if p != e {
      Nested(t, e, p);
    }
  }

  function Parent(t: Tree, i: nat): Option<nat>
    requires ParentsCover(t) && i < |t|
    ensures Parent(t, i).Some? ==> Parent(t, i).value < i
  {
    t[i].parent
  }

  /** FindFirstChild. */
  function FirstChild(t: Tree, i: nat): (r: Option<nat>)
    requires Spans(t) && i < |t|
    ensures r.Some? ==> r.value == i + 1 <= t[i].last
  {
    if i < t[i].last then Some(i + 1) else None
  }

  /** FindNextSibling: the unit right after i's subtree, if it is still inside
      i's parent. */
  function NextSibling(t: Tree, i: nat): (r: Option<nat>)
    requires Spans(t) && ParentsCover(t) && i < |t|
    ensures r.Some? ==> i < r.value < |t| && t[i].parent.Some? && r.value <= t[t[i].parent.value].last
  {
    match t[i].parent
    case None => None
    case Some(p) => if t[i].last < t[p].last then Some(t[i].last + 1) else None
  }

  /** FindNextSiblingToken: the first later sibling that is a token. */
  function NextSiblingToken(t: Tree, i: nat): (r: Option<nat>)
    requires Spans(t) && ParentsCover(t) && i < |t|
    ensures r.Some? ==> i < r.value < |t| && IsToken(t, r.value)
    decreases |t| - i
  {
    match NextSibling(t, i)
    case None => None
    case Some(s) => if IsToken(t, s) then Some(s) else NextSiblingToken(t, s)
  }

  /** FindNextDescendentOf(e): the unit after `item` in document order, if it
      is still inside e. */
  function NextDescendentOf(t: Tree, item: nat, e: nat): (r: Option<nat>)
    requires Spans(t) && e < |t|
    ensures r.Some? ==> r.value == item + 1 <= t[e].last
  {
    if item + 1 <= t[e].last then Some(item + 1) else None
  }

  /** FindLastDescendent. */
  function LastDescendent(t: Tree, i: nat): (r: Option<nat>)
    requires Spans(t) && i < |t|
    ensures r.Some? ==> i < r.value == t[i].last
  {
    if i < t[i].last then Some(t[i].last) else None
  }

  /** j lies in the subtree of an attribute that is a proper descendant of e. */
  ghost predicate InAttribute(t: Tree, e: nat, j: nat) {
    exists a :: e < a < j && IsAttribute(t, a) && j <= t[a].last
  }

  /** a is e or one of e's ancestors. */
  predicate IsAncestorOrSelf(t: Tree, a: nat, e: nat)
    requires ParentsCover(t) && e < |t|
    decreases e
  {
    a == e || (t[e].parent.Some? && IsAncestorOrSelf(t, a, t[e].parent.value))
  }

  /** An ancestor comes no later than its descendant. */
  lemma {:induction false} AncestorNotAfter(t: Tree, a: nat, e: nat)
    requires ParentsCover(t) && e < |t|
    ensures IsAncestorOrSelf(t, a, e) ==> a <= e
    decreases e
  {
    if a != e && t[e].parent.Some? {
      AncestorNotAfter(t, a, t[e].parent.value);
    }
  }
}
