/** What each cached property of an Element is, as a function of the code
    unit tree: the modifier scan and the local access level, the actual
    access level merged down the parent chain, the unsafe flag, the fully
    qualified name, the attribute list, the header and the line number.
    The class in ElementCache.dfy fills its caches with these values. */
module ElementProperties {

  import opened Wrappers
  import opened Text
  import opened Access
  import opened CodeTree
  import opened Modifiers
  import opened DeclarationSpan
  import opened ChildWalk

  /** ParentCastedToElement: the parent of an element, which is itself an
      element that comes earlier in the document. */
  function ParentElement(t: Tree, e: nat): (p: Option<nat>)
    requires WellFormed(t) && IsElement(t, e)
    ensures p == t[e].parent
    ensures p.Some? ==> p.value < e && IsElement(t, p.value)
  {
    t[e].parent
  }

  // ---------------------------------------------------------------------
  // Modifiers and the local access level.

  /** The declaration tokens the modifier scan of e walks over. */
  function ScanTokens(t: Tree, e: nat): seq<DeclToken>
    requires WellFormed(t) && IsElement(t, e)
  {
    DeclTokens(t, FirstDeclToken(t, e))
  }

  /** The final state of GatherDeclarationModifiers on e. When the scan
      raises an error this is the state at that moment, which is what the
      modifiers and accessModifier caches hold afterwards. */
  function ModifierScan(t: Tree, e: nat): ScanState
    requires WellFormed(t) && IsElement(t, e)
  {
    Scan(ScanTokens(t, e), t[e].kind.allowedModifiers, InitialScan(t[e].kind.defaultAccess))
  }

  /** The tokens the scan of e consumes. */
  function Scanned(t: Tree, e: nat): seq<DeclToken>
    requires WellFormed(t) && IsElement(t, e)
  {
    ScanTokens(t, e)[..FirstUnrecognized(ScanTokens(t, e), t[e].kind.allowedModifiers)]
  }

  /** The AccessModifierType property. */
  function LocalAccess(t: Tree, e: nat): AccessModifierType
    requires WellFormed(t) && IsElement(t, e)
  {
    ModifierScan(t, e).access
  }

  /** The modifier scan of e and of every element above it raises no
      error. */
  predicate ChainScansOk(t: Tree, e: nat)
    requires WellFormed(t) && IsElement(t, e)
    decreases e
  {
    ModifierScan(t, e).error.None? &&
    (ParentElement(t, e).Some? ==> ChainScansOk(t, ParentElement(t, e).value))
  }

  /** ContainsModifier(Public, Internal, Protected, Private) on a set of
      recorded modifiers. */
  predicate HasAccessModifier(m: map<TokenType, nat>) {
    TokenType.Public in m || TokenType.Internal in m || TokenType.Protected in m || TokenType.Private in m
  }

  /** The DeclaresAccessModifier property of an element whose scan succeeds
      holds exactly when its declaration carries an access keyword, and when
      it does not, the local access level is the element's default. */
  lemma DeclaresAccessIsKeyword(t: Tree, e: nat)
    requires WellFormed(t) && IsElement(t, e) && ModifierScan(t, e).error.None?
    ensures HasAccessModifier(ModifierScan(t, e).modifiers) <==> AccessKeywords(Scanned(t, e)) != []
    ensures !HasAccessModifier(ModifierScan(t, e).modifiers) ==> LocalAccess(t, e) == t[e].kind.defaultAccess
  {
    var toks := Scanned(t, e);
    var default := t[e].kind.defaultAccess;
    ScanModifiersIsReference(ScanTokens(t, e), t[e].kind.allowedModifiers, default);
    ModifierMapKeys(toks);
    if AccessKeywords(toks) != [] {
      var tt := AccessKeywords(toks)[0];
      AccessKeywordsIn(toks, tt);
      AccessKeywordsMembers(toks, tt);
    } else if HasAccessModifier(ModifierScan(t, e).modifiers) {
      var i :| 0 <= i < |toks| && IsAccessKeyword(toks[i].tokenType);
      AccessKeywordsHas(toks, i);
    }
  }

  /** Every entry of the keyword list is an access keyword. */
  lemma {:induction false} AccessKeywordsIn(toks: seq<DeclToken>, tt: TokenType)
    requires tt in AccessKeywords(toks)
    ensures IsAccessKeyword(tt)
    decreases |toks|
  {
    var n := |toks|;
    if tt in AccessKeywords(toks[..n - 1]) {
      AccessKeywordsIn(toks[..n - 1], tt);
    }
  }

  /** An access keyword among the tokens puts an entry in the keyword list. */
  lemma {:induction false} AccessKeywordsHas(toks: seq<DeclToken>, i: nat)
    requires i < |toks| && IsAccessKeyword(toks[i].tokenType)
    ensures AccessKeywords(toks) != []
    decreases |toks|
  {
    var n := |toks|;
    if i < n - 1 {
      AccessKeywordsHas(toks[..n - 1], i);
    }
  }

  // ---------------------------------------------------------------------
  // The actual access level.

  /** ActualAccessLevel: the local level merged with the parent's actual
      level by ComputeActualAccess. */
  function ActualAccessOf(t: Tree, e: nat): (r: AccessModifierType)
    requires WellFormed(t) && IsElement(t, e)
    ensures AtMost(r, LocalAccess(t, e))
    decreases e
  {
    ActualAccess(LocalAccess(t, e),
      match ParentElement(t, e)
      case None => None
      case Some(p) => Some(ActualAccessOf(t, p)))
  }

  /** The local access levels from the outermost element down to e. */
  function LocalChain(t: Tree, e: nat): (r: seq<AccessModifierType>)
    requires WellFormed(t) && IsElement(t, e)
    ensures |r| > 0 && r[|r| - 1] == LocalAccess(t, e)
    decreases e
  {
    (match ParentElement(t, e)
     case None => []
     case Some(p) => LocalChain(t, p)) + [LocalAccess(t, e)]
  }

  /** The actual access level is the chain merge of the local levels from
      the outermost element in. */
  lemma {:induction false} ActualAccessIsChain(t: Tree, e: nat)
    requires WellFormed(t) && IsElement(t, e)
    ensures ActualAccessOf(t, e) == ChainAccess(LocalChain(t, e))
    decreases e
  {
    var c := LocalChain(t, e);
    match ParentElement(t, e)
    case None =>
      assert c == [LocalAccess(t, e)];
    case Some(p) =>
      ActualAccessIsChain(t, p);
      assert c[..|c| - 1] == LocalChain(t, p);
  }

  /** An element is accessible to exactly the audiences that every element
      on its parent chain, itself included, is locally accessible to; in
      particular it is never more accessible than its parent. */
  lemma ActualAccessDomain(t: Tree, e: nat)
    requires WellFormed(t) && IsElement(t, e)
    ensures Domain(ActualAccessOf(t, e)) == CommonDomain(LocalChain(t, e))
    ensures ParentElement(t, e).Some? ==> AtMost(ActualAccessOf(t, e), ActualAccessOf(t, ParentElement(t, e).value))
  {
    ActualAccessIsChain(t, e);
    ChainAccessIsCommonDomain(LocalChain(t, e));
  }

  // ---------------------------------------------------------------------
  // Unsafe.

  /** The Unsafe property: e declares `unsafe`, or its parent is unsafe. */
  predicate UnsafeOf(t: Tree, e: nat)
    requires WellFormed(t) && IsElement(t, e)
    decreases e
  {
    TokenType.Unsafe in ModifierScan(t, e).modifiers ||
    (ParentElement(t, e).Some? && UnsafeOf(t, ParentElement(t, e).value))
  }

  /** An element is unsafe exactly when it or one of its ancestors declares
      `unsafe`. */
  lemma {:induction false} UnsafeIsInherited(t: Tree, e: nat)
    requires WellFormed(t) && IsElement(t, e)
    ensures UnsafeOf(t, e) <==>
      exists a :: IsAncestorOrSelf(t, a, e) && IsElement(t, a) && TokenType.Unsafe in ModifierScan(t, a).modifiers
    decreases e
  {
    var p := ParentElement(t, e);
    if p.Some? {
      UnsafeIsInherited(t, p.value);
    }
    if exists a :: IsAncestorOrSelf(t, a, e) && IsElement(t, a) && TokenType.Unsafe in ModifierScan(t, a).modifiers {
      var a :| IsAncestorOrSelf(t, a, e) && IsElement(t, a) && TokenType.Unsafe in ModifierScan(t, a).modifiers;
      if a != e {
        assert IsAncestorOrSelf(t, a, p.value);
      }
    }
    if UnsafeOf(t, e) && TokenType.Unsafe !in ModifierScan(t, e).modifiers {
      var a :| IsAncestorOrSelf(t, a, p.value) && IsElement(t, a) && TokenType.Unsafe in ModifierScan(t, a).modifiers;
      assert IsAncestorOrSelf(t, a, e);
    }
  }

  // ---------------------------------------------------------------------
  // Fully qualified name.

  /** The prefix FullyQualifiedName puts before e's name: the parent's fully
      qualified name, unless the parent is missing or is the document. */
  function QualifiedPrefix(t: Tree, e: nat): (r: string)
    requires WellFormed(t) && IsElement(t, e)
    ensures NoWhiteSpace(r)
    decreases e, 0
  {
    match ParentElement(t, e)
    case None => []
    case Some(p) => if t[p].kind.elementType != Document then FullyQualifiedNameOf(t, p) else []
  }

  /** FullyQualifiedName: the prefix, a dot and the name, without any
      whitespace; just the name when the prefix is empty. */
  function FullyQualifiedNameOf(t: Tree, e: nat): (r: string)
    requires WellFormed(t) && IsElement(t, e)
    ensures NoWhiteSpace(r)
    decreases e, 1
  {
    var prefix := QualifiedPrefix(t, e);
    RemoveWhitespace(if prefix == [] then t[e].kind.name else prefix + "." + t[e].kind.name)
  }

  /** The fully qualified name extends the parent's by a dot and the name
      with its whitespace removed; under the document, or with no parent, it
      is the name with its whitespace removed. */
  lemma FullyQualifiedNameExtends(t: Tree, e: nat)
    requires WellFormed(t) && IsElement(t, e)
    ensures var prefix := QualifiedPrefix(t, e);
      && (prefix == [] ==> FullyQualifiedNameOf(t, e) == RemoveWhitespace(t[e].kind.name))
      && (prefix != [] ==> FullyQualifiedNameOf(t, e) == prefix + "." + RemoveWhitespace(t[e].kind.name))
  {
    var prefix := QualifiedPrefix(t, e);
    if prefix != [] {
      RemoveWhitespaceAppend(prefix + ".", t[e].kind.name);
      RemoveWhitespaceAppend(prefix, ".");
      assert RemoveWhitespace(".") == ".";
    }
  }

  // ---------------------------------------------------------------------
  // Attributes and header.

  /** A child at which the walk of the Attributes property stops: a unit
      that is not an attribute and is either not a lexical element or a
      token. */
  predicate StopsAttributes(t: Tree, i: nat) {
    i < |t| && !IsAttribute(t, i) && (!IsLexical(t, i) || IsToken(t, i))
  }

  /** The walk of the Attributes property from the child x on. */
  function AttributesFrom(t: Tree, x: Option<nat>): (r: seq<nat>)
    requires Spans(t) && ParentsCover(t) && (x.Some? ==> x.value < |t|)
    ensures forall k :: 0 <= k < |r| ==> IsAttribute(t, r[k]) && Bound(t, x) <= r[k]
    ensures forall k, l :: 0 <= k < l < |r| ==> r[k] < r[l]
    decreases |t| - Bound(t, x)
  {
    match x
    case None => []
    case Some(i) =>
      if IsAttribute(t, i) then [i] + AttributesFrom(t, NextSibling(t, i))
      else if StopsAttributes(t, i) then []
      else AttributesFrom(t, NextSibling(t, i))
  }

  /** The Attributes property. */
  function AttributesOf(t: Tree, e: nat): seq<nat>
    requires WellFormed(t) && IsElement(t, e)
  {
    AttributesFrom(t, FirstChild(t, e))
  }

  /** a is one of the attributes the Attributes property lists: an
      attribute child of e with no stopping child of e before it. */
  ghost predicate LeadingAttribute(t: Tree, e: nat, a: nat) {
    IsChildOf(t, a, e) && IsAttribute(t, a) &&
    forall d :: e < d < a && IsChildOf(t, d, e) ==> !StopsAttributes(t, d)
  }

  lemma {:induction false} AttributesFromAreLeading(t: Tree, e: nat, x: Option<nat>)
    requires Spans(t) && ParentsCover(t) && RangesNest(t) && e < |t|
    requires x.Some? ==> IsChildOf(t, x.value, e)
    requires forall d :: e < d < Bound(t, x) && IsChildOf(t, d, e) ==> !StopsAttributes(t, d)
    ensures forall a :: a in AttributesFrom(t, x) <==> Bound(t, x) <= a && LeadingAttribute(t, e, a)
    decreases |t| - Bound(t, x)
  {
    if x.Some? {
      var i := x.value;
      var next := NextSibling(t, i);
      NextSiblingIsChild(t, e, i);
      NoChildBetween(t, e, i);
      if StopsAttributes(t, i) {
        assert forall a :: i < a ==> !LeadingAttribute(t, e, a);
      } else {
        AttributesFromAreLeading(t, e, next);
      }
    }
  }

  /** The Attributes property lists, in document order, exactly the
      attribute children of e that come before e's first child that is a
      token or not a lexical element. */
  lemma AttributesAreLeading(t: Tree, e: nat)
    requires WellFormed(t) && IsElement(t, e)
    ensures forall a :: a in AttributesOf(t, e) <==> LeadingAttribute(t, e, a)
    ensures forall k, l :: 0 <= k < l < |AttributesOf(t, e)| ==> AttributesOf(t, e)[k] < AttributesOf(t, e)[l]
  {
    FirstChildIsChild(t, e);
    if FirstChild(t, e).None? {
      assert forall d :: e < d < |t| ==> !IsChildOf(t, d, e) by {
        forall d | e < d < |t| && IsChildOf(t, d, e) ensures false {
        }
      }
    }
    AttributesFromAreLeading(t, e, FirstChild(t, e));
  }

  /** FindFirstChild<ElementHeader> from the child x on. */
  function HeaderFrom(t: Tree, x: Option<nat>): (r: Option<nat>)
    requires Spans(t) && ParentsCover(t) && (x.Some? ==> x.value < |t|)
    ensures r.Some? ==> IsHeader(t, r.value) && Bound(t, x) <= r.value
    decreases |t| - Bound(t, x)
  {
    match x
    case None => None
    case Some(i) => if IsHeader(t, i) then Some(i) else HeaderFrom(t, NextSibling(t, i))
  }

  /** The Header property. */
  function HeaderOf(t: Tree, e: nat): Option<nat>
    requires WellFormed(t) && IsElement(t, e)
  {
    HeaderFrom(t, FirstChild(t, e))
  }

  lemma {:induction false} HeaderFromIsFirst(t: Tree, e: nat, x: Option<nat>)
    requires Spans(t) && ParentsCover(t) && RangesNest(t) && e < |t|
    requires x.Some? ==> IsChildOf(t, x.value, e)
    ensures var r := HeaderFrom(t, x);
      && (r.Some? ==>
            IsChildOf(t, r.value, e) &&
            (forall d :: Bound(t, x) <= d < r.value && IsChildOf(t, d, e) ==> !IsHeader(t, d)))
      && (r.None? ==> forall d :: Bound(t, x) <= d && IsChildOf(t, d, e) ==> !IsHeader(t, d))
    decreases |t| - Bound(t, x)
  {
    if x.Some? && !IsHeader(t, x.value) {
      NextSiblingIsChild(t, e, x.value);
      NoChildBetween(t, e, x.value);
      HeaderFromIsFirst(t, e, NextSibling(t, x.value));
    }
  }

  /** The Header property is e's first child that is a header, and is
      missing exactly when no child of e is a header. */
  lemma HeaderIsFirstHeaderChild(t: Tree, e: nat)
    requires WellFormed(t) && IsElement(t, e)
    ensures var r := HeaderOf(t, e);
      && (r.Some? ==>
            IsChildOf(t, r.value, e) && IsHeader(t, r.value) &&
            (forall d: nat :: d < r.value && IsChildOf(t, d, e) ==> !IsHeader(t, d)))
      && (r.None? ==> forall d :: IsChildOf(t, d, e) ==> !IsHeader(t, d))
  {
    FirstChildIsChild(t, e);
    HeaderFromIsFirst(t, e, FirstChild(t, e));
  }

  // ---------------------------------------------------------------------
  // Line number.

  /** The LineNumber property: the line of the first declaration token, and
      the unit's own line when there is none. */
  function LineNumberOf(t: Tree, e: nat): int
    requires WellFormed(t) && IsElement(t, e)
  {
    match FirstDeclToken(t, e)
    case Some(f) => t[f].line
    case None => t[e].line
  }

  /** The line number skips the documentation header and the attributes: it
      is the line of the first token of e that is not inside an attribute. */
  lemma LineNumberSkipsAttributes(t: Tree, e: nat)
    requires WellFormed(t) && IsElement(t, e)
    ensures forall f :: (e < f <= t[e].last && IsToken(t, f) && !InAttribute(t, e, f) &&
                         (forall j :: e < j < f && IsToken(t, j) ==> InAttribute(t, e, j))) ==>
                        LineNumberOf(t, e) == t[f].line
    ensures (forall j :: e < j <= t[e].last && IsToken(t, j) ==> InAttribute(t, e, j)) ==> LineNumberOf(t, e) == t[e].line
  {
    FirstDeclTokenIsFirst(t, e);
  }
}
