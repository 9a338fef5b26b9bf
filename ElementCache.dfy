/** The cached properties of Element. Each element keeps one CachedValue per
    property; a getter fills its cache on first use and returns the cached
    value from then on, and Reset clears the caches. The elements of a
    document are held together in one store, indexed like the code unit
    arena, because a property of one element (ActualAccessLevel, Unsafe,
    FullyQualifiedName) fills the caches of its parent chain as well.

    The invariant Valid says that every filled cache holds the value the
    functions of ElementProperties give; the exception is the unsafe flag,
    which the source sets to false before computing it, so that after a
    modifier scan has raised an error it may be left holding false. */
module ElementCache {

  import opened Wrappers
  import opened Text
  import opened Access
  import opened CodeTree
  import opened Modifiers
  import opened DeclarationSpan
  import opened ChildWalk
  import opened ElementProperties

  /** The CachedValue fields of one element; None is a cache that is not
      initialised. */
  datatype Caches = Caches(
    attributes: Option<seq<nat>>,
    name: Option<string>,
    accessModifier: Option<AccessModifierType>,
    actualAccessLevel: Option<AccessModifierType>,
    modifiers: Option<map<TokenType, nat>>,
    unsafeCode: Option<bool>,
    fullyQualifiedName: Option<string>,
    firstDeclarationToken: Option<Option<nat>>,
    lastDeclarationToken: Option<Option<nat>>,
    header: Option<Option<nat>>,
    lineNumber: Option<int>)

  const NoCaches := Caches(None, None, None, None, None, None, None, None, None, None, None)

  /** Every filled cache of element e holds that property's value. The
      modifier scan sets the modifiers and accessModifier caches together. */
  ghost predicate Agrees(t: Tree, e: nat, c: Caches)
    requires WellFormed(t) && IsElement(t, e)
  {
    && (c.attributes.Some? ==> c.attributes.value == AttributesOf(t, e))
    && (c.name.Some? ==> c.name.value == t[e].kind.name)
    && (c.accessModifier.Some? <==> c.modifiers.Some?)
    && (c.accessModifier.Some? ==> c.accessModifier.value == LocalAccess(t, e))
    && (c.modifiers.Some? ==> c.modifiers.value == ModifierScan(t, e).modifiers)
    && (c.actualAccessLevel.Some? ==> c.actualAccessLevel.value == ActualAccessOf(t, e))
    && (c.unsafeCode == Some(true) ==> UnsafeOf(t, e))
    && (c.unsafeCode.Some? && ChainScansOk(t, e) ==> c.unsafeCode.value == UnsafeOf(t, e))
    && (c.fullyQualifiedName.Some? ==> c.fullyQualifiedName.value == FullyQualifiedNameOf(t, e))
    && (c.firstDeclarationToken.Some? ==> c.firstDeclarationToken.value == FirstDeclToken(t, e))
    && (c.lastDeclarationToken.Some? ==> c.lastDeclarationToken.value == LastDeclToken(t, e))
    && (c.header.Some? ==> c.header.value == HeaderOf(t, e))
    && (c.lineNumber.Some? ==> c.lineNumber.value == LineNumberOf(t, e))
  }

  ghost predicate AllAgree(t: Tree, cs: seq<Caches>)
    requires WellFormed(t)
  {
    |cs| == |t| && forall e: nat {:trigger Agrees(t, e, cs[e])} :: IsElement(t, e) ==> Agrees(t, e, cs[e])
  }

  /** b keeps every cache that a has filled. */
  predicate Keeps(a: Caches, b: Caches) {
    && (a.attributes.Some? ==> b.attributes == a.attributes)
    && (a.name.Some? ==> b.name == a.name)
    && (a.accessModifier.Some? ==> b.accessModifier == a.accessModifier)
    && (a.actualAccessLevel.Some? ==> b.actualAccessLevel == a.actualAccessLevel)
    && (a.modifiers.Some? ==> b.modifiers == a.modifiers)
    && (a.unsafeCode.Some? ==> b.unsafeCode == a.unsafeCode)
    && (a.fullyQualifiedName.Some? ==> b.fullyQualifiedName == a.fullyQualifiedName)
    && (a.firstDeclarationToken.Some? ==> b.firstDeclarationToken == a.firstDeclarationToken)
    && (a.lastDeclarationToken.Some? ==> b.lastDeclarationToken == a.lastDeclarationToken)
    && (a.header.Some? ==> b.header == a.header)
    && (a.lineNumber.Some? ==> b.lineNumber == a.lineNumber)
  }

  /** Every element keeps its filled caches. */
  predicate AllKept(a: seq<Caches>, b: seq<Caches>) {
    |a| == |b| && forall i :: 0 <= i < |a| ==> Keeps(a[i], b[i])
  }

  lemma KeptTrans(a: seq<Caches>, b: seq<Caches>, c: seq<Caches>)
    requires AllKept(a, b) && AllKept(b, c)
    ensures AllKept(a, c)
  {
  }

  /** Caches that hold their property's value may be stored over any
      caches that agree: they keep every filled cache. */
  lemma Fill(t: Tree, cs: seq<Caches>, e: nat, c: Caches)
    requires WellFormed(t) && AllAgree(t, cs) && IsElement(t, e) && Agrees(t, e, c)
    requires Keeps(cs[e], c)
    ensures AllAgree(t, cs[e := c]) && AllKept(cs, cs[e := c])
  {
  }

  lemma FillName(t: Tree, cs: seq<Caches>, e: nat)
    requires WellFormed(t) && AllAgree(t, cs) && IsElement(t, e)
    ensures var c := cs[e].(name := Some(t[e].kind.name));
      AllAgree(t, cs[e := c]) && AllKept(cs, cs[e := c])
  {
    assert Agrees(t, e, cs[e]);
    Fill(t, cs, e, cs[e].(name := Some(t[e].kind.name)));
  }

  lemma FillFirstDeclarationToken(t: Tree, cs: seq<Caches>, e: nat, v: Option<nat>)
    requires WellFormed(t) && AllAgree(t, cs) && IsElement(t, e) && v == FirstDeclToken(t, e)
    ensures var c := cs[e].(firstDeclarationToken := Some(v));
      AllAgree(t, cs[e := c]) && AllKept(cs, cs[e := c])
  {
    assert Agrees(t, e, cs[e]);
    Fill(t, cs, e, cs[e].(firstDeclarationToken := Some(v)));
  }

  lemma FillLastDeclarationToken(t: Tree, cs: seq<Caches>, e: nat, v: Option<nat>)
    requires WellFormed(t) && AllAgree(t, cs) && IsElement(t, e) && v == LastDeclToken(t, e)
    ensures var c := cs[e].(lastDeclarationToken := Some(v));
      AllAgree(t, cs[e := c]) && AllKept(cs, cs[e := c])
  {
    assert Agrees(t, e, cs[e]);
    Fill(t, cs, e, cs[e].(lastDeclarationToken := Some(v)));
  }

  lemma FillModifiers(t: Tree, cs: seq<Caches>, e: nat, v: ScanState)
    requires WellFormed(t) && AllAgree(t, cs) && IsElement(t, e) && v == ModifierScan(t, e)
    ensures var c := cs[e].(modifiers := Some(v.modifiers), accessModifier := Some(v.access));
      AllAgree(t, cs[e := c]) && AllKept(cs, cs[e := c])
  {
    assert Agrees(t, e, cs[e]);
    Fill(t, cs, e, cs[e].(modifiers := Some(v.modifiers), accessModifier := Some(v.access)));
  }

  lemma FillActualAccessLevel(t: Tree, cs: seq<Caches>, e: nat, v: AccessModifierType)
    requires WellFormed(t) && AllAgree(t, cs) && IsElement(t, e) && v == ActualAccessOf(t, e)
    ensures var c := cs[e].(actualAccessLevel := Some(v));
      AllAgree(t, cs[e := c]) && AllKept(cs, cs[e := c])
  {
    assert Agrees(t, e, cs[e]);
    Fill(t, cs, e, cs[e].(actualAccessLevel := Some(v)));
  }

  /** The unsafe flag may be stored while it is not initialised: true only
      when the element is unsafe, and the right value when no scan on the
      parent chain raises an error. */
  lemma FillUnsafe(t: Tree, cs: seq<Caches>, e: nat, v: bool)
    requires WellFormed(t) && AllAgree(t, cs) && IsElement(t, e) && cs[e].unsafeCode.None?
    requires v ==> UnsafeOf(t, e)
    requires ChainScansOk(t, e) ==> v == UnsafeOf(t, e)
    ensures var c := cs[e].(unsafeCode := Some(v));
      AllAgree(t, cs[e := c]) && AllKept(cs, cs[e := c])
  {
    assert Agrees(t, e, cs[e]);
    Fill(t, cs, e, cs[e].(unsafeCode := Some(v)));
  }

  lemma FillFullyQualifiedName(t: Tree, cs: seq<Caches>, e: nat, v: string)
    requires WellFormed(t) && AllAgree(t, cs) && IsElement(t, e) && v == FullyQualifiedNameOf(t, e)
    ensures var c := cs[e].(fullyQualifiedName := Some(v));
      AllAgree(t, cs[e := c]) && AllKept(cs, cs[e := c])
  {
    assert Agrees(t, e, cs[e]);
    Fill(t, cs, e, cs[e].(fullyQualifiedName := Some(v)));
  }

  lemma FillAttributes(t: Tree, cs: seq<Caches>, e: nat, v: seq<nat>)
    requires WellFormed(t) && AllAgree(t, cs) && IsElement(t, e) && v == AttributesOf(t, e)
    ensures var c := cs[e].(attributes := Some(v));
      AllAgree(t, cs[e := c]) && AllKept(cs, cs[e := c])
  {
    assert Agrees(t, e, cs[e]);
    Fill(t, cs, e, cs[e].(attributes := Some(v)));
  }

  lemma FillHeader(t: Tree, cs: seq<Caches>, e: nat, v: Option<nat>)
    requires WellFormed(t) && AllAgree(t, cs) && IsElement(t, e) && v == HeaderOf(t, e)
    ensures var c := cs[e].(header := Some(v));
      AllAgree(t, cs[e := c]) && AllKept(cs, cs[e := c])
  {
    assert Agrees(t, e, cs[e]);
    Fill(t, cs, e, cs[e].(header := Some(v)));
  }

  lemma FillLineNumber(t: Tree, cs: seq<Caches>, e: nat, v: int)
    requires WellFormed(t) && AllAgree(t, cs) && IsElement(t, e) && v == LineNumberOf(t, e)
    ensures var c := cs[e].(lineNumber := Some(v));
      AllAgree(t, cs[e := c]) && AllKept(cs, cs[e := c])
  {
    assert Agrees(t, e, cs[e]);
    Fill(t, cs, e, cs[e].(lineNumber := Some(v)));
  }

  /** Only the caches of e and of the elements above it may differ. */
  predicate SameOffChain(t: Tree, a: seq<Caches>, b: seq<Caches>, e: nat)
    requires ParentsCover(t) && e < |t|
  {
    |a| == |b| && forall i :: 0 <= i < |a| && !IsAncestorOrSelf(t, i, e) ==> a[i] == b[i]
  }

  /** The elements of one document and their caches. */
  class ElementStore {
    const tree: Tree
    var caches: seq<Caches>

    ghost predicate Valid()
      reads this
    {
      WellFormed(tree) && AllAgree(tree, caches)
    }

    /** Every cache starts out not initialised. */
    constructor (t: Tree)
      requires WellFormed(t)
      ensures tree == t && caches == seq(|t|, _ => NoCaches)
      ensures Valid()
    {
      tree := t;
      caches := seq(|t|, _ => NoCaches);
    }

    /** Reset: clears every cache of e except the actual access level. */
    method Reset(e: nat)
      requires Valid() && IsElement(tree, e)
      modifies this
      ensures caches == old(caches)[e := NoCaches.(actualAccessLevel := old(caches[e].actualAccessLevel))]
      ensures Valid()
    {
      assert Agrees(tree, e, caches[e]);
      caches := caches[e := NoCaches.(actualAccessLevel := caches[e].actualAccessLevel)];
    }

    /** The Name property: GetElementName, cached. */
    method Name(e: nat) returns (r: string)
      requires Valid() && IsElement(tree, e)
      modifies this
      ensures Valid() && AllKept(old(caches), caches)
      ensures r == tree[e].kind.name
      ensures caches == old(caches)[e := old(caches[e]).(name := Some(r))]
    {
      assert Agrees(tree, e, caches[e]);
      if caches[e].name.None? {
        FillName(tree, caches, e);
        caches := caches[e := caches[e].(name := Some(tree[e].kind.name))];
      }
      r := caches[e].name.value;
    }

    /** The FirstDeclarationToken property. */
    method FirstDeclarationToken(e: nat) returns (r: Option<nat>)
      requires Valid() && IsElement(tree, e)
      modifies this
      ensures Valid() && AllKept(old(caches), caches)
      ensures r == FirstDeclToken(tree, e)
      ensures caches == old(caches)[e := old(caches[e]).(firstDeclarationToken := Some(r))]
    {
      assert Agrees(tree, e, caches[e]);
      if caches[e].firstDeclarationToken.None? {
        var first := FindFirstDeclarationToken(tree, e);
        FillFirstDeclarationToken(tree, caches, e, first);
        caches := caches[e := caches[e].(firstDeclarationToken := Some(first))];
      }
      r := caches[e].firstDeclarationToken.value;
    }

    /** The LastDeclarationToken property. */
    method LastDeclarationToken(e: nat) returns (r: Option<nat>)
      requires Valid() && IsElement(tree, e)
      modifies this
      ensures Valid() && AllKept(old(caches), caches)
      ensures r == LastDeclToken(tree, e)
      ensures old(caches[e].lastDeclarationToken).Some? ==> caches == old(caches)
      ensures old(caches[e].lastDeclarationToken).None? ==>
        caches == old(caches)[e := old(caches[e]).(firstDeclarationToken := Some(FirstDeclToken(tree, e)),
                                                    lastDeclarationToken := Some(r))]
    {
      assert Agrees(tree, e, caches[e]);
      if caches[e].lastDeclarationToken.None? {
        ghost var before := caches;
        var first := FirstDeclarationToken(e);
        var last := FindLastDeclarationToken(tree, e, first);
        FillLastDeclarationToken(tree, caches, e, last);
        KeptTrans(before, caches, caches[e := caches[e].(lastDeclarationToken := Some(last))]);
        caches := caches[e := caches[e].(lastDeclarationToken := Some(last))];
      }
      r := caches[e].lastDeclarationToken.value;
    }

    /** The instance part of GatherDeclarationModifiers: runs the scan from
        the first declaration token and stores the modifiers and the access
        level it reached, also when it raised an error. */
    method FillModifierCaches(e: nat) returns (error: Option<ModifierError>)
      requires Valid() && IsElement(tree, e)
      modifies this
      ensures Valid() && AllKept(old(caches), caches)
      ensures error == ModifierScan(tree, e).error
      ensures caches == old(caches)[e := old(caches[e]).(firstDeclarationToken := Some(FirstDeclToken(tree, e)),
        modifiers := Some(ModifierScan(tree, e).modifiers), accessModifier := Some(LocalAccess(tree, e)))]
    {
      assert Agrees(tree, e, caches[e]);
      ghost var before := caches;
      var first := FirstDeclarationToken(e);
      var scan := GatherDeclarationModifiers(tree, first, tree[e].kind.allowedModifiers, tree[e].kind.defaultAccess);
      FillModifiers(tree, caches, e, scan);
      KeptTrans(before, caches, caches[e := caches[e].(modifiers := Some(scan.modifiers), accessModifier := Some(scan.access))]);
      caches := caches[e := caches[e].(modifiers := Some(scan.modifiers), accessModifier := Some(scan.access))];
      error := scan.error;
    }

    /** The AccessModifierType property: the local access level. The scan's
        error reaches the caller only from the call that runs the scan. */
    method AccessModifier(e: nat) returns (r: Result<AccessModifierType, ModifierError>)
      requires Valid() && IsElement(tree, e)
      modifies this
      ensures Valid() && AllKept(old(caches), caches)
      ensures r.Ok? ==> r.value == LocalAccess(tree, e)
      ensures r.Err? ==> old(caches[e].accessModifier).None? && ModifierScan(tree, e).error == Some(r.error)
      ensures ModifierScan(tree, e).error.None? ==> r.Ok?
      ensures old(caches[e].accessModifier).Some? ==> caches == old(caches)
      ensures old(caches[e].accessModifier).None? ==>
        caches == old(caches)[e := old(caches[e]).(firstDeclarationToken := Some(FirstDeclToken(tree, e)),
          modifiers := Some(ModifierScan(tree, e).modifiers), accessModifier := Some(LocalAccess(tree, e)))]
    {
      assert Agrees(tree, e, caches[e]);
      if caches[e].accessModifier.None? {
        var error := FillModifierCaches(e);
        if error.Some? {
          return Err(error.value);
        }
      }
      r := Ok(caches[e].accessModifier.value);
    }

    /** ContainsModifier: whether any of the given types is among e's
        recorded modifiers. */
    method ContainsModifier(e: nat, types: seq<TokenType>) returns (r: Result<bool, ModifierError>)
      requires Valid() && IsElement(tree, e)
      modifies this
      ensures Valid() && AllKept(old(caches), caches)
      ensures r.Ok? ==> (r.value <==> exists i :: 0 <= i < |types| && types[i] in ModifierScan(tree, e).modifiers)
      ensures r.Err? ==> old(caches[e].modifiers).None? && ModifierScan(tree, e).error == Some(r.error)
      ensures ModifierScan(tree, e).error.None? ==> r.Ok?
      ensures old(caches[e].modifiers).Some? ==> caches == old(caches)
      ensures old(caches[e].modifiers).None? ==>
        caches == old(caches)[e := old(caches[e]).(firstDeclarationToken := Some(FirstDeclToken(tree, e)),
          modifiers := Some(ModifierScan(tree, e).modifiers), accessModifier := Some(LocalAccess(tree, e)))]
    {
      assert Agrees(tree, e, caches[e]);
      if caches[e].modifiers.None? {
        var error := FillModifierCaches(e);
        if error.Some? {
          return Err(error.value);
        }
      }
      var found := AnyRecorded(caches[e].modifiers.value, types);
      r := Ok(found);
    }

    /** The DeclaresAccessModifier property. */
    method DeclaresAccessModifier(e: nat) returns (r: Result<bool, ModifierError>)
      requires Valid() && IsElement(tree, e)
      modifies this
      ensures Valid() && AllKept(old(caches), caches)
      ensures r.Ok? ==> (r.value <==> HasAccessModifier(ModifierScan(tree, e).modifiers))
      ensures r.Err? ==> old(caches[e].modifiers).None? && ModifierScan(tree, e).error == Some(r.error)
      ensures ModifierScan(tree, e).error.None? ==> r.Ok?
      ensures old(caches[e].modifiers).Some? ==> caches == old(caches)
      ensures old(caches[e].modifiers).None? ==>
        caches == old(caches)[e := old(caches[e]).(firstDeclarationToken := Some(FirstDeclToken(tree, e)),
          modifiers := Some(ModifierScan(tree, e).modifiers), accessModifier := Some(LocalAccess(tree, e)))]
    {
      assert Agrees(tree, e, caches[e]);
      var types := [TokenType.Public, TokenType.Internal, TokenType.Protected, TokenType.Private];
      r := ContainsModifier(e, types);
      if r.Ok? {
        AccessTypesListed(ModifierScan(tree, e).modifiers, types);
      }
    }

    /** The ActualAccessLevel property: ComputeActualAccess, cached when it
        succeeds. A private element does not consult its parent. The caches
        of e and of the elements above it may be filled. */
    method ActualAccessLevel(e: nat) returns (r: Result<AccessModifierType, ModifierError>)
      requires Valid() && IsElement(tree, e)
      modifies this
      ensures Valid() && AllKept(old(caches), caches) && SameOffChain(tree, old(caches), caches, e)
      ensures r.Ok? ==> r.value == ActualAccessOf(tree, e) && caches[e].actualAccessLevel == Some(r.value)
      ensures ChainScansOk(tree, e) ==> r.Ok?
      decreases e
    {
      assert Agrees(tree, e, caches[e]);
      if caches[e].actualAccessLevel.Some? {
        return Ok(caches[e].actualAccessLevel.value);
      }
      ghost var before := caches;
      var local := AccessModifier(e);
      if local.Err? {
        return Err(local.error);
      }
      var access := local.value;
      var parent := ParentElement(tree, e);
      if access != AccessModifierType.Private && parent.Some? {
        ghost var middle := caches;
        var parentAccess := ActualAccessLevel(parent.value);
        KeptTrans(before, middle, caches);
        if parentAccess.Err? {
          return Err(parentAccess.error);
        }
        access := ActualAccess(access, Some(parentAccess.value));
      }
      FillActualAccessLevel(tree, caches, e, access);
      KeptTrans(before, caches, caches[e := caches[e].(actualAccessLevel := Some(access))]);
      caches := caches[e := caches[e].(actualAccessLevel := Some(access))];
      r := Ok(access);
    }

    /** The Unsafe property: e declares `unsafe` or its parent is unsafe. The
        source stores false before it looks, so a scan error on the way
        leaves false in the cache; the model stores that false where the
        error arises, which no call that succeeds can tell apart. The caches
        of e and of the elements above it may be filled. */
    method Unsafe(e: nat) returns (r: Result<bool, ModifierError>)
      requires Valid() && IsElement(tree, e)
      modifies this
      ensures Valid() && AllKept(old(caches), caches) && SameOffChain(tree, old(caches), caches, e)
      ensures r == Ok(true) ==> UnsafeOf(tree, e)
      ensures r.Ok? && ChainScansOk(tree, e) ==> r.value == UnsafeOf(tree, e)
      ensures ChainScansOk(tree, e) ==> r.Ok?
      ensures caches[e].unsafeCode.Some?
      decreases e
    {
      assert Agrees(tree, e, caches[e]);
      if caches[e].unsafeCode.Some? {
        return Ok(caches[e].unsafeCode.value);
      }
      ghost var before := caches;
      var declared := ContainsModifier(e, [TokenType.Unsafe]);
      var value := false;
      var parent := ParentElement(tree, e);
      if declared.Err? {
        r := Err(declared.error);
      } else if declared.value {
        assert [TokenType.Unsafe][0] == TokenType.Unsafe;
        value := true;
        r := Ok(true);
      } else if parent.Some? {
        ghost var middle := caches;
        var parentUnsafe := Unsafe(parent.value);
        AncestorNotAfter(tree, e, parent.value);
        KeptTrans(before, middle, caches);
        if parentUnsafe.Err? {
          r := Err(parentUnsafe.error);
        } else {
          value := parentUnsafe.value;
          r := Ok(value);
        }
      } else {
        r := Ok(false);
      }
      FillUnsafe(tree, caches, e, value);
      KeptTrans(before, caches, caches[e := caches[e].(unsafeCode := Some(value))]);
      caches := caches[e := caches[e].(unsafeCode := Some(value))];
    }

    /** The FullyQualifiedName property. The caches of e and of the elements
        above it may be filled. */
    method FullyQualifiedName(e: nat) returns (r: string)
      requires Valid() && IsElement(tree, e)
      modifies this
      ensures Valid() && AllKept(old(caches), caches) && SameOffChain(tree, old(caches), caches, e)
      ensures r == FullyQualifiedNameOf(tree, e) && caches[e].fullyQualifiedName == Some(r)
      decreases e
    {
      assert Agrees(tree, e, caches[e]);
      if caches[e].fullyQualifiedName.Some? {
        return caches[e].fullyQualifiedName.value;
      }
      ghost var before := caches;
      var parentName := "";
      var parent := ParentElement(tree, e);
      if parent.Some? && tree[parent.value].kind.elementType != Document {
        parentName := FullyQualifiedName(parent.value);
      }
      ghost var middle := caches;
      var name := Name(e);
      KeptTrans(before, middle, caches);
      var withWhitespace := if parentName == [] then name else parentName + "." + name;
      r := RemoveWhitespace(withWhitespace);
      FillFullyQualifiedName(tree, caches, e, r);
      KeptTrans(before, caches, caches[e := caches[e].(fullyQualifiedName := Some(r))]);
      caches := caches[e := caches[e].(fullyQualifiedName := Some(r))];
    }

    /** The Attributes property: the walk over e's children, collecting
        attributes until a child that is a token or not a lexical element. */
    method Attributes(e: nat) returns (r: seq<nat>)
      requires Valid() && IsElement(tree, e)
      modifies this
      ensures Valid() && AllKept(old(caches), caches)
      ensures r == AttributesOf(tree, e)
      ensures caches == old(caches)[e := old(caches[e]).(attributes := Some(r))]
    {
      assert Agrees(tree, e, caches[e]);
      if caches[e].attributes.Some? {
        return caches[e].attributes.value;
      }
      r := CollectAttributes(tree, e);
      FillAttributes(tree, caches, e, r);
      caches := caches[e := caches[e].(attributes := Some(r))];
    }

    /** The Header property: e's first child that is a header. */
    method Header(e: nat) returns (r: Option<nat>)
      requires Valid() && IsElement(tree, e)
      modifies this
      ensures Valid() && AllKept(old(caches), caches)
      ensures r == HeaderOf(tree, e)
      ensures caches == old(caches)[e := old(caches[e]).(header := Some(r))]
    {
      assert Agrees(tree, e, caches[e]);
      if caches[e].header.None? {
        FillHeader(tree, caches, e, HeaderOf(tree, e));
        caches := caches[e := caches[e].(header := Some(HeaderOf(tree, e)))];
      }
      r := caches[e].header.value;
    }

    /** The LineNumber property: the line of the first declaration token, or
        the unit's own line when there is none. */
    method LineNumber(e: nat) returns (r: int)
      requires Valid() && IsElement(tree, e)
      modifies this
      ensures Valid() && AllKept(old(caches), caches)
      ensures r == LineNumberOf(tree, e)
      ensures old(caches[e].lineNumber).Some? ==> caches == old(caches)
      ensures old(caches[e].lineNumber).None? ==>
        caches == old(caches)[e := old(caches[e]).(firstDeclarationToken := Some(FirstDeclToken(tree, e)),
                                                    lineNumber := Some(r))]
    {
      assert Agrees(tree, e, caches[e]);
      if caches[e].lineNumber.Some? {
        return caches[e].lineNumber.value;
      }
      ghost var before := caches;
      var first := FirstDeclarationToken(e);
      r := if first.Some? then tree[first.value].line else tree[e].line;
      FillLineNumber(tree, caches, e, r);
      KeptTrans(before, caches, caches[e := caches[e].(lineNumber := Some(r))]);
      caches := caches[e := caches[e].(lineNumber := Some(r))];
    }
  }

  /** The loop of the Attributes property over e's children. */
  method CollectAttributes(t: Tree, e: nat) returns (r: seq<nat>)
    requires WellFormed(t) && IsElement(t, e)
    ensures r == AttributesOf(t, e)
  {
    r := [];
    var item: Option<nat> := FirstChild(t, e);
    ghost var whole := AttributesFrom(t, item);
    while item.Some?
      invariant item.Some? ==> item.value < |t|
      invariant r + AttributesFrom(t, item) == whole
      decreases |t| - Bound(t, item)
    {
      var i := item.value;
      var next := NextSibling(t, i);
      ghost var rest := AttributesFrom(t, next);
      if IsAttribute(t, i) {
        assert r + ([i] + rest) == (r + [i]) + rest;
        r := r + [i];
      } else if !IsLexical(t, i) || IsToken(t, i) {
        assert r + [] == r;
        break;
      }
      item := next;
    }
  }

  /** The loop of ContainsModifier: whether any of the types is a key of
      the recorded modifiers. */
  method AnyRecorded(m: map<TokenType, nat>, types: seq<TokenType>) returns (found: bool)
    ensures found <==> exists i :: 0 <= i < |types| && types[i] in m
  {
    var i := 0;
    while i < |types|
      invariant 0 <= i <= |types|
      invariant forall k :: 0 <= k < i ==> types[k] !in m
    {
      if types[i] in m {
        return true;
      }
      i := i + 1;
    }
    return false;
  }

  /** ContainsModifier(Public, Internal, Protected, Private). */
  lemma AccessTypesListed(m: map<TokenType, nat>, types: seq<TokenType>)
    requires types == [TokenType.Public, TokenType.Internal, TokenType.Protected, TokenType.Private]
    ensures HasAccessModifier(m) <==> exists i :: 0 <= i < |types| && types[i] in m
  {
    if TokenType.Public in m { assert types[0] in m; }
    if TokenType.Internal in m { assert types[1] in m; }
    if TokenType.Protected in m { assert types[2] in m; }
    if TokenType.Private in m { assert types[3] in m; }
  }
}
