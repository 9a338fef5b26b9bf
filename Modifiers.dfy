/** The modifier scan of Element.cs (GatherDeclarationModifiers and
    GetOtherElementModifier): starting at the first declaration token, it
    walks the sibling tokens, computes the element's local access level from
    the access keywords and records every allowed modifier, stopping at the
    first token that is neither. */
module Modifiers {

  import opened Wrappers
  import opened Access
  import opened CodeTree

  /** SyntaxException at a line, and the ArgumentException that
      Dictionary.Add raises when the same token type is recorded twice. */
  datatype ModifierError = SyntaxError(line: int) | DuplicateModifier(line: int)

  /** One declaration token as the scan sees it: its type, its text, its line
      and the unit that holds it. */
  datatype DeclToken = DeclToken(tokenType: TokenType, text: string, line: int, unit: nat)

  /** The state of the scan: the access level so far, the type of the last
      access keyword seen, the modifiers recorded so far, whether the scan
      has stopped at an unrecognised token and the error it has raised. */
  datatype ScanState = ScanState(
    access: AccessModifierType,
    seen: Option<TokenType>,
    modifiers: map<TokenType, nat>,
    stopped: bool,
    error: Option<ModifierError>)

  function InitialScan(default: AccessModifierType): ScanState {
    ScanState(default, None, map[], false, None)
  }

  predicate Finished(st: ScanState) {
    st.stopped || st.error.Some?
  }

  /** A token the scan consumes: an access keyword or a token whose text is,
      ordinally, one of the allowed modifiers. */
  predicate Recognized(tok: DeclToken, allowed: seq<string>) {
    IsAccessKeyword(tok.tokenType) || tok.text in allowed
  }

  /** The three cases in which an access keyword is rejected: public or
      private after any access keyword, internal after an access keyword
      other than protected, protected after one other than internal. */
  predicate Conflicts(seen: Option<TokenType>, tt: TokenType) {
    seen.Some? &&
    (tt == TokenType.Public || tt == TokenType.Private ||
     (tt == TokenType.Internal && seen.value != TokenType.Protected) ||
     (tt == TokenType.Protected && seen.value != TokenType.Internal))
  }

  /** Dictionary.Add of the token under its type. */
  function AddModifier(st: ScanState, tok: DeclToken): (r: ScanState)
    ensures tok.tokenType in st.modifiers ==> r == st.(error := Some(DuplicateModifier(tok.line)))
    ensures tok.tokenType !in st.modifiers ==> r == st.(modifiers := st.modifiers[tok.tokenType := tok.unit])
  {
    if tok.tokenType in st.modifiers then st.(error := Some(DuplicateModifier(tok.line)))
    else st.(modifiers := st.modifiers[tok.tokenType := tok.unit])
  }

  /** One iteration of the scan loop. */
  function Step(st: ScanState, tok: DeclToken, allowed: seq<string>): (r: ScanState)
    requires !Finished(st)
    ensures IsAccessKeyword(tok.tokenType) && Conflicts(st.seen, tok.tokenType) ==>
      r == st.(error := Some(SyntaxError(tok.line)))
    ensures !Recognized(tok, allowed) ==> r == st.(stopped := true)
    ensures !IsAccessKeyword(tok.tokenType) ==> r.access == st.access && r.seen == st.seen
    ensures IsAccessKeyword(tok.tokenType) && !Conflicts(st.seen, tok.tokenType) ==> r.seen == Some(tok.tokenType)
    ensures r.error.Some? ==> r.error == Some(SyntaxError(tok.line)) || r.error == Some(DuplicateModifier(tok.line))
  {
    match tok.tokenType
    case Public =>
      if st.seen.Some? then st.(error := Some(SyntaxError(tok.line)))
      else AddModifier(st.(access := AccessModifierType.Public, seen := Some(TokenType.Public)), tok)
    case Private =>
      if st.seen.Some? then st.(error := Some(SyntaxError(tok.line)))
      else AddModifier(st.(access := AccessModifierType.Private, seen := Some(TokenType.Private)), tok)
    case Internal =>
      if st.seen.None? then
        AddModifier(st.(access := AccessModifierType.Internal, seen := Some(TokenType.Internal)), tok)
      else if st.seen.value == TokenType.Protected then
        AddModifier(st.(access := ProtectedInternal, seen := Some(TokenType.Internal)), tok)
      else st.(error := Some(SyntaxError(tok.line)))
    case Protected =>
      if st.seen.None? then
        AddModifier(st.(access := AccessModifierType.Protected, seen := Some(TokenType.Protected)), tok)
      else if st.seen.value == TokenType.Internal then
        AddModifier(st.(access := ProtectedInternal, seen := Some(TokenType.Protected)), tok)
      else st.(error := Some(SyntaxError(tok.line)))
    case _ =>
      if tok.text in allowed then AddModifier(st, tok) else st.(stopped := true)
  }

  /** The scan over a token list, from a given state. */
  function Scan(toks: seq<DeclToken>, allowed: seq<string>, st: ScanState): ScanState
    decreases |toks|
  {
    if toks == [] || Finished(st) then st
    else Scan(toks[1..], allowed, Step(st, toks[0], allowed))
  }

  // ---------------------------------------------------------------------
  // Reference definition of the scan's outcome.

  /** The access keywords among the tokens, in order. */
  function AccessKeywords(toks: seq<DeclToken>): seq<TokenType>
    decreases |toks|
  {
    if toks == [] then []
    else
      var tt := toks[|toks| - 1].tokenType;
      AccessKeywords(toks[..|toks| - 1]) + (if IsAccessKeyword(tt) then [tt] else [])
  }

  /** The access keyword lists the scan accepts and the level each gives; any
      other list is rejected. */
  function KeywordAccess(kws: seq<TokenType>, default: AccessModifierType): Option<AccessModifierType> {
    if kws == [] then Some(default)
    else if kws == [TokenType.Public] then Some(AccessModifierType.Public)
    else if kws == [TokenType.Private] then Some(AccessModifierType.Private)
    else if kws == [TokenType.Internal] then Some(AccessModifierType.Internal)
    else if kws == [TokenType.Protected] then Some(AccessModifierType.Protected)
    else if kws == [TokenType.Protected, TokenType.Internal] || kws == [TokenType.Internal, TokenType.Protected] then
      Some(ProtectedInternal)
    else None
  }

  /** The index of the first token the scan does not recognise. */
  function FirstUnrecognized(toks: seq<DeclToken>, allowed: seq<string>): (k: nat)
    ensures k <= |toks|
    ensures forall i :: 0 <= i < k ==> Recognized(toks[i], allowed)
    ensures k < |toks| ==> !Recognized(toks[k], allowed)
    decreases |toks|
  {
    if toks == [] || !Recognized(toks[0], allowed) then 0
    else 1 + FirstUnrecognized(toks[1..], allowed)
  }

  /** No token type occurs twice. */
  predicate DistinctTypes(toks: seq<DeclToken>) {
    forall i, j :: 0 <= i < j < |toks| ==> toks[i].tokenType != toks[j].tokenType
  }

  /** The dictionary of recorded modifiers: each token under its type. */
  function ModifierMap(toks: seq<DeclToken>): map<TokenType, nat>
    decreases |toks|
  {
    if toks == [] then map[]
    else ModifierMap(toks[..|toks| - 1])[toks[|toks| - 1].tokenType := toks[|toks| - 1].unit]
  }

  /** What the scan of a declaration must produce when its scanned tokens are
      `whole`: no error exactly when the access keywords form an accepted list
      and no token type repeats, and then the access level of that list and
      every scanned token recorded under its type. */
  ghost predicate ScanOutcome(r: ScanState, whole: seq<DeclToken>, default: AccessModifierType) {
    && (r.error.None? <==> KeywordAccess(AccessKeywords(whole), default).Some? && DistinctTypes(whole))
    && (r.error.None? ==>
          r.access == KeywordAccess(AccessKeywords(whole), default).value && r.modifiers == ModifierMap(whole))
  }

  // ---------------------------------------------------------------------
  // Proof that the scan meets the reference definition.

  function LastKeyword(kws: seq<TokenType>): Option<TokenType> {
    if kws == [] then None else Some(kws[|kws| - 1])
  }

  /** The scan has consumed `done` without stopping or failing. */
  ghost predicate Consumed(st: ScanState, done: seq<DeclToken>, allowed: seq<string>, default: AccessModifierType) {
    && (forall i :: 0 <= i < |done| ==> Recognized(done[i], allowed))
    && KeywordAccess(AccessKeywords(done), default).Some?
    && DistinctTypes(done)
    && st == ScanState(KeywordAccess(AccessKeywords(done), default).value, LastKeyword(AccessKeywords(done)),
                       ModifierMap(done), false, None)
  }

  lemma {:induction false} ModifierMapKeys(toks: seq<DeclToken>)
    ensures forall tt :: tt in ModifierMap(toks) <==> exists i :: 0 <= i < |toks| && toks[i].tokenType == tt
    decreases |toks|
  {
    if toks != [] {
      var n := |toks|;
      var front := toks[..n - 1];
      ModifierMapKeys(front);
      forall tt ensures tt in ModifierMap(toks) <==> exists i :: 0 <= i < n && toks[i].tokenType == tt {
        if tt in ModifierMap(front) {
          var i :| 0 <= i < n - 1 && front[i].tokenType == tt;
          assert toks[i].tokenType == tt;
        }
        if exists i :: 0 <= i < n && toks[i].tokenType == tt {
          var i :| 0 <= i < n && toks[i].tokenType == tt;
          if i < n - 1 { assert front[i].tokenType == tt; }
        }
      }
    }
  }

  lemma {:induction false} AccessKeywordsAppend(a: seq<DeclToken>, b: seq<DeclToken>)
    ensures AccessKeywords(a + b) == AccessKeywords(a) + AccessKeywords(b)
    decreases |b|
  {
    if b == [] {
      assert a + b == a;
    } else {
      var n := |b|;
      assert (a + b)[..|a + b| - 1] == a + b[..n - 1];
      assert (a + b)[|a + b| - 1] == b[n - 1];
      AccessKeywordsAppend(a, b[..n - 1]);
    }
  }

  /** Once the accepted-and-distinct condition fails for a prefix, it fails for
      every extension of it. */
  lemma KeywordAccessLong(kws: seq<TokenType>, default: AccessModifierType)
    requires |kws| >= 3
    ensures KeywordAccess(kws, default).None?
  {
  }

  /** A prefix of an accepted keyword list is accepted. */
  lemma KeywordAccessPrefix(ka: seq<TokenType>, kb: seq<TokenType>, default: AccessModifierType)
    requires KeywordAccess(ka + kb, default).Some?
    ensures KeywordAccess(ka, default).Some?
  {
    if kb == [] {
      assert ka + kb == ka;
    } else if |ka + kb| >= 3 {
      KeywordAccessLong(ka + kb, default);
    } else if ka != [] {
      assert |ka| == 1;
      assert (ka + kb)[0] == ka[0];
      assert ka == [ka[0]];
    }
  }

  /** Once the accepted-and-distinct condition fails for a prefix, it fails for
      every extension of it. */
  lemma RejectedExtends(a: seq<DeclToken>, b: seq<DeclToken>, default: AccessModifierType)
    requires !(KeywordAccess(AccessKeywords(a), default).Some? && DistinctTypes(a))
    ensures !(KeywordAccess(AccessKeywords(a + b), default).Some? && DistinctTypes(a + b))
  {
    if KeywordAccess(AccessKeywords(a + b), default).Some? && DistinctTypes(a + b) {
      AccessKeywordsAppend(a, b);
      KeywordAccessPrefix(AccessKeywords(a), AccessKeywords(b), default);
      assert DistinctTypes(a) by {
        forall i, j | 0 <= i < j < |a| ensures a[i].tokenType != a[j].tokenType {
          assert (a + b)[i] == a[i] && (a + b)[j] == a[j];
        }
      }
    }
  }

  /** An access keyword after an accepted keyword list: the scan fails when
      the extended list is rejected, and otherwise moves to the level of the
      extended list and records the keyword. */
  lemma KeywordStep(kws: seq<TokenType>, m: map<TokenType, nat>, tok: DeclToken, allowed: seq<string>, default: AccessModifierType)
    requires KeywordAccess(kws, default).Some? && IsAccessKeyword(tok.tokenType)
    requires |kws| == 2 ==> kws[0] in m && kws[1] in m
    ensures var st := ScanState(KeywordAccess(kws, default).value, LastKeyword(kws), m, false, None);
      var r := Step(st, tok, allowed);
      var ext := KeywordAccess(kws + [tok.tokenType], default);
      && (ext.None? ==> r.error.Some? && !r.stopped)
      && (ext.Some? ==> r == AddModifier(st.(access := ext.value, seen := Some(tok.tokenType)), tok))
  {
    var tt := tok.tokenType;
    if |kws| >= 2 {
      KeywordAccessLong(kws + [tt], default);
      assert kws == [TokenType.Protected, TokenType.Internal] || kws == [TokenType.Internal, TokenType.Protected];
    } else if |kws| == 1 {
      assert kws == [kws[0]];
      assert kws + [tt] == [kws[0], tt];
    } else {
      assert kws + [tt] == [tt];
    }
  }

  /** One step from a consumed prefix over a recognised token. */
  lemma StepConsumed(st: ScanState, done: seq<DeclToken>, tok: DeclToken, allowed: seq<string>, default: AccessModifierType)
    requires Consumed(st, done, allowed, default) && Recognized(tok, allowed)
    ensures var r := Step(st, tok, allowed);
      && !r.stopped
      && (r.error.None? <==> KeywordAccess(AccessKeywords(done + [tok]), default).Some? && DistinctTypes(done + [tok]))
      && (r.error.None? ==> Consumed(r, done + [tok], allowed, default))
  {
    var next := done + [tok];
    assert next[..|next| - 1] == done;
    assert next[|next| - 1] == tok;
    var kws := AccessKeywords(done);
    ModifierMapKeys(done);
    assert DistinctTypes(next) <==> tok.tokenType !in st.modifiers by {
      if tok.tokenType in st.modifiers {
        var i :| 0 <= i < |done| && done[i].tokenType == tok.tokenType;
        assert next[i].tokenType == next[|next| - 1].tokenType;
      }
      if !DistinctTypes(next) {
        var i, j :| 0 <= i < j < |next| && next[i].tokenType == next[j].tokenType;
        if j == |done| {
          assert done[i].tokenType == tok.tokenType;
        }
      }
    }
    if IsAccessKeyword(tok.tokenType) {
      assert AccessKeywords(next) == kws + [tok.tokenType];
      if |kws| == 2 {
        assert kws[0] in st.modifiers by {
          assert kws[0] in kws;
          AccessKeywordsMembers(done, kws[0]);
        }
        assert kws[1] in st.modifiers by {
          assert kws[1] in kws;
          AccessKeywordsMembers(done, kws[1]);
        }
      }
      KeywordStep(kws, st.modifiers, tok, allowed, default);
    } else {
      assert AccessKeywords(next) == kws;
    }
  }

  /** Every access keyword in the list comes from one of the tokens. */
  lemma {:induction false} AccessKeywordsMembers(toks: seq<DeclToken>, tt: TokenType)
    requires tt in AccessKeywords(toks)
    ensures exists i :: 0 <= i < |toks| && toks[i].tokenType == tt
    decreases |toks|
  {
    var n := |toks|;
    var front := toks[..n - 1];
    if tt in AccessKeywords(front) {
      AccessKeywordsMembers(front, tt);
      var i :| 0 <= i < n - 1 && front[i].tokenType == tt;
      assert toks[i].tokenType == tt;
    } else {
      assert toks[n - 1].tokenType == tt;
    }
  }

  lemma {:induction false} ScanFromConsumed(
    st: ScanState, done: seq<DeclToken>, rest: seq<DeclToken>, allowed: seq<string>, default: AccessModifierType)
    requires Consumed(st, done, allowed, default)
    ensures ScanOutcome(Scan(rest, allowed, st), done + rest[..FirstUnrecognized(rest, allowed)], default)
    decreases |rest|
  {
    var k := FirstUnrecognized(rest, allowed);
    if rest == [] {
      assert done + rest[..k] == done;
    } else if !Recognized(rest[0], allowed) {
      var r := Step(st, rest[0], allowed);
      assert Finished(r);
      assert Scan(rest, allowed, st) == Scan(rest[1..], allowed, r) == r;
      assert done + rest[..k] == done;
    } else {
      var r := Step(st, rest[0], allowed);
      var next := done + [rest[0]];
      StepConsumed(st, done, rest[0], allowed, default);
      assert k == 1 + FirstUnrecognized(rest[1..], allowed);
      assert done + rest[..k] == next + rest[1..][..k - 1];
      if r.error.None? {
        ScanFromConsumed(r, next, rest[1..], allowed, default);
      } else {
        assert Scan(rest, allowed, st) == Scan(rest[1..], allowed, r) == r;
        RejectedExtends(next, rest[1..][..k - 1], default);
      }
    }
  }

  /** The scan's outcome, stated over the tokens it consumes: it fails
      exactly when the access keywords are not one of the accepted lists or a
      token type repeats, and otherwise yields the level of that list and
      records every consumed token under its type. */
  lemma ScanModifiersIsReference(toks: seq<DeclToken>, allowed: seq<string>, default: AccessModifierType)
    ensures ScanOutcome(Scan(toks, allowed, InitialScan(default)),
                        toks[..FirstUnrecognized(toks, allowed)], default)
  {
    assert Consumed(InitialScan(default), [], allowed, default);
    ScanFromConsumed(InitialScan(default), [], toks, allowed, default);
    assert [] + toks[..FirstUnrecognized(toks, allowed)] == toks[..FirstUnrecognized(toks, allowed)];
  }

  /** With no access keyword among the consumed tokens the level is the
      element's default; `protected internal` in either order gives
      ProtectedInternal. */
  lemma ScanAccessLevels(toks: seq<DeclToken>, allowed: seq<string>, default: AccessModifierType)
    ensures var r := Scan(toks, allowed, InitialScan(default));
      var kws := AccessKeywords(toks[..FirstUnrecognized(toks, allowed)]);
      && (r.error.None? && kws == [] ==> r.access == default)
      && (r.error.None? && (kws == [TokenType.Protected, TokenType.Internal] || kws == [TokenType.Internal, TokenType.Protected]) ==>
            r.access == ProtectedInternal)
      && (KeywordAccess(kws, default).None? ==> r.error.Some?)
  {
    ScanModifiersIsReference(toks, allowed, default);
  }

  lemma {:induction false} ScanAppend(a: seq<DeclToken>, b: seq<DeclToken>, allowed: seq<string>, st: ScanState)
    ensures Scan(a + b, allowed, st) == Scan(b, allowed, Scan(a, allowed, st))
    decreases |a|
  {
    if a == [] {
      assert a + b == b;
    } else if Finished(st) {
      assert Scan(a + b, allowed, st) == st;
      FinishedStays(b, allowed, st);
    } else {
      assert (a + b)[0] == a[0] && (a + b)[1..] == a[1..] + b;
      ScanAppend(a[1..], b, allowed, Step(st, a[0], allowed));
    }
  }

  lemma FinishedStays(toks: seq<DeclToken>, allowed: seq<string>, st: ScanState)
    requires Finished(st)
    ensures Scan(toks, allowed, st) == st
  {
  }

  /** If the scan reaches token k still running and token k is an access
      keyword that conflicts with the one seen before, the scan raises the
      SyntaxException at token k's line. */
  lemma ScanConflictLine(toks: seq<DeclToken>, k: nat, allowed: seq<string>, default: AccessModifierType)
    requires k < |toks|
    requires !Finished(Scan(toks[..k], allowed, InitialScan(default)))
    requires IsAccessKeyword(toks[k].tokenType)
    requires Conflicts(Scan(toks[..k], allowed, InitialScan(default)).seen, toks[k].tokenType)
    ensures Scan(toks, allowed, InitialScan(default)).error == Some(SyntaxError(toks[k].line))
  {
    assert toks == toks[..k] + toks[k..];
    ScanAppend(toks[..k], toks[k..], allowed, InitialScan(default));
    var st := Scan(toks[..k], allowed, InitialScan(default));
    var r := Step(st, toks[k], allowed);
    assert toks[k..][0] == toks[k];
    assert Scan(toks[k..], allowed, st) == Scan(toks[k + 1..], allowed, r);
    assert Finished(r);
  }

  // ---------------------------------------------------------------------
  // The scan over the tree.

  function ToDeclToken(t: Tree, i: nat): DeclToken
    requires IsToken(t, i)
  {
    DeclToken(t[i].kind.tokenType, t[i].kind.text, t[i].line, i)
  }

  /** The tokens the loop visits: the first declaration token and then each
      next sibling token in turn. */
  function DeclTokens(t: Tree, first: Option<nat>): seq<DeclToken>
    requires WellFormed(t) && (first.Some? ==> IsToken(t, first.value))
    decreases if first.Some? then |t| - first.value else 0
  {
    match first
    case None => []
    case Some(i) => [ToDeclToken(t, i)] + DeclTokens(t, NextSiblingToken(t, i))
  }

  /** GetOtherElementModifier: records the token when its text equals one of
      the allowed modifiers (Dictionary.Add fails on a type already
      recorded); `keepGoing` is false when no allowed modifier matched. */
  method GetOtherElementModifier(allowed: seq<string>, modifiers: map<TokenType, nat>, tok: DeclToken)
    returns (keepGoing: bool, recorded: map<TokenType, nat>, error: Option<ModifierError>)
    ensures keepGoing <==> tok.text in allowed
    ensures keepGoing && tok.tokenType in modifiers ==> error == Some(DuplicateModifier(tok.line))
    ensures keepGoing && tok.tokenType !in modifiers ==> error.None? && recorded == modifiers[tok.tokenType := tok.unit]
    ensures !keepGoing ==> error.None? && recorded == modifiers
  {
    recorded, error := modifiers, None;
    var stop := true;
    var i := 0;
    while i < |allowed|
      invariant 0 <= i <= |allowed|
      invariant tok.text !in allowed[..i]
      invariant stop && recorded == modifiers && error.None?
    {
      if tok.text == allowed[i] {
        if tok.tokenType in recorded {
          error := Some(DuplicateModifier(tok.line));
        } else {
          recorded := recorded[tok.tokenType := tok.unit];
        }
        stop := false;
        break;
      }
      assert allowed[..i + 1] == allowed[..i] + [allowed[i]];
      i := i + 1;
    }
    keepGoing := !stop;
  }

  /** GatherDeclarationModifiers: the loop over the sibling tokens from the
      first declaration token. The result is the scan's final state: the
      access level and recorded modifiers, and the error it raised. */
  method GatherDeclarationModifiers(t: Tree, first: Option<nat>, allowed: seq<string>, default: AccessModifierType)
    returns (result: ScanState)
    requires WellFormed(t) && (first.Some? ==> IsToken(t, first.value))
    ensures result == Scan(DeclTokens(t, first), allowed, InitialScan(default))
  {
    var modifiers: map<TokenType, nat> := map[];
    var accessModifierSeen: Option<TokenType> := None;
    var accessModifier := default;
    var token := first;
    while token.Some?
      invariant token.Some? ==> IsToken(t, token.value)
      invariant Scan(DeclTokens(t, token), allowed, ScanState(accessModifier, accessModifierSeen, modifiers, false, None))
             == Scan(DeclTokens(t, first), allowed, InitialScan(default))
      decreases if token.Some? then |t| - token.value else 0
    {
      var tok := ToDeclToken(t, token.value);
      var before := ScanState(accessModifier, accessModifierSeen, modifiers, false, None);
      ghost var rest := DeclTokens(t, NextSiblingToken(t, token.value));
      assert DeclTokens(t, token) == [tok] + rest;
      assert Scan(DeclTokens(t, token), allowed, before) == Scan(rest, allowed, Step(before, tok, allowed));
      if tok.tokenType == TokenType.Public {
        if accessModifierSeen.Some? {
          return before.(error := Some(SyntaxError(tok.line)));
        }
        accessModifier := AccessModifierType.Public;
        accessModifierSeen := Some(TokenType.Public);
        if TokenType.Public in modifiers {
          return ScanState(accessModifier, accessModifierSeen, modifiers, false, Some(DuplicateModifier(tok.line)));
        }
        modifiers := modifiers[TokenType.Public := tok.unit];
      } else if tok.tokenType == TokenType.Private {
        if accessModifierSeen.Some? {
          return before.(error := Some(SyntaxError(tok.line)));
        }
        accessModifier := AccessModifierType.Private;
        accessModifierSeen := Some(TokenType.Private);
        if TokenType.Private in modifiers {
          return ScanState(accessModifier, accessModifierSeen, modifiers, false, Some(DuplicateModifier(tok.line)));
        }
        modifiers := modifiers[TokenType.Private := tok.unit];
      } else if tok.tokenType == TokenType.Internal {
        if accessModifierSeen.None? {
          accessModifier := AccessModifierType.Internal;
        } else if accessModifierSeen.value == TokenType.Protected {
          accessModifier := ProtectedInternal;
        } else {
          return before.(error := Some(SyntaxError(tok.line)));
        }
        accessModifierSeen := Some(TokenType.Internal);
        if TokenType.Internal in modifiers {
          return ScanState(accessModifier, accessModifierSeen, modifiers, false, Some(DuplicateModifier(tok.line)));
        }
        modifiers := modifiers[TokenType.Internal := tok.unit];
      } else if tok.tokenType == TokenType.Protected {
        if accessModifierSeen.None? {
          accessModifier := AccessModifierType.Protected;
        } else if accessModifierSeen.value == TokenType.Internal {
          accessModifier := ProtectedInternal;
        } else {
          return before.(error := Some(SyntaxError(tok.line)));
        }
        accessModifierSeen := Some(TokenType.Protected);
        if TokenType.Protected in modifiers {
          return ScanState(accessModifier, accessModifierSeen, modifiers, false, Some(DuplicateModifier(tok.line)));
        }
        modifiers := modifiers[TokenType.Protected := tok.unit];
      } else {
        var keepGoing, recorded, error := GetOtherElementModifier(allowed, modifiers, tok);
        if error.Some? {
          return before.(error := error);
        }
        if !keepGoing {
          return before.(stopped := true);
        }
        modifiers := recorded;
      }
      token := NextSiblingToken(t, token.value);
    }
    result := ScanState(accessModifier, accessModifierSeen, modifiers, false, None);
  }
}
