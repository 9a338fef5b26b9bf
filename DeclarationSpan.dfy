/** The first and last tokens of an element's declaration (Element.cs,
    FindFirstDeclarationToken and FindLastDeclarationToken): both walk the
    element's descendants in document order, skipping attributes whole. */
module DeclarationSpan {

  import opened Wrappers
  import opened CodeTree

  // ---------------------------------------------------------------------
  // First declaration token.

  /** Every attribute met strictly between e and item ends before item, and
      every token strictly between them lies inside one of those
      attributes. */
  ghost predicate SkippedSoFar(t: Tree, e: nat, item: nat)
    requires Spans(t) && e < |t|
  {
    && (forall a :: e < a < item && IsAttribute(t, a) ==> t[a].last < item)
    && (forall j :: e < j < item && IsToken(t, j) ==> InAttribute(t, e, j))
  }

  /** The walk of FindFirstDeclarationToken from `item` on. */
  function FirstDeclFrom(t: Tree, e: nat, item: nat): (r: Option<nat>)
    requires Spans(t) && e < |t| && e < item
    ensures r.Some? ==> item <= r.value <= t[e].last && IsToken(t, r.value)
    decreases |t| - item
  {
    if item > t[e].last then None
    else if IsAttribute(t, item) then FirstDeclFrom(t, e, t[item].last + 1)
    else if IsToken(t, item) then Some(item)
    else FirstDeclFrom(t, e, item + 1)
  }

  /** The first token of e's declaration, past any attributes. */
  function FirstDeclToken(t: Tree, e: nat): Option<nat>
    requires Spans(t) && e < |t|
  {
    FirstDeclFrom(t, e, e + 1)
  }

  /** Skipping an attribute whole keeps SkippedSoFar. */
  lemma SkipAttribute(t: Tree, e: nat, item: nat)
    requires Spans(t) && RangesNest(t) && e < |t| && e < item <= t[e].last && IsAttribute(t, item) && SkippedSoFar(t, e, item)
    ensures SkippedSoFar(t, e, t[item].last + 1)
  {
    var next := t[item].last + 1;
    forall a | e < a < next && IsAttribute(t, a) ensures t[a].last < next {
      if item < a { Nested(t, item, a); }
    }
    forall j | e < j < next && IsToken(t, j) ensures InAttribute(t, e, j) {
      if item < j { assert e < item < j && IsAttribute(t, item) && j <= t[item].last; }
    }
  }

  /** Stepping over a unit that is neither an attribute nor a token keeps
      SkippedSoFar. */
  lemma SkipOther(t: Tree, e: nat, item: nat)
    requires Spans(t) && e < |t| && e < item && !IsAttribute(t, item) && !IsToken(t, item) && SkippedSoFar(t, e, item)
    ensures SkippedSoFar(t, e, item + 1)
  {
  }

  lemma {:induction false} FirstDeclFromIsFirst(t: Tree, e: nat, item: nat)
    requires Spans(t) && RangesNest(t) && e < |t| && e < item && SkippedSoFar(t, e, item)
    ensures var r := FirstDeclFrom(t, e, item);
      && (r.Some? ==> (!InAttribute(t, e, r.value) &&
            forall j :: e < j < r.value && IsToken(t, j) ==> InAttribute(t, e, j)))
      && (r.None? ==> forall j :: e < j <= t[e].last && IsToken(t, j) ==> InAttribute(t, e, j))
    decreases |t| - item
  {
    if item > t[e].last {
    } else if IsAttribute(t, item) {
      SkipAttribute(t, e, item);
      FirstDeclFromIsFirst(t, e, t[item].last + 1);
    } else if !IsToken(t, item) {
      SkipOther(t, e, item);
      FirstDeclFromIsFirst(t, e, item + 1);
    }
  }

  /** The first declaration token is the first token of e's subtree that is
      not inside an attribute; there is none exactly when every token of the
      subtree is inside an attribute. */
  lemma FirstDeclTokenIsFirst(t: Tree, e: nat)
    requires WellFormed(t) && e < |t|
    ensures var r := FirstDeclToken(t, e);
      && (r.Some? ==> (e < r.value <= t[e].last && IsToken(t, r.value) && !InAttribute(t, e, r.value) &&
            forall j :: e < j < r.value && IsToken(t, j) ==> InAttribute(t, e, j)))
      && (r.None? ==> forall j :: e < j <= t[e].last && IsToken(t, j) ==> InAttribute(t, e, j))
  {
    FirstDeclFromIsFirst(t, e, e + 1);
  }

  /** FindFirstDeclarationToken. */
  method FindFirstDeclarationToken(t: Tree, e: nat) returns (r: Option<nat>)
    requires Spans(t) && RangesNest(t) && AttributesHaveChildren(t) && e < |t|
    ensures r == FirstDeclToken(t, e)
  {
    var item := FirstChild(t, e);
    while item.Some?
      invariant item.Some? ==> e < item.value <= t[e].last
      invariant FirstDeclToken(t, e) == (if item.Some? then FirstDeclFrom(t, e, item.value) else None)
      decreases if item.Some? then |t| - item.value else 0
    {
      var i := item.value;
      if IsAttribute(t, i) {
        // Move to the end of the attribute.
        var end := LastDescendent(t, i).value;
        Nested(t, e, i);
        item := NextDescendentOf(t, end, e);
      } else if IsToken(t, i) {
        return Some(i);
      } else {
        item := NextDescendentOf(t, i, e);
      }
    }
    return None;
  }

  // ---------------------------------------------------------------------
  // Last declaration token.

  /** What the walk of FindLastDeclarationToken needs of the tree. */
  ghost predicate Walkable(t: Tree) {
    Spans(t) && ParentsCover(t) && RangesNest(t) && BracketsMatched(t)
  }

  /** The walk of FindLastDeclarationToken from `item` on, `prev` being the
      last token recorded: attributes are skipped whole, `{`, `;` and `=` end
      the walk, an open bracket jumps to its matching bracket. */
  function LastFrom(t: Tree, e: nat, item: nat, prev: nat): (r: nat)
    requires Walkable(t) && e < |t| && e < item && IsToken(t, prev)
    ensures IsToken(t, r)
    decreases |t| - item
  {
    if item > t[e].last then prev
    else if IsAttribute(t, item) then LastFrom(t, e, t[item].last + 1, prev)
    else if IsDeclarationEnd(t, item) then prev
    else
      var at := if IsOpenBracket(t, item) then (MatchingInside(t, e, item); t[item].kind.matchingBracket.value) else item;
      LastFrom(t, e, at + 1, if IsToken(t, at) then at else prev)
  }

  /** Climbs from a token through the parents that are themselves tokens. */
  function Lift(t: Tree, i: nat): (r: nat)
    requires ParentsCover(t) && i < |t|
    ensures r <= i
    ensures !(t[r].parent.Some? && IsToken(t, t[r].parent.value))
    decreases i
  {
    if t[i].parent.Some? && IsToken(t, t[i].parent.value) then Lift(t, t[i].parent.value) else i
  }

  /** The last token of e's declaration. */
  function LastDeclToken(t: Tree, e: nat): Option<nat>
    requires WellFormed(t) && e < |t|
  {
    match FirstDeclToken(t, e)
    case None => None
    case Some(f) => Some(Lift(t, LastFrom(t, e, f, f)))
  }

  /** Every unit on the parent chain from a token up to its lifted token is a
      token. */
  lemma {:induction false} LiftThroughTokens(t: Tree, i: nat)
    requires ParentsCover(t) && i < |t| && IsToken(t, i)
    ensures IsToken(t, Lift(t, i))
    decreases i
  {
    if t[i].parent.Some? && IsToken(t, t[i].parent.value) {
      LiftThroughTokens(t, t[i].parent.value);
    }
  }

  /** A token inside e lifts to a token that is still inside e: e itself is
      an element, so the climb stops below it. */
  lemma {:induction false} LiftInside(t: Tree, e: nat, i: nat)
    requires Spans(t) && ParentsCover(t) && RangesNest(t) && e < |t| && !IsToken(t, e) && e < i <= t[e].last && IsToken(t, i)
    ensures e < Lift(t, i) <= t[e].last
    decreases i
  {
    if t[i].parent.Some? && IsToken(t, t[i].parent.value) {
      Nested(t, e, i);
      var p := t[i].parent.value;
      LiftInside(t, e, p);
    }
  }

  /** An element has a last declaration token exactly when it has a first
      one; it is a token of e's subtree whose parent is not a token. */
  lemma LastDeclTokenBounds(t: Tree, e: nat)
    requires WellFormed(t) && IsElement(t, e)
    ensures LastDeclToken(t, e).Some? <==> FirstDeclToken(t, e).Some?
    ensures var r := LastDeclToken(t, e);
      r.Some? ==> e < r.value <= t[e].last && IsToken(t, r.value) &&
                  !(t[r.value].parent.Some? && IsToken(t, t[r.value].parent.value))
  {
    match FirstDeclToken(t, e)
    case None =>
    case Some(f) =>
      var k := LastFrom(t, e, f, f);
      ResumeInside(t, e, Some(f), f);
      LiftThroughTokens(t, k);
      LiftInside(t, e, k);
  }

  /** The walk over a declaration with no attribute and no bracket: the
      tokens up to the first `{`, `;` or `=`. */
  function FlatLast(t: Tree, e: nat, item: nat, prev: nat): (r: nat)
    requires Spans(t) && e < |t| && prev < |t|
    decreases |t| - item
  {
    if item > t[e].last || IsDeclarationEnd(t, item) then prev
    else FlatLast(t, e, item + 1, if IsToken(t, item) then item else prev)
  }

  /** The flat walk ends on a token between the first token f and the end
      of e's range, with no `{`, `;` or `=` from f up to it. */
  lemma {:induction false} FlatLastBeforeEnd(t: Tree, e: nat, f: nat, item: nat, prev: nat)
    requires Spans(t) && e < |t| && f <= prev < item && prev <= t[e].last && IsToken(t, prev)
    requires forall j :: f <= j < item ==> !IsDeclarationEnd(t, j)
    requires forall j :: prev < j < item ==> !IsToken(t, j)
    ensures var k := FlatLast(t, e, item, prev);
      && f <= k <= t[e].last && IsToken(t, k)
      && (forall j :: f <= j <= k ==> !IsDeclarationEnd(t, j))
    decreases |t| - item
  {
    if item <= t[e].last && !IsDeclarationEnd(t, item) {
      FlatLastBeforeEnd(t, e, f, item + 1, if IsToken(t, item) then item else prev);
    }
  }

  /** Every token of e's range after the end of the flat walk lies at or
      after a `{`, `;` or `=`. */
  lemma {:induction false} FlatLastIsLast(t: Tree, e: nat, item: nat, prev: nat)
    requires Spans(t) && e < |t| && prev < item && IsToken(t, prev)
    requires forall j :: prev < j < item ==> !IsToken(t, j)
    ensures var k := FlatLast(t, e, item, prev);
      forall j :: k < j <= t[e].last && IsToken(t, j) ==> exists i :: k < i <= j && IsDeclarationEnd(t, i)
    decreases |t| - item
  {
    if item > t[e].last {
    } else if IsDeclarationEnd(t, item) {
      forall j | prev < j <= t[e].last && IsToken(t, j) ensures exists i :: prev < i <= j && IsDeclarationEnd(t, i) {
        assert prev < item <= j && IsDeclarationEnd(t, item);
      }
    } else {
      FlatLastIsLast(t, e, item + 1, if IsToken(t, item) then item else prev);
    }
  }

  /** Without attributes and open brackets before a terminator z (or before
      the end of e's range, z past it), the walk of FindLastDeclarationToken
      is the flat walk. */
  lemma {:induction false} ResumeIsFlat(t: Tree, e: nat, item: Option<nat>, prev: nat, z: nat)
    requires Walkable(t) && e < |t| && IsToken(t, prev)
    requires z <= t[e].last ==> IsDeclarationEnd(t, z)
    requires item.Some? ==> e < item.value <= t[e].last && item.value <= z
    requires item.Some? ==> forall j :: item.value <= j < z ==> !IsAttribute(t, j) && !IsOpenBracket(t, j)
    ensures Resume(t, e, item, prev) == if item.Some? then FlatLast(t, e, item.value, prev) else prev
    decreases if item.Some? then |t| - item.value else 0
  {
    if item.Some? && !IsDeclarationEnd(t, item.value) {
      var i := item.value;
      assert i < z;
      var p := if IsToken(t, i) then i else prev;
      LastFromStep(t, e, i, prev);
      ResumeIsFlat(t, e, NextDescendentOf(t, i, e), p, z);
    }
  }

  /** When a declaration has no attribute and no open bracket from its first
      token f, not a terminator, up to a terminator z (or to the end of the
      range, z past it), the walk from f ends on the last token k before the
      first `{`, `;` or `=`: every later token of the subtree lies after such
      a terminator. */
  lemma FlatWalkEndsBeforeTerminator(t: Tree, e: nat, f: nat, z: nat)
    requires Walkable(t) && e < f < |t| && f <= t[e].last && IsToken(t, f) && !IsDeclarationEnd(t, f)
    requires f <= z && (z <= t[e].last ==> IsDeclarationEnd(t, z))
    requires forall j :: f <= j < z ==> !IsAttribute(t, j) && !IsOpenBracket(t, j)
    ensures var k := LastFrom(t, e, f, f);
      && f <= k <= t[e].last && IsToken(t, k)
      && (forall j :: f <= j <= k ==> !IsDeclarationEnd(t, j))
      && (forall j :: k < j <= t[e].last && IsToken(t, j) ==> exists i :: k < i <= j && IsDeclarationEnd(t, i))
  {
    ResumeIsFlat(t, e, Some(f), f, z);
    assert FlatLast(t, e, f, f) == FlatLast(t, e, f + 1, f);
    FlatLastBeforeEnd(t, e, f, f + 1, f);
    FlatLastIsLast(t, e, f + 1, f);
  }

  /** The last declaration token of a declaration with no attribute and no
      open bracket from its first token f up to a terminator z (or to the end
      of the range) is lifted from the token the walk ends on: f itself when
      f is `{`, `;` or `=`, otherwise the last token before the first `{`,
      `;` or `=`. */
  lemma LastDeclTokenFlat(t: Tree, e: nat, f: nat, z: nat)
    requires WellFormed(t) && e < |t| && FirstDeclToken(t, e) == Some(f)
    requires f <= z && (z <= t[e].last ==> IsDeclarationEnd(t, z))
    requires forall j :: f <= j < z ==> !IsAttribute(t, j) && !IsOpenBracket(t, j)
    ensures var k := LastFrom(t, e, f, f);
      && LastDeclToken(t, e) == Some(Lift(t, k))
      && (IsDeclarationEnd(t, f) ==> k == f)
      && (!IsDeclarationEnd(t, f) ==>
            && f <= k <= t[e].last && IsToken(t, k)
            && (forall j :: f <= j <= k ==> !IsDeclarationEnd(t, j))
            && (forall j :: k < j <= t[e].last && IsToken(t, j) ==> exists i :: k < i <= j && IsDeclarationEnd(t, i)))
  {
    if !IsDeclarationEnd(t, f) {
      FlatWalkEndsBeforeTerminator(t, e, f, z);
    }
  }

  /** FindLastDeclarationToken: the walk from the first declaration token
      (the element's FirstDeclarationToken, passed in), then the climb
      through token parents. */
  method FindLastDeclarationToken(t: Tree, e: nat, first: Option<nat>) returns (r: Option<nat>)
    requires WellFormed(t) && e < |t| && first == FirstDeclToken(t, e)
    ensures r == LastDeclToken(t, e)
  {
    if first.None? {
      return None;
    }
    var previousToken := WalkDeclaration(t, e, first.value);
    var lifted := ClimbTokenParents(t, previousToken);
    return Some(lifted);
  }

  /** The loop of FindLastDeclarationToken, from the first declaration token
      f on. */
  method WalkDeclaration(t: Tree, e: nat, f: nat) returns (previousToken: nat)
    requires Walkable(t) && AttributesHaveChildren(t) && e < f < |t| && f <= t[e].last && IsToken(t, f)
    ensures previousToken == LastFrom(t, e, f, f)
  {
    previousToken := f;
    var item: Option<nat> := Some(f);
    while item.Some?
      invariant item.Some? ==> e < item.value <= t[e].last
      invariant previousToken < |t| && IsToken(t, previousToken)
      invariant LastFrom(t, e, f, f) == Resume(t, e, item, previousToken)
      decreases if item.Some? then |t| - item.value else 0
    {
      var i := item.value;
      if IsAttribute(t, i) {
        // Move to the end of the attribute.
        var end := LastDescendent(t, i).value;
        LastFromSkipsAttribute(t, e, i, previousToken);
        item := NextDescendentOf(t, end, e);
      } else {
        if IsDeclarationEnd(t, i) {
          assert LastFrom(t, e, i, previousToken) == previousToken;
          break;
        }
        var at: nat := i;
        if IsOpenBracket(t, i) {
          at := t[i].kind.matchingBracket.value;
        }
        LastFromStep(t, e, i, previousToken);
        if IsToken(t, at) {
          previousToken := at;
        }
        item := NextDescendentOf(t, at, e);
      }
    }
  }

  /** The walk continued from the next unit to visit, if any. */
  function Resume(t: Tree, e: nat, item: Option<nat>, prev: nat): nat
    requires Walkable(t) && e < |t| && IsToken(t, prev)
    requires item.Some? ==> e < item.value
  {
    if item.Some? then LastFrom(t, e, item.value, prev) else prev
  }

  /** The walk resumed at a unit of e's range ends on the token it started
      with or on a token of e's subtree from that unit on. */
  lemma {:induction false} ResumeInside(t: Tree, e: nat, item: Option<nat>, prev: nat)
    requires Walkable(t) && e < |t| && IsToken(t, prev)
    requires item.Some? ==> e < item.value <= t[e].last
    ensures var r := Resume(t, e, item, prev); r == prev || (item.Some? && item.value <= r <= t[e].last)
    decreases if item.Some? then |t| - item.value else 0
  {
    if item.Some? {
      var i := item.value;
      if IsAttribute(t, i) {
        LastFromSkipsAttribute(t, e, i, prev);
        ResumeInside(t, e, NextDescendentOf(t, t[i].last, e), prev);
      } else if !IsDeclarationEnd(t, i) {
        var at := if IsOpenBracket(t, i) then t[i].kind.matchingBracket.value else i;
        LastFromStep(t, e, i, prev);
        ResumeInside(t, e, NextDescendentOf(t, at, e), if IsToken(t, at) then at else prev);
      }
    }
  }

  lemma LastFromSkipsAttribute(t: Tree, e: nat, i: nat, prev: nat)
    requires Walkable(t) && e < i < |t| && i <= t[e].last && IsToken(t, prev) && IsAttribute(t, i)
    ensures t[i].last <= t[e].last
    ensures LastFrom(t, e, i, prev) == Resume(t, e, NextDescendentOf(t, t[i].last, e), prev)
  {
    Nested(t, e, i);
  }

  lemma LastFromStep(t: Tree, e: nat, i: nat, prev: nat)
    requires Walkable(t) && e < i < |t| && i <= t[e].last && IsToken(t, prev)
    requires !IsAttribute(t, i) && !IsDeclarationEnd(t, i)
    ensures var at := if IsOpenBracket(t, i) then t[i].kind.matchingBracket.value else i;
      && i <= at <= t[e].last
      && LastFrom(t, e, i, prev) == Resume(t, e, NextDescendentOf(t, at, e), if IsToken(t, at) then at else prev)
  {
    LastFromLands(t, e, i, prev);
    var at := Landing(t, e, i);
    if at + 1 > t[e].last {
      assert LastFrom(t, e, at + 1, LandingOr(t, e, i, prev)) == LandingOr(t, e, i, prev);
    }
  }

  // ---------------------------------------------------------------------
  // The walk of FindLastDeclarationToken on any tree.

  /** Where the walk goes on from a unit i of e's range that is neither an
      attribute nor a terminator: an open bracket's matching bracket,
      otherwise i itself. The walk records it when it is a token. */
  function Landing(t: Tree, e: nat, i: nat): (r: nat)
    requires Walkable(t) && e < |t| && e < i <= t[e].last
    ensures i <= r <= t[e].last
    ensures IsOpenBracket(t, i) ==> i < r
  {
    if IsOpenBracket(t, i) then (MatchingInside(t, e, i); t[i].kind.matchingBracket.value) else i
  }

  /** The token the walk falls back on after unit i: i's landing when it
      is a token, otherwise prev. */
  function LandingOr(t: Tree, e: nat, i: nat, prev: nat): (r: nat)
    requires Walkable(t) && e < |t| && e < i <= t[e].last && IsToken(t, prev)
    ensures IsToken(t, r)
  {
    if IsToken(t, Landing(t, e, i)) then Landing(t, e, i) else prev
  }

  /** The units the walk examines from `item` on when no `{`, `;` or `=`
      stops it: attribute subtrees are skipped whole and each examined unit
      is followed by the unit after its landing. They are units of e's range
      from item on, none an attribute. */
  ghost function Examined(t: Tree, e: nat, item: nat): (r: seq<nat>)
    requires Walkable(t) && e < |t| && e < item
    ensures forall m :: 0 <= m < |r| ==> item <= r[m] <= t[e].last && !IsAttribute(t, r[m])
    decreases |t| - item
  {
    if item > t[e].last then []
    else if IsAttribute(t, item) then Examined(t, e, t[item].last + 1)
    else
      [item] + Examined(t, e, Landing(t, e, item) + 1)
  }

  /** The index in s of the first `{`, `;` or `=`, or |s| if there is none. */
  function FirstEnd(t: Tree, s: seq<nat>): (n: nat)
    ensures n <= |s|
    ensures forall m :: 0 <= m < n ==> !IsDeclarationEnd(t, s[m])
    ensures n < |s| ==> IsDeclarationEnd(t, s[n])
  {
    if s == [] || IsDeclarationEnd(t, s[0]) then 0 else 1 + FirstEnd(t, s[1..])
  }

  /** The examined units lie in document order, each one after the landing
      of the one before: the walk never goes back, and an open bracket is
      passed over up to its matching bracket. */
  lemma {:induction false} ExaminedInOrder(t: Tree, e: nat, item: nat, m: nat)
    requires Walkable(t) && e < |t| && e < item && m + 1 < |Examined(t, e, item)|
    ensures Landing(t, e, Examined(t, e, item)[m]) < Examined(t, e, item)[m + 1]
    decreases |t| - item
  {
    if IsAttribute(t, item) {
      assert Examined(t, e, item) == Examined(t, e, t[item].last + 1);
      ExaminedInOrder(t, e, t[item].last + 1, m);
    } else {
      var next := Landing(t, e, item) + 1;
      assert Examined(t, e, item) == [item] + Examined(t, e, next);
      if m > 0 {
        ExaminedInOrder(t, e, next, m - 1);
      }
    }
  }

  /** A unit of e's range from item on that the walk does not examine lies
      inside an attribute's subtree, or after an open bracket up to its
      matching bracket. */
  lemma {:induction false} ExaminedSkipsOnly(t: Tree, e: nat, item: nat, j: nat)
    requires Walkable(t) && e < |t| && e < item <= j <= t[e].last
    requires j !in Examined(t, e, item)
    ensures exists a :: item <= a <= j &&
                        ((IsAttribute(t, a) && j <= t[a].last) || (IsOpenBracket(t, a) && a < j <= Landing(t, e, a)))
    decreases |t| - item
  {
    if IsAttribute(t, item) {
      if t[item].last < j {
        ExaminedSkipsOnly(t, e, t[item].last + 1, j);
      }
    } else {
      var at := Landing(t, e, item);
      assert Examined(t, e, item) == [item] + Examined(t, e, at + 1);
      if at < j {
        ExaminedSkipsOnly(t, e, at + 1, j);
      } else {
        assert IsOpenBracket(t, item) && item < j <= at;
      }
    }
  }

  /** The landings of the units of s. */
  ghost function Landings(t: Tree, e: nat, s: seq<nat>): (l: seq<nat>)
    requires Walkable(t) && e < |t| && forall m :: 0 <= m < |s| ==> e < s[m] <= t[e].last
    ensures |l| == |s| && forall m :: 0 <= m < |s| ==> l[m] == Landing(t, e, s[m])
  {
    if s == [] then [] else [Landing(t, e, s[0])] + Landings(t, e, s[1..])
  }

  /** With l[m] the landing of s[m], r is the last landing before the first
      `{`, `;` or `=` of s that is a token, or prev when there is none. */
  ghost predicate LastTokenBeforeEnd(t: Tree, s: seq<nat>, l: seq<nat>, prev: nat, r: nat)
    requires |l| == |s|
  {
    var n := FirstEnd(t, s);
    || (r == prev && forall m :: 0 <= m < n ==> !IsToken(t, l[m]))
    || (exists k :: 0 <= k < n && r == l[k] && IsToken(t, r) && (forall m :: k < m < n ==> !IsToken(t, l[m])))
  }

  /** Examining one more unit x, not a terminator, with landing y in front
      of s: y becomes the token to fall back on when it is one. */
  lemma ConsLanding(t: Tree, x: nat, y: nat, s: seq<nat>, l: seq<nat>, xs: seq<nat>, ys: seq<nat>, prev: nat, r: nat, r': nat)
    requires |l| == |s| && !IsDeclarationEnd(t, x) && xs == [x] + s && ys == [y] + l && r' == r
    requires LastTokenBeforeEnd(t, s, l, if IsToken(t, y) then y else prev, r)
    ensures LastTokenBeforeEnd(t, xs, ys, prev, r')
  {
    assert xs[1..] == s;
    var n := FirstEnd(t, s);
    assert FirstEnd(t, xs) == n + 1;
    if exists k :: 0 <= k < n && r == l[k] && IsToken(t, r) && (forall m :: k < m < n ==> !IsToken(t, l[m])) {
      var k :| 0 <= k < n && r == l[k] && IsToken(t, r) && (forall m :: k < m < n ==> !IsToken(t, l[m]));
      assert ys[k + 1] == l[k];
      forall m | k + 1 < m < n + 1 ensures !IsToken(t, ys[m]) {
        assert ys[m] == l[m - 1];
      }
    } else if IsToken(t, y) {
      forall m | 0 < m < n + 1 ensures !IsToken(t, ys[m]) {
        assert ys[m] == l[m - 1];
      }
      assert r == ys[0];
    } else {
      forall m | 0 <= m < n + 1 ensures !IsToken(t, ys[m]) {
        if m > 0 {
          assert ys[m] == l[m - 1];
        }
      }
    }
  }

  /** What the walk computes on any tree: it examines the units of Examined
      in turn and stops at the first `{`, `;` or `=`; it ends on the last
      landing before that point that is a token, or on prev when there is
      none, so every later landing that is a token comes after the
      terminator. */
  lemma {:induction false} LastFromIsLastLanding(t: Tree, e: nat, item: nat, prev: nat)
    requires Walkable(t) && e < |t| && e < item && IsToken(t, prev)
    ensures LastTokenBeforeEnd(t, Examined(t, e, item), Landings(t, e, Examined(t, e, item)), prev, LastFrom(t, e, item, prev))
    decreases |t| - item
  {
    if item <= t[e].last {
      if IsAttribute(t, item) {
        LastFromIsLastLanding(t, e, t[item].last + 1, prev);
      } else if !IsDeclarationEnd(t, item) {
        LastFromIsLastLanding(t, e, Landing(t, e, item) + 1, LandingOr(t, e, item, prev));
        LastTokenLandingStep(t, e, item, prev);
      }
    }
  }

  /** The induction step of LastFromIsLastLanding at a unit that is neither
      an attribute nor a terminator. */
  lemma LastTokenLandingStep(t: Tree, e: nat, item: nat, prev: nat)
    requires Walkable(t) && e < |t| && e < item <= t[e].last && IsToken(t, prev)
    requires !IsAttribute(t, item) && !IsDeclarationEnd(t, item)
    requires LastTokenBeforeEnd(t, Examined(t, e, Landing(t, e, item) + 1), Landings(t, e, Examined(t, e, Landing(t, e, item) + 1)),
      LandingOr(t, e, item, prev), LastFrom(t, e, Landing(t, e, item) + 1, LandingOr(t, e, item, prev)))
    ensures LastTokenBeforeEnd(t, Examined(t, e, item), Landings(t, e, Examined(t, e, item)), prev, LastFrom(t, e, item, prev))
  {
    LastFromLands(t, e, item, prev);
    ExaminedLands(t, e, item);
    ConsLanding(t, item, Landing(t, e, item), Examined(t, e, Landing(t, e, item) + 1), Landings(t, e, Examined(t, e, Landing(t, e, item) + 1)),
                Examined(t, e, item), Landings(t, e, Examined(t, e, item)), prev,
                LastFrom(t, e, Landing(t, e, item) + 1, LandingOr(t, e, item, prev)), LastFrom(t, e, item, prev));
  }

  /** At a unit that is neither an attribute nor a terminator the walk goes
      on after the unit's landing, having recorded the landing if it is a
      token. */
  lemma LastFromLands(t: Tree, e: nat, item: nat, prev: nat)
    requires Walkable(t) && e < |t| && e < item <= t[e].last && IsToken(t, prev)
    requires !IsAttribute(t, item) && !IsDeclarationEnd(t, item)
    ensures LastFrom(t, e, item, prev) == LastFrom(t, e, Landing(t, e, item) + 1, LandingOr(t, e, item, prev))
  {
    if IsOpenBracket(t, item) {
      MatchingInside(t, e, item);
    }
  }

  /** The units examined from a unit that is not an attribute: the unit
      itself, then those from after its landing. */
  lemma ExaminedLands(t: Tree, e: nat, item: nat)
    requires Walkable(t) && e < |t| && e < item <= t[e].last && !IsAttribute(t, item)
    ensures Examined(t, e, item) == [item] + Examined(t, e, Landing(t, e, item) + 1)
    ensures Landings(t, e, Examined(t, e, item)) == [Landing(t, e, item)] + Landings(t, e, Examined(t, e, Landing(t, e, item) + 1))
  {
    var rest := Examined(t, e, Landing(t, e, item) + 1);
    assert ([item] + rest)[1..] == rest;
  }

  /** The last declaration token of any element with a first one, f: it is
      lifted from the token k the walk from f ends on, which is f itself when
      no examined unit before the first `{`, `;` or `=` lands on a token, and
      otherwise the last such landing. */
  lemma LastDeclTokenWalk(t: Tree, e: nat)
    requires WellFormed(t) && e < |t| && FirstDeclToken(t, e).Some?
    ensures var f := FirstDeclToken(t, e).value; var s := Examined(t, e, f); var k := LastFrom(t, e, f, f);
      && |s| > 0 && s[0] == f
      && LastDeclToken(t, e) == Some(Lift(t, k))
      && LastTokenBeforeEnd(t, s, Landings(t, e, s), f, k)
  {
    var f := FirstDeclToken(t, e).value;
    assert Examined(t, e, f) == [f] + Examined(t, e, Landing(t, e, f) + 1);
    LastFromIsLastLanding(t, e, f, f);
  }

  /** The climb at the end of FindLastDeclarationToken: while the token's
      parent is a token, move to the parent. */
  method ClimbTokenParents(t: Tree, i: nat) returns (r: nat)
    requires ParentsCover(t) && i < |t|
    ensures r == Lift(t, i)
  {
    r := i;
    while t[r].parent.Some? && IsToken(t, t[r].parent.value)
      invariant r < |t| && Lift(t, r) == Lift(t, i)
      decreases r
    {
      r := t[r].parent.value;
    }
  }
}
