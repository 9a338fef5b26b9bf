/** The walk over the children of a unit that CodeUnit.FindFirstChild and
    FindNextSibling perform: from the first child, each next sibling in
    turn. Over the arena layout this walk visits exactly the children of the
    unit, in document order. */
module ChildWalk {

  import opened Wrappers
  import opened CodeTree

  /** c is a child of e. */
  predicate IsChildOf(t: Tree, c: nat, e: nat) {
    c < |t| && t[c].parent == Some(e)
  }

  /** The first child, when there is one, is a child. */
  lemma FirstChildIsChild(t: Tree, e: nat)
    requires Spans(t) && ParentsCover(t) && RangesNest(t) && e < |t|
    ensures FirstChild(t, e).Some? ==> IsChildOf(t, FirstChild(t, e).value, e)
  {
    if e < t[e].last {
      Nested(t, e, e + 1);
    }
  }

  /** A child of e that lies after the child i is no earlier than i's next
      sibling, which therefore exists. */
  lemma NextChildBound(t: Tree, e: nat, i: nat, d: nat)
    requires Spans(t) && ParentsCover(t) && RangesNest(t)
    requires IsChildOf(t, i, e) && IsChildOf(t, d, e) && i < d
    ensures NextSibling(t, i).Some? && NextSibling(t, i).value <= d
  {
    assert t[i].last < d by {
      if d <= t[i].last {
        Nested(t, i, d);
      }
    }
  }

  /** The next sibling of a child of e is a child of e: nothing between e
      and it can be its parent. */
  lemma NextSiblingIsChild(t: Tree, e: nat, i: nat)
    requires Spans(t) && ParentsCover(t) && RangesNest(t) && IsChildOf(t, i, e)
    ensures NextSibling(t, i).Some? ==> IsChildOf(t, NextSibling(t, i).value, e)
  {
    if NextSibling(t, i).Some? {
      var j := NextSibling(t, i).value;
      Nested(t, e, j);
      var p := t[j].parent.value;
      if p < i {
        // i would lie inside p, below e.
        Nested(t, p, i);
      } else if i < p {
        // p would end inside i, before j.
        Nested(t, i, p);
      }
    }
  }

  /** No child of e lies strictly between a child and its next sibling. */
  lemma NoChildBetween(t: Tree, e: nat, i: nat)
    requires Spans(t) && ParentsCover(t) && RangesNest(t) && IsChildOf(t, i, e)
    ensures forall d :: i < d < Bound(t, NextSibling(t, i)) ==> !IsChildOf(t, d, e)
  {
    forall d | i < d < Bound(t, NextSibling(t, i)) && IsChildOf(t, d, e)
      ensures false
    {
      NextChildBound(t, e, i, d);
    }
  }

  /** The position the walk has reached: the next unit to visit, or the end
      of the arena once the walk is over. */
  function Bound(t: Tree, x: Option<nat>): nat {
    if x.Some? then x.value else |t|
  }
}
