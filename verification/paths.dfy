/**
 * The discrete skeleton of a solve: the path from the effected joint up to
 * its root, the joints the backward pass pushes on the path stack, the
 * branch points at which each pass aligns the other children, and the walk
 * the forward pass takes as it pops the stack.
 */
module Paths {
  import opened Wrappers
  import opened JointTree

  /** A measure that strictly decreases from a joint to its parent. */
  ghost function Height(ls: Links, e: JointId): nat
    requires Forest(ls) && e < |ls|
  {
    MaxOf(Rank(ls)) - Rank(ls)[e]
  }

  /** The joint has more than one child slot: a branch point. */
  predicate Branching(ls: Links, j: JointId)
    requires j < |ls|
  {
    |ls[j].children| > 1
  }

  /** The path from e up to its root, e first. */
  function Up(ls: Links, e: JointId): (u: seq<JointId>)
    requires Forest(ls) && e < |ls|
    ensures |u| > 0 && u[0] == e
    ensures forall k :: k in u ==> k < |ls|
    decreases Height(ls, e)
  {
    match ls[e].parent
    case None => [e]
    case Some(q) => [e] + Up(ls, q)
  }

  /** The root of the tree holding e: the last joint of the path up. */
  function Root(ls: Links, e: JointId): (r: JointId)
    requires Forest(ls) && e < |ls|
    ensures r < |ls| && ls[r].parent.None?
    decreases Height(ls, e)
  {
    match ls[e].parent
    case None => e
    case Some(q) => Root(ls, q)
  }

  /** The joints strictly above e, from the root down. */
  function DownPath(ls: Links, e: JointId): seq<JointId>
    requires Forest(ls) && e < |ls|
    decreases Height(ls, e)
  {
    match ls[e].parent
    case None => []
    case Some(q) => DownPath(ls, q) + [q]
  }

  /**
   * What the backward pass pushes, in push order, on its way from e to the
   * root: every joint of the path, the root excepted, whose parent is a
   * branch point.
   */
  function Pushed(ls: Links, e: JointId): (s: seq<JointId>)
    requires Forest(ls) && e < |ls|
    decreases Height(ls, e)
  {
    match ls[e].parent
    case None => []
    case Some(q) => (if Branching(ls, q) then [e] else []) + Pushed(ls, q)
  }

  /** At branch point `joint`, the branches of every child other than `pathChild` are aligned. */
  datatype Align = Align(joint: JointId, pathChild: Option<JointId>)

  /**
   * The alignments the backward pass makes from e up, when the path child it
   * reads at e is `top`: at each branch point, all children except the one
   * the pass came from.
   */
  function UpAligns(ls: Links, e: JointId, top: Option<JointId>): seq<Align>
    requires Forest(ls) && e < |ls|
    decreases Height(ls, e)
  {
    (if Branching(ls, e) then [Align(e, top)] else [])
    + match ls[e].parent
      case None => []
      case Some(q) => UpAligns(ls, q, Some(e))
  }

  /** The alignments the forward pass makes on its way from the root down to e, e excluded. */
  function DownAligns(ls: Links, e: JointId): seq<Align>
    requires Forest(ls) && e < |ls|
    decreases Height(ls, e)
  {
    match ls[e].parent
    case None => []
    case Some(q) => DownAligns(ls, q) + (if Branching(ls, q) then [Align(q, Some(e))] else [])
  }

  /** The joints the forward pass visited, the alignments it made, and the stack it left. */
  datatype Walk = Walk(visited: seq<JointId>, aligns: seq<Align>, rest: seq<JointId>)

  /**
   * The forward pass from j over stack contents s (top last): it stops at a
   * leaf, follows the only slot of a one-child joint, and at a branch point
   * pops the stack and continues at the popped joint after aligning the
   * other children. None where the source would dereference NULL or a joint
   * that does not exist: an empty slot, or a pop from an empty stack.
   */
  function ForwardWalk(ls: Links, j: JointId, s: seq<JointId>): Option<Walk>
    requires Forest(ls) && j < |ls|
    decreases |s|, Rank(ls)[j]
  {
    if |ls[j].children| == 0 then Some(Walk([j], [], s))
    else if |ls[j].children| == 1 then
      match ls[j].children[0]
      case None => None
      case Some(c) =>
        match ForwardWalk(ls, c, s)
        case None => None
        case Some(w) => Some(Walk([j] + w.visited, w.aligns, w.rest))
    else if |s| == 0 || s[|s| - 1] >= |ls| then None
    else
      var c := s[|s| - 1];
      match ForwardWalk(ls, c, s[..|s| - 1])
      case None => None
      case Some(w) => Some(Walk([j] + w.visited, [Align(j, Some(c))] + w.aligns, w.rest))
  }

  /** The sequence in reverse order. */
  function Reversed<T>(s: seq<T>): (r: seq<T>)
    ensures |r| == |s|
    ensures forall i :: 0 <= i < |s| ==> r[i] == s[|s| - 1 - i]
  {
    if |s| == 0 then [] else Reversed(s[1..]) + [s[0]]
  }

  /** Reversal turns a concatenation around. */
  lemma ReversedConcat<T>(a: seq<T>, b: seq<T>)
    ensures Reversed(a + b) == Reversed(b) + Reversed(a)
  {
    var l, r := Reversed(a + b), Reversed(b) + Reversed(a);
    assert |l| == |r|;
    forall i | 0 <= i < |l|
      ensures l[i] == r[i]
    {
      if i < |b| {
        assert l[i] == (a + b)[|a| + |b| - 1 - i] == b[|b| - 1 - i];
      } else {
        assert l[i] == (a + b)[|a| + |b| - 1 - i] == a[|a| - 1 - (i - |b|)];
      }
    }
  }

  /** A joint lies in the branch of its parent. */
  lemma ChildOfParent(ls: Links, e: JointId)
    requires Forest(ls) && e < |ls| && ls[e].parent.Some?
    ensures e in Subtree(ls, ls[e].parent.value)
  {
    var q := ls[e].parent.value;
    assert Some(e) in ls[q].children;
    var m :| 0 <= m < |ls[q].children| && ls[q].children[m] == Some(e);
    CoveredContains(ls, q, |ls[q].children|, None, m);
  }

  /** Every joint lies in the branch of its root. */
  lemma {:induction false} InRootBranch(ls: Links, e: JointId)
    requires Forest(ls) && e < |ls|
    ensures e in Subtree(ls, Root(ls, e))
    decreases Height(ls, e)
  {
    match ls[e].parent
    case None =>
    case Some(q) =>
      InRootBranch(ls, q);
      ChildOfParent(ls, e);
      SubtreeClosed(ls, Root(ls, q), q);
  }

  /** Each tree has exactly one root: a parentless joint whose branch holds e is e's root. */
  lemma RootUnique(ls: Links, e: JointId, r: JointId)
    requires Forest(ls) && e < |ls| && r < |ls| && ls[r].parent.None? && e in Subtree(ls, r)
    ensures r == Root(ls, e)
  {
    var r' := Root(ls, e);
    InRootBranch(ls, e);
    Nested(ls, r, r', e);
    if r != r' {
      if r in Subtree(ls, r') {
        ParentInSubtree(ls, r', r);
      } else {
        ParentInSubtree(ls, r, r');
      }
      assert false;
    }
  }

  /** The path down from the root to e is the path up from e, reversed. */
  lemma {:induction false} DownPathReversesUp(ls: Links, e: JointId)
    requires Forest(ls) && e < |ls|
    ensures DownPath(ls, e) + [e] == Reversed(Up(ls, e))
    decreases Height(ls, e)
  {
    match ls[e].parent
    case None =>
    case Some(q) =>
      DownPathReversesUp(ls, q);
      ReversedConcat([e], Up(ls, q));
  }

  /** The joint is not the root, and its parent is a branch point. */
  predicate BranchChild(ls: Links, k: JointId)
    requires Linked(ls) && k < |ls|
  {
    ls[k].parent.Some? && Branching(ls, ls[k].parent.value)
  }

  /** The joints of s, in order, that are children of a branch point. */
  function BranchChildren(ls: Links, s: seq<JointId>): (r: seq<JointId>)
    requires Linked(ls) && forall k :: k in s ==> k < |ls|
    ensures |r| <= |s|
    ensures forall k :: k in r <==> k in s && BranchChild(ls, k)
  {
    if |s| == 0 then []
    else
      assert s[0] in s && forall k :: k in s[1..] ==> k in s;
      (if BranchChild(ls, s[0]) then [s[0]] else []) + BranchChildren(ls, s[1..])
  }

  /**
   * The backward pass pushes the joints of the path up from e whose parent
   * is a branch point, in the order the path visits them: leaf side first,
   * so the one nearest the root ends on top.
   */
  lemma {:induction false} PushedInPathOrder(ls: Links, e: JointId)
    requires Forest(ls) && e < |ls|
    ensures Pushed(ls, e) == BranchChildren(ls, Up(ls, e))
    decreases Height(ls, e)
  {
    match ls[e].parent
    case None =>
      assert Up(ls, e)[1..] == [];
    case Some(q) =>
      PushedInPathOrder(ls, q);
      assert Up(ls, e)[1..] == Up(ls, q);
  }

  /**
   * The backward pass pushes exactly the joints of the path up from e whose
   * parent is a branch point.
   */
  lemma {:induction false} PushedExactly(ls: Links, e: JointId, k: JointId)
    requires Forest(ls) && e < |ls|
    ensures k in Pushed(ls, e) <==> k in Up(ls, e) && BranchChild(ls, k)
    decreases Height(ls, e)
  {
    match ls[e].parent
    case None =>
    case Some(q) =>
      PushedExactly(ls, q, k);
  }

  /**
   * Above e, the backward pass reads as path child, at every branch point,
   * the child of that branch point it came from, which lies on the path up
   * from e.
   */
  lemma {:induction false} UpAlignsFollowPath(ls: Links, e: JointId, a: Align)
    requires Forest(ls) && e < |ls| && ls[e].parent.Some?
    requires a in UpAligns(ls, ls[e].parent.value, Some(e))
    ensures a.pathChild.Some? && a.pathChild.value in Up(ls, e)
    ensures ls[a.pathChild.value].parent == Some(a.joint)
    decreases Height(ls, e)
  {
    var q := ls[e].parent.value;
    if a != Align(q, Some(e)) || !Branching(ls, q) {
      UpAlignsFollowPath(ls, q, a);
    }
  }

  /**
   * Both passes align at the same branch points with the same path child:
   * the forward pass down to e repeats, in reverse order, what the backward
   * pass did above e.
   */
  lemma {:induction false} PassesAgree(ls: Links, e: JointId)
    requires Forest(ls) && e < |ls| && ls[e].parent.Some?
    ensures DownAligns(ls, e) == Reversed(UpAligns(ls, ls[e].parent.value, Some(e)))
    decreases Height(ls, e)
  {
    var q := ls[e].parent.value;
    var here := if Branching(ls, q) then [Align(q, Some(e))] else [];
    match ls[q].parent
    case None =>
      assert UpAligns(ls, q, Some(e)) == here + [];
      assert Reversed(here) == here;
    case Some(g) =>
      PassesAgree(ls, q);
      ReversedConcat(here, UpAligns(ls, g, Some(q)));
      assert Reversed(here) == here;
  }

  /**
   * One step up: if the forward pass from e over s succeeds, then the
   * forward pass from e's parent, over s with e pushed when the parent is a
   * branch point, goes through e and does the same afterwards.
   */
  lemma StepUp(ls: Links, e: JointId, s: seq<JointId>)
    requires Forest(ls) && e < |ls| && ls[e].parent.Some? && ForwardWalk(ls, e, s).Some?
    ensures var q := ls[e].parent.value;
            var w := ForwardWalk(ls, e, s).value;
            ForwardWalk(ls, q, s + (if Branching(ls, q) then [e] else [])) ==
              Some(Walk([q] + w.visited, (if Branching(ls, q) then [Align(q, Some(e))] else []) + w.aligns, w.rest))
  {
    var q := ls[e].parent.value;
    assert Some(e) in ls[q].children;
    if Branching(ls, q) {
      var s' := s + [e];
      assert s'[..|s'| - 1] == s;
    } else {
      assert ls[q].children[0] == Some(e);
      assert s + [] == s;
      var w := ForwardWalk(ls, e, s).value;
      assert ForwardWalk(ls, q, s) == Some(Walk([q] + w.visited, w.aligns, w.rest));
      assert [] + w.aligns == w.aligns;
    }
  }

  /** What Retrace promises for the forward pass from e over s. */
  ghost predicate Retraces(ls: Links, e: JointId, s: seq<JointId>)
    requires Forest(ls) && e < |ls| && ForwardWalk(ls, e, s).Some?
  {
    var w := ForwardWalk(ls, e, s).value;
    ForwardWalk(ls, Root(ls, e), s + Pushed(ls, e)) ==
      Some(Walk(DownPath(ls, e) + w.visited, DownAligns(ls, e) + w.aligns, w.rest))
  }

  /** One step up the path, as Root, Pushed, DownPath and DownAligns take it. */
  lemma UpStep(ls: Links, e: JointId)
    requires Forest(ls) && e < |ls| && ls[e].parent.Some?
    ensures var q := ls[e].parent.value;
            && Root(ls, e) == Root(ls, q)
            && Pushed(ls, e) == (if Branching(ls, q) then [e] else []) + Pushed(ls, q)
            && DownPath(ls, e) == DownPath(ls, q) + [q]
            && DownAligns(ls, e) == DownAligns(ls, q) + (if Branching(ls, q) then [Align(q, Some(e))] else [])
  {
  }

  /** Retrace for e, given Retrace for its parent over the stack with e pushed at a branch point. */
  lemma RetraceStep(ls: Links, e: JointId, s: seq<JointId>)
    requires Forest(ls) && e < |ls| && ls[e].parent.Some? && ForwardWalk(ls, e, s).Some?
    requires var q := ls[e].parent.value;
             var s' := s + (if Branching(ls, q) then [e] else []);
             ForwardWalk(ls, q, s').Some? && Retraces(ls, q, s')
    ensures Retraces(ls, e, s)
  {
    var w := ForwardWalk(ls, e, s).value;
    var q := ls[e].parent.value;
    var here := if Branching(ls, q) then [e] else [];
    var al := if Branching(ls, q) then [Align(q, Some(e))] else [];
    var s' := s + here;
    var w' := Walk([q] + w.visited, al + w.aligns, w.rest);
    StepUp(ls, e, s);
    UpStep(ls, e);
    assert ForwardWalk(ls, q, s') == Some(w');
    assert Pushed(ls, e) == here + Pushed(ls, q);
    ConcatAssoc(s, here, Pushed(ls, q));
    assert s + Pushed(ls, e) == s' + Pushed(ls, q);
    ConcatAssoc(DownPath(ls, q), [q], w.visited);
    ConcatAssoc(DownAligns(ls, q), al, w.aligns);
    assert DownPath(ls, q) + w'.visited == DownPath(ls, e) + w.visited;
    assert DownAligns(ls, q) + w'.aligns == DownAligns(ls, e) + w.aligns;
    assert ForwardWalk(ls, Root(ls, q), s' + Pushed(ls, q))
        == Some(Walk(DownPath(ls, e) + w.visited, DownAligns(ls, e) + w.aligns, w.rest));
  }

  lemma ConcatAssoc<T>(a: seq<T>, b: seq<T>, c: seq<T>)
    ensures a + (b + c) == (a + b) + c
  {
  }

  /**
   * The forward pass retraces the backward pass: started at the root over
   * the stack the backward pass from e left, it walks down the path to e,
   * aligning as DownAligns says, and from e on does what a forward pass
   * from e over the original stack does.
   */
  lemma {:induction false} Retrace(ls: Links, e: JointId, s: seq<JointId>)
    requires Forest(ls) && e < |ls| && ForwardWalk(ls, e, s).Some?
    ensures var w := ForwardWalk(ls, e, s).value;
            ForwardWalk(ls, Root(ls, e), s + Pushed(ls, e)) ==
              Some(Walk(DownPath(ls, e) + w.visited, DownAligns(ls, e) + w.aligns, w.rest))
    decreases Height(ls, e)
  {
    var w := ForwardWalk(ls, e, s).value;
    match ls[e].parent
    case None =>
      assert s + Pushed(ls, e) == s;
      assert DownPath(ls, e) + w.visited == w.visited;
      assert DownAligns(ls, e) + w.aligns == w.aligns;
    case Some(q) =>
      var s' := s + (if Branching(ls, q) then [e] else []);
      StepUp(ls, e, s);
      Retrace(ls, q, s');
      RetraceStep(ls, e, s);
      assert Retraces(ls, e, s);
  }

  /** No joint of the branch rooted at r is a branch point. */
  ghost predicate Unbranched(ls: Links, r: JointId)
    requires Forest(ls) && r < |ls|
  {
    forall k :: k in Subtree(ls, r) ==> !Branching(ls, k)
  }

  /** The branch of a joint with a single filled slot is the joint and its child's branch. */
  lemma ChainBranch(ls: Links, r: JointId)
    requires Forest(ls) && r < |ls| && |ls[r].children| == 1 && ls[r].children[0].Some?
    ensures Subtree(ls, r) == {r} + Subtree(ls, ls[r].children[0].value)
  {
    assert Covered(ls, r, 0, None) == {};
  }

  /**
   * On a complete branch, the forward pass never pops and never aligns
   * exactly when the branch is a chain: it then reaches the leaf and leaves
   * the stack as it found it; otherwise it meets a branch point with an
   * empty stack.
   */
  lemma {:induction false} ChainWalk(ls: Links, r: JointId, s: seq<JointId>)
    requires Forest(ls) && r < |ls| && SubtreeComplete(ls, r)
    ensures Unbranched(ls, r) ==>
              ForwardWalk(ls, r, s).Some? && ForwardWalk(ls, r, s).value.rest == s && ForwardWalk(ls, r, s).value.aligns == []
    ensures ForwardWalk(ls, r, []).Some? ==> Unbranched(ls, r)
    decreases Rank(ls)[r]
  {
    if |ls[r].children| == 0 {
      assert Subtree(ls, r) == {r};
    } else if |ls[r].children| == 1 {
      var c := ls[r].children[0].value;
      ChildComplete(ls, r, 0);
      ChainBranch(ls, r);
      ChainWalk(ls, c, s);
      ChainWalk(ls, c, []);
    } else {
      assert r in Subtree(ls, r);
    }
  }

  /** The branch of the slot holding c is disjoint from the branches of the slots other than c's. */
  lemma {:induction false} SkipDisjoint(ls: Links, q: JointId, i: nat, m: nat)
    requires Forest(ls) && q < |ls| && i <= |ls[q].children| && m < |ls[q].children| && ls[q].children[m].Some?
    ensures Subtree(ls, ls[q].children[m].value) !! Covered(ls, q, i, ls[q].children[m])
  {
    if i > 0 {
      SkipDisjoint(ls, q, i - 1, m);
      var slot := ls[q].children[i - 1];
      if slot.Some? && slot != ls[q].children[m] {
        SlotsDisjoint(ls, q, i - 1, m);
      }
    }
  }

  /** What a pass aligns at q, going through child c, leaves c's branch alone. */
  lemma OthersDisjoint(ls: Links, c: JointId)
    requires Forest(ls) && c < |ls| && ls[c].parent.Some?
    ensures Subtree(ls, c) !! Others(ls, ls[c].parent.value, Some(c))
  {
    var q := ls[c].parent.value;
    assert Some(c) in ls[q].children;
    var m :| 0 <= m < |ls[q].children| && ls[q].children[m] == Some(c);
    SkipDisjoint(ls, q, |ls[q].children|, m);
  }

  /** What a pass aligns at j lies strictly below j. */
  lemma OthersBelow(ls: Links, j: JointId, pathChild: Option<JointId>, k: JointId)
    requires Forest(ls) && j < |ls| && k in Others(ls, j, pathChild)
    ensures Rank(ls)[k] < Rank(ls)[j] && k in Subtree(ls, j)
  {
    CoveredRank(ls, j, |ls[j].children|, pathChild, k);
    var m := CoveredWitness(ls, j, |ls[j].children|, pathChild, k);
    CoveredContains(ls, j, |ls[j].children|, None, m);
  }

  /** Ranks grow along the path up from e. */
  lemma {:induction false} UpRank(ls: Links, e: JointId, k: JointId)
    requires Forest(ls) && e < |ls| && k in Up(ls, e)
    ensures Rank(ls)[e] <= Rank(ls)[k]
    decreases Height(ls, e)
  {
    match ls[e].parent
    case None =>
    case Some(q) =>
      if k != e {
        UpRank(ls, q, k);
      }
  }

  /** A joint strictly above e is outside e's branch. */
  lemma AboveOutside(ls: Links, e: JointId, k: JointId)
    requires Forest(ls) && e < |ls| && k < |ls| && Rank(ls)[e] < Rank(ls)[k]
    ensures k !in Subtree(ls, e)
  {
    if k in Subtree(ls, e) {
      SubtreeRank(ls, e, k);
    }
  }

  /**
   * The stack is consistent with the tree below j: at every branch point the
   * forward pass reaches, the stack holds a child of that branch point on
   * top, and every one-child joint it reaches has its slot filled.
   */
  ghost predicate Descends(ls: Links, j: JointId, s: seq<JointId>)
    requires Forest(ls) && j < |ls|
    decreases |s|, Rank(ls)[j]
  {
    if |ls[j].children| == 0 then true
    else if |ls[j].children| == 1 then
      ls[j].children[0].Some? && Descends(ls, ls[j].children[0].value, s)
    else
      |s| > 0 && s[|s| - 1] < |ls| && ls[s[|s| - 1]].parent == Some(j) && Descends(ls, s[|s| - 1], s[..|s| - 1])
  }

  /**
   * On a consistent stack the forward pass does not fail, and it only
   * visits the branch it starts from, each joint after the first being a
   * child of the one before.
   */
  lemma {:induction false} DescendsWalks(ls: Links, j: JointId, s: seq<JointId>)
    requires Forest(ls) && j < |ls| && Descends(ls, j, s)
    ensures ForwardWalk(ls, j, s).Some?
    ensures var v := ForwardWalk(ls, j, s).value.visited;
            |v| > 0 && v[0] == j && (forall k :: k in v ==> k in Subtree(ls, j))
            && forall i :: 0 < i < |v| ==> v[i] < |ls| && ls[v[i]].parent == Some(v[i - 1])
    decreases |s|, Rank(ls)[j]
  {
    if |ls[j].children| > 0 {
      var c, s' := if |ls[j].children| == 1 then ls[j].children[0].value else s[|s| - 1],
                   if |ls[j].children| == 1 then s else s[..|s| - 1];
      DescendsWalks(ls, c, s');
      ChildOfParent(ls, c);
      SubtreeClosed(ls, j, c);
      var w := ForwardWalk(ls, c, s').value;
      assert ForwardWalk(ls, j, s).value.visited == [j] + w.visited;
    }
  }

  /** On a consistent stack, the forward pass from the root over what the backward pass pushed stays consistent. */
  lemma {:induction false} RetraceDescends(ls: Links, e: JointId, s: seq<JointId>)
    requires Forest(ls) && e < |ls| && Descends(ls, e, s)
    ensures Descends(ls, Root(ls, e), s + Pushed(ls, e))
    decreases Height(ls, e)
  {
    match ls[e].parent
    case None =>
      assert s + Pushed(ls, e) == s;
    case Some(q) =>
      var s' := s + (if Branching(ls, q) then [e] else []);
      assert Some(e) in ls[q].children;
      if Branching(ls, q) {
        assert s'[..|s'| - 1] == s;
      } else {
        assert ls[q].children[0] == Some(e);
        assert s' == s;
      }
      assert Descends(ls, q, s');
      RetraceDescends(ls, q, s');
      UpStep(ls, e);
      ConcatAssoc(s, if Branching(ls, q) then [e] else [], Pushed(ls, q));
  }

  /** Any stack is consistent with a complete chain. */
  lemma {:induction false} ChainDescends(ls: Links, r: JointId, s: seq<JointId>)
    requires Forest(ls) && r < |ls| && SubtreeComplete(ls, r) && Unbranched(ls, r)
    ensures Descends(ls, r, s)
    decreases Rank(ls)[r]
  {
    if |ls[r].children| == 1 {
      ChildComplete(ls, r, 0);
      ChainBranch(ls, r);
      ChainDescends(ls, ls[r].children[0].value, s);
    } else {
      assert r in Subtree(ls, r);
    }
  }

  /** From an empty stack, the forward pass succeeds only through joints with at most one slot, and pops nothing. */
  lemma {:induction false} EmptyStackWalk(ls: Links, j: JointId)
    requires Forest(ls) && j < |ls| && ForwardWalk(ls, j, []).Some?
    ensures !Branching(ls, j)
    ensures ForwardWalk(ls, j, []).value.aligns == [] && ForwardWalk(ls, j, []).value.rest == []
    decreases Rank(ls)[j]
  {
    if |ls[j].children| == 1 {
      EmptyStackWalk(ls, ls[j].children[0].value);
    }
  }

  /**
   * From an empty stack, the forward pass from the root over what the
   * backward pass from e pushed makes the backward pass's alignments in
   * reverse order and empties the stack.
   */
  lemma MirrorWalk(ls: Links, e: JointId)
    requires Forest(ls) && e < |ls| && ForwardWalk(ls, e, []).Some?
    ensures ForwardWalk(ls, Root(ls, e), Pushed(ls, e)).Some?
    ensures var w := ForwardWalk(ls, Root(ls, e), Pushed(ls, e)).value;
            w.aligns == Reversed(UpAligns(ls, e, None)) && w.rest == []
  {
    Retrace(ls, e, []);
    assert [] + Pushed(ls, e) == Pushed(ls, e);
    EmptyStackWalk(ls, e);
    var w := ForwardWalk(ls, e, []).value;
    assert ForwardWalk(ls, Root(ls, e), Pushed(ls, e)) == Some(Walk(DownPath(ls, e) + w.visited, DownAligns(ls, e) + [], []));
    assert DownAligns(ls, e) + [] == DownAligns(ls, e);
    var up := UpAligns(ls, e, None);
    match ls[e].parent
    case None =>
      assert up == [];
    case Some(q) =>
      assert up == UpAligns(ls, q, Some(e));
      PassesAgree(ls, e);
  }

  /**
   * What a pass aligns at j is exactly the branches of j's filled slots
   * other than the path child's: a joint is aligned if and only if it lies
   * in the branch of such a slot.
   */
  lemma OthersExactly(ls: Links, j: JointId, pathChild: Option<JointId>, k: JointId)
    requires Forest(ls) && j < |ls|
    ensures k in Others(ls, j, pathChild) <==>
              exists m :: 0 <= m < |ls[j].children| && ls[j].children[m].Some? && ls[j].children[m] != pathChild
                          && k in Subtree(ls, ls[j].children[m].value)
  {
    var n := |ls[j].children|;
    if k in Others(ls, j, pathChild) {
      var m := CoveredWitness(ls, j, n, pathChild, k);
    }
    if exists m :: 0 <= m < n && ls[j].children[m].Some? && ls[j].children[m] != pathChild
                   && k in Subtree(ls, ls[j].children[m].value) {
      var m :| 0 <= m < n && ls[j].children[m].Some? && ls[j].children[m] != pathChild
               && k in Subtree(ls, ls[j].children[m].value);
      CoveredContains(ls, j, n, pathChild, m);
    }
  }
}
