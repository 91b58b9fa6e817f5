/**
 * What render extraction emits: for every slot of every joint of a branch,
 * in pre-order, the segment from the joint to its child, as two points.
 */
module Render {
  import opened Wrappers
  import opened Geometry
  import opened JointTree

  /** A segment from a joint (first) to one of its children (second). */
  type Edge = (JointId, JointId)

  /**
   * The segments of the branch rooted at r in emission order: slot by slot,
   * the segment to the child followed by the child's own segments.
   */
  ghost function Edges(ls: Links, r: JointId): (es: seq<Edge>)
    requires Forest(ls) && r < |ls| && SubtreeComplete(ls, r)
    ensures InArena(|ls|, es)
    decreases Rank(ls)[r], 1
  {
    SlotEdges(ls, r, |ls[r].children|)
  }

  /** The segments emitted for the first i slots of r. */
  ghost function SlotEdges(ls: Links, r: JointId, i: nat): (es: seq<Edge>)
    requires Forest(ls) && r < |ls| && SubtreeComplete(ls, r) && i <= |ls[r].children|
    ensures InArena(|ls|, es)
    decreases Rank(ls)[r], 0, i
  {
    if i == 0 then []
    else
      ChildComplete(ls, r, i - 1);
      var c := ls[r].children[i - 1].value;
      SlotEdges(ls, r, i - 1) + [(r, c)] + Edges(ls, c)
  }

  /** Both ends of every segment are joints of the arena. */
  ghost predicate InArena(n: nat, es: seq<Edge>)
  {
    forall m :: 0 <= m < |es| ==> es[m].0 < n && es[m].1 < n
  }

  /** The points of the segments, two per segment, built segment by segment; FlattenAt states what each point is. */
  function Flatten(ps: seq<Vec>, es: seq<Edge>): (f: seq<Vec>)
    requires InArena(|ps|, es)
    ensures |f| == 2 * |es|
  {
    if |es| == 0 then []
    else
      var last := es[|es| - 1];
      Flatten(ps, es[..|es| - 1]) + [ps[last.0], ps[last.1]]
  }

  /** Segment m contributes the points 2m and 2m + 1: its parent's position, then its child's. */
  lemma {:induction false} FlattenAt(ps: seq<Vec>, es: seq<Edge>)
    requires InArena(|ps|, es)
    ensures forall m :: 0 <= m < |es| ==> Flatten(ps, es)[2 * m] == ps[es[m].0] && Flatten(ps, es)[2 * m + 1] == ps[es[m].1]
  {
    if |es| > 0 {
      var n := |es| - 1;
      assert forall m :: 0 <= m < n ==> es[..n][m] == es[m];
      FlattenAt(ps, es[..n]);
    }
  }

  /** Flattening distributes over concatenation of segment lists. */
  lemma FlattenConcat(ps: seq<Vec>, a: seq<Edge>, b: seq<Edge>)
    requires InArena(|ps|, a) && InArena(|ps|, b)
    ensures InArena(|ps|, a + b)
    ensures Flatten(ps, a + b) == Flatten(ps, a) + Flatten(ps, b)
  {
    var l, r := Flatten(ps, a + b), Flatten(ps, a) + Flatten(ps, b);
    FlattenAt(ps, a + b);
    FlattenAt(ps, a);
    FlattenAt(ps, b);
    forall k | 0 <= k < |l|
      ensures l[k] == r[k]
    {
      var m := k / 2;
      if m < |a| {
        assert (a + b)[m] == a[m];
      } else {
        assert (a + b)[m] == b[m - |a|];
        assert k - 2 * |a| == 2 * (m - |a|) + k % 2;
      }
    }
  }

  /** The children a segment list reaches. */
  ghost function Ends(es: seq<Edge>): set<JointId>
  {
    set m | 0 <= m < |es| :: es[m].1
  }

  lemma EndsConcat(a: seq<Edge>, b: seq<Edge>)
    ensures Ends(a + b) == Ends(a) + Ends(b)
  {
    forall k | k in Ends(a + b)
      ensures k in Ends(a) + Ends(b)
    {
      var m :| 0 <= m < |a + b| && (a + b)[m].1 == k;
      if m < |a| { assert a[m].1 == k; } else { assert b[m - |a|].1 == k; }
    }
    forall k | k in Ends(a) + Ends(b)
      ensures k in Ends(a + b)
    {
      if k in Ends(a) {
        var m :| 0 <= m < |a| && a[m].1 == k;
        assert (a + b)[m].1 == k;
      } else {
        var m :| 0 <= m < |b| && b[m].1 == k;
        assert (a + b)[|a| + m].1 == k;
      }
    }
  }

  /**
   * Every emitted segment is a parent link inside the branch: its first end
   * is a joint of the branch and is the parent of its second end.
   */
  lemma {:induction false} EdgesAreLinks(ls: Links, r: JointId)
    requires Forest(ls) && r < |ls| && SubtreeComplete(ls, r)
    ensures forall m :: 0 <= m < |Edges(ls, r)| ==>
              Edges(ls, r)[m].0 in Subtree(ls, r) && ls[Edges(ls, r)[m].1].parent == Some(Edges(ls, r)[m].0)
    decreases Rank(ls)[r], 1
  {
    SlotEdgesAreLinks(ls, r, |ls[r].children|);
  }

  lemma {:induction false} SlotEdgesAreLinks(ls: Links, r: JointId, i: nat)
    requires Forest(ls) && r < |ls| && SubtreeComplete(ls, r) && i <= |ls[r].children|
    ensures forall m :: 0 <= m < |SlotEdges(ls, r, i)| ==>
              SlotEdges(ls, r, i)[m].0 in Subtree(ls, r) && ls[SlotEdges(ls, r, i)[m].1].parent == Some(SlotEdges(ls, r, i)[m].0)
    decreases Rank(ls)[r], 0, i
  {
    if i > 0 {
      ChildComplete(ls, r, i - 1);
      var c := ls[r].children[i - 1].value;
      SlotEdgesAreLinks(ls, r, i - 1);
      EdgesAreLinks(ls, c);
      ChildInSubtree(ls, r, r, i - 1);
      SubtreeClosed(ls, r, c);
      var pre, here, below := SlotEdges(ls, r, i - 1), [(r, c)], Edges(ls, c);
      var es := SlotEdges(ls, r, i);
      assert es == pre + here + below;
      forall m | 0 <= m < |es|
        ensures es[m].0 in Subtree(ls, r) && ls[es[m].1].parent == Some(es[m].0)
      {
        if m < |pre| {
          assert es[m] == pre[m];
        } else if m == |pre| {
          assert es[m] == (r, c);
        } else {
          assert es[m] == below[m - |pre| - 1];
        }
      }
    }
  }

  /**
   * Render extraction emits one segment per joint of the branch other than
   * its root, ending at that joint: the segments' children are exactly the
   * non-root joints of the branch.
   */
  lemma {:induction false} EdgesReachBranch(ls: Links, r: JointId)
    requires Forest(ls) && r < |ls| && SubtreeComplete(ls, r)
    ensures Ends(Edges(ls, r)) == Subtree(ls, r) - {r}
    decreases Rank(ls)[r], 1
  {
    var n := |ls[r].children|;
    SlotEdgesReach(ls, r, n);
    if r in Covered(ls, r, n, None) {
      CoveredRank(ls, r, n, None, r);
    }
    assert Subtree(ls, r) - {r} == Covered(ls, r, n, None);
  }

  lemma {:induction false} SlotEdgesReach(ls: Links, r: JointId, i: nat)
    requires Forest(ls) && r < |ls| && SubtreeComplete(ls, r) && i <= |ls[r].children|
    ensures Ends(SlotEdges(ls, r, i)) == Covered(ls, r, i, None)
    decreases Rank(ls)[r], 0, i
  {
    if i > 0 {
      ChildComplete(ls, r, i - 1);
      var c := ls[r].children[i - 1].value;
      SlotEdgesReach(ls, r, i - 1);
      EdgesReachBranch(ls, c);
      var pre, below := SlotEdges(ls, r, i - 1), Edges(ls, c);
      assert SlotEdges(ls, r, i) == pre + ([(r, c)] + below);
      EndsConcat(pre, [(r, c)] + below);
      EndsConcat([(r, c)], below);
      assert [(r, c)][0].1 == c;
      assert Ends([(r, c)]) == {c};
    }
  }

  /**
   * There are as many segments as non-root joints in the branch; with
   * EdgesReachBranch, no joint is reached twice.
   */
  lemma {:induction false} EdgeCount(ls: Links, r: JointId)
    requires Forest(ls) && r < |ls| && SubtreeComplete(ls, r)
    ensures |Edges(ls, r)| == |Subtree(ls, r)| - 1
    decreases Rank(ls)[r], 1
  {
    var n := |ls[r].children|;
    SlotEdgeCount(ls, r, n);
    if r in Covered(ls, r, n, None) {
      CoveredRank(ls, r, n, None, r);
    }
    assert Subtree(ls, r) - {r} == Covered(ls, r, n, None);
  }

  lemma {:induction false} SlotEdgeCount(ls: Links, r: JointId, i: nat)
    requires Forest(ls) && r < |ls| && SubtreeComplete(ls, r) && i <= |ls[r].children|
    ensures |SlotEdges(ls, r, i)| == |Covered(ls, r, i, None)|
    decreases Rank(ls)[r], 0, i
  {
    if i > 0 {
      ChildComplete(ls, r, i - 1);
      var c := ls[r].children[i - 1].value;
      assert |SlotEdges(ls, r, i)| == |SlotEdges(ls, r, i - 1)| + 1 + |Edges(ls, c)|;
      SlotEdgeCount(ls, r, i - 1);
      EdgeCount(ls, c);
      CoveredCount(ls, r, i - 1);
    }
  }

  /** The points of the first i + 1 slots of r: those of the first i, the segment to child i, then the child's own. */
  lemma FlattenSlot(ls: Links, ps: seq<Vec>, r: JointId, i: nat)
    requires Forest(ls) && |ps| == |ls| && r < |ls| && SubtreeComplete(ls, r) && i < |ls[r].children|
    ensures ls[r].children[i].Some? && ls[r].children[i].value < |ls|
    ensures (ChildComplete(ls, r, i);
             var c := ls[r].children[i].value;
             Flatten(ps, SlotEdges(ls, r, i + 1)) == Flatten(ps, SlotEdges(ls, r, i)) + [ps[r], ps[c]] + Flatten(ps, Edges(ls, c)))
  {
    ChildComplete(ls, r, i);
    var c := ls[r].children[i].value;
    var se := SlotEdges(ls, r, i);
    var mid := se + [(r, c)];
    assert mid[..|se|] == se;
    assert Flatten(ps, mid) == Flatten(ps, se) + [ps[r], ps[c]];
    FlattenConcat(ps, mid, Edges(ls, c));
  }

  /** Two pushes and then a block appended after a prefix and a first block. */
  lemma PushSteps<T>(b0: seq<T>, done: seq<T>, x: T, y: T, below: seq<T>, before: seq<T>, pushed: seq<T>, after: seq<T>)
    requires before == b0 + done && pushed == before + [x] + [y] && after == pushed + below
    ensures after == b0 + (done + [x, y] + below)
  {
    assert after == b0 + done + [x] + [y] + below;
  }

  /**
   * Emitting slot i of r appends the segment to its child, then the
   * child's own segments: a buffer holding b0 and the first i slots' points
   * then holds b0 and the first i + 1 slots' points.
   */
  lemma RenderStep(ls: Links, ps: seq<Vec>, r: JointId, i: nat, b0: seq<Vec>, before: seq<Vec>, pushed: seq<Vec>, after: seq<Vec>)
    requires Forest(ls) && |ps| == |ls| && r < |ls| && SubtreeComplete(ls, r) && i < |ls[r].children|
    requires ls[r].children[i].Some? && ls[r].children[i].value < |ls|
    requires before == b0 + Flatten(ps, SlotEdges(ls, r, i))
    requires pushed == before + [ps[r]] + [ps[ls[r].children[i].value]]
    requires (ChildComplete(ls, r, i); after == pushed + Flatten(ps, Edges(ls, ls[r].children[i].value)))
    ensures after == b0 + Flatten(ps, SlotEdges(ls, r, i + 1))
  {
    var c := ls[r].children[i].value;
    ChildComplete(ls, r, i);
    FlattenSlot(ls, ps, r, i);
    PushSteps(b0, Flatten(ps, SlotEdges(ls, r, i)), ps[r], ps[c], Flatten(ps, Edges(ls, c)), before, pushed, after);
  }
}
