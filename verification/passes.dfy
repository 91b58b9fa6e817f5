/**
 * The positions a solve computes. The backward pass moves the effected
 * joint onto the target and every joint up to the root within its segment
 * length of the joint below; the forward pass moves the root back to where
 * it was and every joint on the way down within its segment length of the
 * joint above. At every branch point a pass reaches, the branches of the
 * children it does not go through are carried along rigidly.
 */
module Passes {
  import opened Wrappers
  import opened Geometry
  import opened JointTree
  import opened Paths
  import opened PathStacks

  /**
   * The positions after applying mo to the joints of S, and to no other
   * joint, built joint by joint; MappedAt states what each entry is.
   */
  function Mapped(pos: seq<Vec>, S: set<JointId>, mo: Motion): (r: seq<Vec>)
    ensures |r| == |pos|
  {
    if |pos| == 0 then []
    else
      var k := |pos| - 1;
      Mapped(pos[..k], S, mo) + [if k in S then Apply(mo, pos[k]) else pos[k]]
  }

  /** Exactly the joints of S move, each by mo. */
  lemma {:induction false} MappedAt(pos: seq<Vec>, S: set<JointId>, mo: Motion)
    ensures forall k :: 0 <= k < |pos| ==> Mapped(pos, S, mo)[k] == if k in S then Apply(mo, pos[k]) else pos[k]
  {
    if |pos| > 0 {
      var n := |pos| - 1;
      MappedAt(pos[..n], S, mo);
      assert forall k :: 0 <= k < n ==> pos[..n][k] == pos[k];
    }
  }

  /** Applying mo to the joints of S and to no other joint gives at most one result. */
  lemma MappedUnique(pos: seq<Vec>, S: set<JointId>, mo: Motion, r: seq<Vec>)
    requires |r| == |pos|
    requires forall k :: 0 <= k < |pos| ==> r[k] == if k in S then Apply(mo, pos[k]) else pos[k]
    ensures Mapped(pos, S, mo) == r
  {
    MappedAt(pos, S, mo);
  }

  /** Moving no joint changes nothing. */
  lemma MappedNone(pos: seq<Vec>, mo: Motion)
    ensures Mapped(pos, {}, mo) == pos
  {
    MappedUnique(pos, {}, mo, pos);
  }

  /** Moving two disjoint sets of joints one after the other moves their union. */
  lemma MappedUnion(pos: seq<Vec>, a: set<JointId>, b: set<JointId>, mo: Motion)
    requires a !! b
    ensures Mapped(Mapped(pos, a, mo), b, mo) == Mapped(pos, a + b, mo)
  {
    MappedAt(pos, a, mo);
    MappedAt(Mapped(pos, a, mo), b, mo);
    MappedUnique(pos, a + b, mo, Mapped(Mapped(pos, a, mo), b, mo));
  }

  /** Translating a set of joints by d and then by -d restores every position. */
  lemma ShiftBack(pos: seq<Vec>, S: set<JointId>, d: Vec)
    ensures Mapped(Mapped(pos, S, Shift(d)), S, Shift(Neg(d))) == pos
  {
    var r := Mapped(Mapped(pos, S, Shift(d)), S, Shift(Neg(d)));
    MappedAt(pos, S, Shift(d));
    MappedAt(Mapped(pos, S, Shift(d)), S, Shift(Neg(d)));
    forall k | 0 <= k < |pos|
      ensures r[k] == pos[k]
    {
      ShiftRoundTrip(d, pos[k]);
    }
  }

  /** Under a rigid motion, the moved joints keep their distances to each other. */
  lemma MappedRigid(pos: seq<Vec>, S: set<JointId>, mo: Motion, a: JointId, b: JointId)
    requires Rigid(mo) && a < |pos| && b < |pos| && a in S && b in S
    ensures Dist2(Mapped(pos, S, mo)[a], Mapped(pos, S, mo)[b]) == Dist2(pos[a], pos[b])
  {
    MappedAt(pos, S, mo);
    RigidKeepsDistance(mo, pos[a], pos[b]);
  }

  /** The position of j's parent, None for a root. */
  function ParentPos(ls: Links, pos: seq<Vec>, j: JointId): Option<Vec>
    requires Forest(ls) && |pos| == |ls| && j < |ls|
  {
    match ls[j].parent
    case None => None
    case Some(q) => Some(pos[q])
  }

  /**
   * The step a pass takes at a branch point j once j has moved from org to
   * pos[j]: the branches of all slots of j but pathChild's are rotated
   * about j as ik_align_branch does, or only translated with j when j is a
   * root. A joint with at most one slot aligns nothing.
   */
  ghost function Realign(ls: Links, pos: seq<Vec>, j: JointId, org: Vec, pathChild: Option<JointId>, ops: FloatOps): (r: seq<Vec>)
    requires Forest(ls) && |pos| == |ls| && j < |ls|
    ensures |r| == |pos|
  {
    if Branching(ls, j) then Mapped(pos, Others(ls, j, pathChild), BranchMotion(org, pos[j], ParentPos(ls, pos, j), ops))
    else pos
  }

  /** Realign moves exactly the joints of the other branches, when j is a branch point. */
  lemma RealignAt(ls: Links, pos: seq<Vec>, j: JointId, org: Vec, pathChild: Option<JointId>, ops: FloatOps)
    requires Forest(ls) && |pos| == |ls| && j < |ls|
    ensures forall k :: 0 <= k < |pos| ==>
              Realign(ls, pos, j, org, pathChild, ops)[k] ==
              if Branching(ls, j) && k in Others(ls, j, pathChild) then Apply(BranchMotion(org, pos[j], ParentPos(ls, pos, j), ops), pos[k]) else pos[k]
  {
    MappedAt(pos, Others(ls, j, pathChild), BranchMotion(org, pos[j], ParentPos(ls, pos, j), ops));
  }

  /** Realign only moves joints strictly below j, and never the path child's branch. */
  lemma RealignFrame(ls: Links, pos: seq<Vec>, j: JointId, org: Vec, pathChild: Option<JointId>, ops: FloatOps, k: JointId)
    requires Forest(ls) && |pos| == |ls| && j < |ls| && k < |ls|
    requires Rank(ls)[j] <= Rank(ls)[k] || (pathChild.Some? && pathChild.value < |ls| && ls[pathChild.value].parent == Some(j) && k in Subtree(ls, pathChild.value))
    ensures Realign(ls, pos, j, org, pathChild, ops)[k] == pos[k]
  {
    RealignAt(ls, pos, j, org, pathChild, ops);
    if Branching(ls, j) && k in Others(ls, j, pathChild) {
      OthersBelow(ls, j, pathChild, k);
      if Rank(ls)[j] > Rank(ls)[k] {
        OthersDisjoint(ls, pathChild.value);
      }
    }
  }

  /**
   * The positions after an alignment loop at j has handled its first i
   * slots: slot by slot, the branch of every filled slot but pathChild's is
   * moved by mo.
   */
  ghost function AlignedUpTo(ls: Links, pos0: seq<Vec>, j: JointId, i: nat, pathChild: Option<JointId>, mo: Motion): (r: seq<Vec>)
    requires Forest(ls) && j < |ls| && i <= |ls[j].children|
    ensures |r| == |pos0|
  {
    if i == 0 then pos0
    else
      var r := AlignedUpTo(ls, pos0, j, i - 1, pathChild, mo);
      var slot := ls[j].children[i - 1];
      if slot.None? || slot == pathChild then r else Mapped(r, Subtree(ls, slot.value), mo)
  }

  /** Handling the slots one at a time moves exactly the union of their branches. */
  lemma {:induction false} AlignedUpToMapped(ls: Links, pos0: seq<Vec>, j: JointId, i: nat, pathChild: Option<JointId>, mo: Motion)
    requires Forest(ls) && j < |ls| && i <= |ls[j].children|
    ensures AlignedUpTo(ls, pos0, j, i, pathChild, mo) == Mapped(pos0, Covered(ls, j, i, pathChild), mo)
  {
    if i == 0 {
      MappedNone(pos0, mo);
    } else {
      AlignedUpToMapped(ls, pos0, j, i - 1, pathChild, mo);
      var slot := ls[j].children[i - 1];
      if !(slot.None? || slot == pathChild) {
        CoveredDisjoint(ls, j, i - 1, pathChild, i - 1);
        MappedUnion(pos0, Covered(ls, j, i - 1, pathChild), Subtree(ls, slot.value), mo);
      } else {
        assert Covered(ls, j, i, pathChild) == Covered(ls, j, i - 1, pathChild);
      }
    }
  }

  /**
   * Moving a whole branch as the source does, its root first and then the
   * branches of its slots one at a time, moves exactly the joints of the branch.
   */
  lemma BranchMapped(ls: Links, pos0: seq<Vec>, r: JointId, mo: Motion)
    requires Forest(ls) && |pos0| == |ls| && r < |ls|
    ensures AlignedUpTo(ls, pos0[r := Apply(mo, pos0[r])], r, |ls[r].children|, None, mo) == Mapped(pos0, Subtree(ls, r), mo)
  {
    var n := |ls[r].children|;
    var pos1 := pos0[r := Apply(mo, pos0[r])];
    AlignedUpToMapped(ls, pos1, r, n, None, mo);
    MappedUnique(pos0, {r}, mo, pos1);
    if r in Covered(ls, r, n, None) {
      CoveredRank(ls, r, n, None, r);
    }
    MappedUnion(pos0, {r}, Covered(ls, r, n, None), mo);
  }

  /** While the alignment loop at j runs, j itself stays where it is. */
  lemma AlignedUpToKeepsJoint(ls: Links, pos0: seq<Vec>, j: JointId, i: nat, pathChild: Option<JointId>, mo: Motion)
    requires Forest(ls) && |pos0| == |ls| && j < |ls| && i <= |ls[j].children|
    ensures AlignedUpTo(ls, pos0, j, i, pathChild, mo)[j] == pos0[j]
  {
    AlignedUpToMapped(ls, pos0, j, i, pathChild, mo);
    MappedAt(pos0, Covered(ls, j, i, pathChild), mo);
    if j in Covered(ls, j, i, pathChild) {
      CoveredRank(ls, j, i, pathChild, j);
    }
  }

  /** The positions after a pass, and the alignments it made in order. */
  datatype Pass = Pass(pos: seq<Vec>, aligns: seq<Align>)

  /**
   * ik_reach_back from j towards target t at distance d, with stack
   * contents s: j moves within d of t; at a branch point the branches of
   * the children other than the stack's top follow j; a root stops there;
   * otherwise the pass pushes j when its parent is a branch point and goes
   * on at the parent, towards j's new position at j's segment length.
   */
  ghost function BackPass(ls: Links, lens: seq<real>, pos: seq<Vec>, j: JointId, t: Vec, d: real, s: seq<JointId>, ops: FloatOps): (r: Pass)
    requires Forest(ls) && |pos| == |ls| && |lens| == |ls| && j < |ls|
    ensures |r.pos| == |pos|
    decreases Height(ls, j)
  {
    var org := pos[j];
    var moved := pos[j := Moved(org, d, t, ops)];
    var aligned := Realign(ls, moved, j, org, TopOf(s), ops);
    var here := if Branching(ls, j) then [Align(j, TopOf(s))] else [];
    match ls[j].parent
    case None => Pass(aligned, here)
    case Some(q) =>
      var r := BackPass(ls, lens, aligned, q, aligned[j], lens[j], s + (if Branching(ls, q) then [j] else []), ops);
      Pass(r.pos, here + r.aligns)
  }

  /**
   * One level of the backward pass below the root, once j has moved and
   * aligned to `aligned`: the rest of the pass is the pass from j's parent,
   * the root and its position are untouched so far, and the stack the rest
   * pushes onto ends up as the whole pass's.
   */
  lemma BackPassStep(ls: Links, lens: seq<real>, pos: seq<Vec>, j: JointId, t: Vec, d: real, s: seq<JointId>, ops: FloatOps, aligned: seq<Vec>)
    requires Forest(ls) && |pos| == |ls| && |lens| == |ls| && j < |ls| && ls[j].parent.Some?
    requires aligned == Realign(ls, pos[j := Moved(pos[j], d, t, ops)], j, pos[j], TopOf(s), ops)
    ensures var q := ls[j].parent.value;
            var s' := s + (if Branching(ls, q) then [j] else []);
            BackPass(ls, lens, pos, j, t, d, s, ops).pos == BackPass(ls, lens, aligned, q, aligned[j], lens[j], s', ops).pos &&
            Root(ls, q) == Root(ls, j) && aligned[Root(ls, j)] == pos[Root(ls, j)] &&
            s' + Pushed(ls, q) == s + Pushed(ls, j) && Height(ls, q) < Height(ls, j)
  {
    var q := ls[j].parent.value;
    InRootBranch(ls, j);
    SubtreeRank(ls, Root(ls, j), j);
    RealignFrame(ls, pos[j := Moved(pos[j], d, t, ops)], j, pos[j], TopOf(s), ops, Root(ls, j));
    ConcatAssoc(s, if Branching(ls, q) then [j] else [], Pushed(ls, q));
  }

  /** The joint the forward pass goes on to from j: j's only child, or the joint popped at a branch point. */
  function NextJoint(ls: Links, j: JointId, s: seq<JointId>): (c: JointId)
    requires Forest(ls) && j < |ls| && ForwardWalk(ls, j, s).Some? && |ls[j].children| > 0
    ensures c < |ls| && ForwardWalk(ls, c, NextStack(ls, j, s)).Some?
  {
    if |ls[j].children| == 1 then ls[j].children[0].value else s[|s| - 1]
  }

  /** The stack contents after the step at j: one entry fewer at a branch point. */
  function NextStack(ls: Links, j: JointId, s: seq<JointId>): seq<JointId>
    requires Forest(ls) && j < |ls| && ForwardWalk(ls, j, s).Some? && |ls[j].children| > 0
  {
    if |ls[j].children| == 1 then s else s[..|s| - 1]
  }

  /**
   * The positions after the forward pass's step at a joint j with children:
   * j moves within d of t, and at a branch point the branches of the other
   * children follow it.
   */
  ghost function StepPos(ls: Links, pos: seq<Vec>, j: JointId, t: Vec, d: real, s: seq<JointId>, ops: FloatOps): (r: seq<Vec>)
    requires Forest(ls) && |pos| == |ls| && j < |ls| && ForwardWalk(ls, j, s).Some? && |ls[j].children| > 0
    ensures |r| == |pos|
  {
    Realign(ls, pos[j := Moved(pos[j], d, t, ops)], j, pos[j], Some(NextJoint(ls, j, s)), ops)
  }

  /**
   * ik_reach_forward from j towards t at distance d, with stack contents s:
   * j moves within d of t; a leaf stops there; a one-child joint goes on
   * through its only child; a branch point pops the joint to go through and
   * aligns the other children's branches first. The next joint moves
   * towards j's new position at its own segment length.
   */
  ghost function ForwardPass(ls: Links, lens: seq<real>, pos: seq<Vec>, j: JointId, t: Vec, d: real, s: seq<JointId>, ops: FloatOps): (r: Pass)
    requires Forest(ls) && |pos| == |ls| && |lens| == |ls| && j < |ls| && ForwardWalk(ls, j, s).Some?
    ensures |r.pos| == |pos|
    decreases |s|, Rank(ls)[j]
  {
    if |ls[j].children| == 0 then Pass(pos[j := Moved(pos[j], d, t, ops)], [])
    else
      var c := NextJoint(ls, j, s);
      var next := StepPos(ls, pos, j, t, d, s, ops);
      var r := ForwardPass(ls, lens, next, c, next[j], lens[c], NextStack(ls, j, s), ops);
      Pass(r.pos, (if Branching(ls, j) then [Align(j, Some(c))] else []) + r.aligns)
  }

  /** Which child a pass reads at a joint that is not a branch point does not matter. */
  lemma UpAlignsAtChain(ls: Links, q: JointId, a: Option<JointId>, b: Option<JointId>)
    requires Forest(ls) && q < |ls| && !Branching(ls, q)
    ensures UpAligns(ls, q, a) == UpAligns(ls, q, b)
  {
  }

  /**
   * The backward pass aligns exactly at the branch points of the path from
   * j up, reading as path child the stack's top at j and the child it came
   * from everywhere above.
   */
  lemma {:induction false} BackPassAligns(ls: Links, lens: seq<real>, pos: seq<Vec>, j: JointId, t: Vec, d: real, s: seq<JointId>, ops: FloatOps)
    requires Forest(ls) && |pos| == |ls| && |lens| == |ls| && j < |ls|
    ensures BackPass(ls, lens, pos, j, t, d, s, ops).aligns == UpAligns(ls, j, TopOf(s))
    decreases Height(ls, j)
  {
    match ls[j].parent
    case None =>
    case Some(q) =>
      var org := pos[j];
      var moved := pos[j := Moved(org, d, t, ops)];
      var aligned := Realign(ls, moved, j, org, TopOf(s), ops);
      var s' := s + (if Branching(ls, q) then [j] else []);
      BackPassAligns(ls, lens, aligned, q, aligned[j], lens[j], s', ops);
      if !Branching(ls, q) {
        UpAlignsAtChain(ls, q, TopOf(s'), Some(j));
      }
  }

  /**
   * Once the backward pass has left a child c of q (and pushed it when q is
   * a branch point), it no longer moves any joint of c's branch.
   */
  lemma {:induction false} BackAbove(ls: Links, lens: seq<real>, pos: seq<Vec>, q: JointId, t: Vec, d: real, s: seq<JointId>, ops: FloatOps, c: JointId, k: JointId)
    requires Forest(ls) && |pos| == |ls| && |lens| == |ls| && q < |ls| && c < |ls|
    requires ls[c].parent == Some(q) && k in Subtree(ls, c)
    requires Branching(ls, q) ==> TopOf(s) == Some(c)
    ensures BackPass(ls, lens, pos, q, t, d, s, ops).pos[k] == pos[k]
    decreases Height(ls, q)
  {
    var org := pos[q];
    var moved := pos[q := Moved(org, d, t, ops)];
    SubtreeRank(ls, c, k);
    var aligned := Realign(ls, moved, q, org, TopOf(s), ops);
    if Branching(ls, q) {
      RealignFrame(ls, moved, q, org, TopOf(s), ops, k);
    }
    assert aligned[k] == pos[k];
    match ls[q].parent
    case None =>
    case Some(g) =>
      ChildOfParent(ls, c);
      SubtreeClosed(ls, q, c);
      BackAbove(ls, lens, aligned, g, aligned[q], lens[q], s + (if Branching(ls, g) then [q] else []), ops, q, k);
  }

  /** The backward pass from j leaves j where its first step put it: within d of the target. */
  lemma BackPassMovesStart(ls: Links, lens: seq<real>, pos: seq<Vec>, j: JointId, t: Vec, d: real, s: seq<JointId>, ops: FloatOps)
    requires Forest(ls) && |pos| == |ls| && |lens| == |ls| && j < |ls|
    ensures BackPass(ls, lens, pos, j, t, d, s, ops).pos[j] == Moved(pos[j], d, t, ops)
  {
    var org := pos[j];
    var moved := pos[j := Moved(org, d, t, ops)];
    var aligned := Realign(ls, moved, j, org, TopOf(s), ops);
    RealignFrame(ls, moved, j, org, TopOf(s), ops, j);
    match ls[j].parent
    case None =>
    case Some(q) =>
      BackAbove(ls, lens, aligned, q, aligned[j], lens[j], s + (if Branching(ls, q) then [j] else []), ops, j, j);
  }

  /** A solve's backward pass, at distance 0, leaves the effected joint exactly on the target. */
  lemma BackPassReachesTarget(ls: Links, lens: seq<real>, pos: seq<Vec>, e: JointId, t: Vec, s: seq<JointId>, ops: FloatOps)
    requires Forest(ls) && |pos| == |ls| && |lens| == |ls| && e < |ls|
    ensures BackPass(ls, lens, pos, e, t, 0.0, s, ops).pos[e] == t
  {
    BackPassMovesStart(ls, lens, pos, e, t, 0.0, s, ops);
    MovedZero(pos[e], t, ops);
  }

  /** The backward pass moves no joint outside the tree of the joint it starts from. */
  lemma {:induction false} BackPassOutside(ls: Links, lens: seq<real>, pos: seq<Vec>, j: JointId, t: Vec, d: real, s: seq<JointId>, ops: FloatOps, k: JointId)
    requires Forest(ls) && |pos| == |ls| && |lens| == |ls| && j < |ls| && k < |ls|
    requires k !in Subtree(ls, Root(ls, j))
    ensures BackPass(ls, lens, pos, j, t, d, s, ops).pos[k] == pos[k]
    decreases Height(ls, j)
  {
    var org := pos[j];
    var moved := pos[j := Moved(org, d, t, ops)];
    var aligned := Realign(ls, moved, j, org, TopOf(s), ops);
    InRootBranch(ls, j);
    SubtreeClosed(ls, Root(ls, j), j);
    RealignAt(ls, moved, j, org, TopOf(s), ops);
    if Branching(ls, j) && k in Others(ls, j, TopOf(s)) {
      OthersBelow(ls, j, TopOf(s), k);
    }
    assert aligned[k] == pos[k];
    match ls[j].parent
    case None =>
    case Some(q) =>
      BackPassOutside(ls, lens, aligned, q, aligned[j], lens[j], s + (if Branching(ls, q) then [j] else []), ops, k);
  }

  /**
   * Every joint k on the path from e up, other than the root, ends the
   * backward pass with its parent moved from its original position towards
   * k's final position, at k's segment length.
   */
  lemma {:induction false} BackPathSegments(ls: Links, lens: seq<real>, pos: seq<Vec>, e: JointId, t: Vec, d: real, s: seq<JointId>, ops: FloatOps, k: JointId)
    requires Forest(ls) && |pos| == |ls| && |lens| == |ls| && e < |ls|
    requires k in Up(ls, e) && ls[k].parent.Some?
    ensures var f := BackPass(ls, lens, pos, e, t, d, s, ops).pos;
            var q := ls[k].parent.value;
            f[q] == Moved(pos[q], lens[k], f[k], ops)
    decreases Height(ls, e)
  {
    var q := ls[e].parent.value;
    var org := pos[e];
    var moved := pos[e := Moved(org, d, t, ops)];
    var aligned := Realign(ls, moved, e, org, TopOf(s), ops);
    var s' := s + (if Branching(ls, q) then [e] else []);
    var qk := ls[k].parent.value;
    UpRank(ls, e, k);
    RealignFrame(ls, moved, e, org, TopOf(s), ops, qk);
    if k == e {
      BackPassMovesStart(ls, lens, aligned, q, aligned[e], lens[e], s', ops);
      BackAbove(ls, lens, aligned, q, aligned[e], lens[e], s', ops, e, e);
    } else {
      BackPathSegments(ls, lens, aligned, q, aligned[e], lens[e], s', ops, k);
    }
  }

  /**
   * With an exact square root, the backward pass restores the length of
   * every segment on the path from e up whose computed length, at the
   * moment its upper joint moves, is not zero.
   */
  lemma BackPathLengths(ls: Links, lens: seq<real>, pos: seq<Vec>, e: JointId, t: Vec, d: real, s: seq<JointId>, ops: FloatOps, k: JointId)
    requires Forest(ls) && |pos| == |ls| && |lens| == |ls| && e < |ls| && ExactSqrt(ops)
    requires k in Up(ls, e) && ls[k].parent.Some?
    requires var f := BackPass(ls, lens, pos, e, t, d, s, ops).pos;
             var v := Sub(pos[ls[k].parent.value], f[k]);
             Length(ops, v.x, v.y) != 0.0
    ensures var f := BackPass(ls, lens, pos, e, t, d, s, ops).pos;
            Dist2(f[ls[k].parent.value], f[k]) == lens[k] * lens[k]
  {
    var f := BackPass(ls, lens, pos, e, t, d, s, ops).pos;
    var q := ls[k].parent.value;
    BackPathSegments(ls, lens, pos, e, t, d, s, ops, k);
    SegmentFromMove(f[q], f[k], pos[q], lens[k], ops);
  }

  /** A joint a that was moved from p within distance l of b lies at distance l from b. */
  lemma SegmentFromMove(a: Vec, b: Vec, p: Vec, l: real, ops: FloatOps)
    requires ExactSqrt(ops) && a == Moved(p, l, b, ops) && Length(ops, Sub(p, b).x, Sub(p, b).y) != 0.0
    ensures Dist2(a, b) == l * l
  {
    MovedWithinDistance(p, l, b, ops);
  }

  /** The forward pass aligns exactly where the walk over the same stack says it does. */
  lemma {:induction false} ForwardPassAligns(ls: Links, lens: seq<real>, pos: seq<Vec>, j: JointId, t: Vec, d: real, s: seq<JointId>, ops: FloatOps)
    requires Forest(ls) && |pos| == |ls| && |lens| == |ls| && j < |ls| && ForwardWalk(ls, j, s).Some?
    ensures ForwardPass(ls, lens, pos, j, t, d, s, ops).aligns == ForwardWalk(ls, j, s).value.aligns
    decreases |s|, Rank(ls)[j]
  {
    if |ls[j].children| > 0 {
      var c := NextJoint(ls, j, s);
      var next := StepPos(ls, pos, j, t, d, s, ops);
      ForwardPassAligns(ls, lens, next, c, next[j], lens[c], NextStack(ls, j, s), ops);
    }
  }

  /** On a consistent stack, the joint the forward pass goes on to is a child of j, and the stack stays consistent. */
  lemma NextDescends(ls: Links, j: JointId, s: seq<JointId>)
    requires Forest(ls) && j < |ls| && Descends(ls, j, s) && |ls[j].children| > 0
    ensures (DescendsWalks(ls, j, s); ls[NextJoint(ls, j, s)].parent == Some(j))
    ensures (DescendsWalks(ls, j, s); Descends(ls, NextJoint(ls, j, s), NextStack(ls, j, s)))
    ensures (DescendsWalks(ls, j, s);
            ForwardWalk(ls, j, s).value.visited == [j] + ForwardWalk(ls, NextJoint(ls, j, s), NextStack(ls, j, s)).value.visited)
  {
    DescendsWalks(ls, j, s);
    if |ls[j].children| == 1 {
      SlotChild(ls, j, 0);
    }
  }

  /** On a consistent stack, the forward pass from j moves no joint outside j's branch. */
  lemma {:induction false} ForwardPassOutside(ls: Links, lens: seq<real>, pos: seq<Vec>, j: JointId, t: Vec, d: real, s: seq<JointId>, ops: FloatOps, k: JointId)
    requires Forest(ls) && |pos| == |ls| && |lens| == |ls| && j < |ls| && k < |ls| && Descends(ls, j, s)
    requires k !in Subtree(ls, j)
    ensures (DescendsWalks(ls, j, s); ForwardPass(ls, lens, pos, j, t, d, s, ops).pos[k] == pos[k])
    decreases |s|, Rank(ls)[j]
  {
    DescendsWalks(ls, j, s);
    if |ls[j].children| > 0 {
      NextDescends(ls, j, s);
      var c := NextJoint(ls, j, s);
      var next := StepPos(ls, pos, j, t, d, s, ops);
      var moved := pos[j := Moved(pos[j], d, t, ops)];
      RealignAt(ls, moved, j, pos[j], Some(c), ops);
      if Branching(ls, j) && k in Others(ls, j, Some(c)) {
        OthersBelow(ls, j, Some(c), k);
      }
      assert next[k] == pos[k];
      ChildOfParent(ls, c);
      SubtreeClosed(ls, j, c);
      ForwardPassOutside(ls, lens, next, c, next[j], lens[c], NextStack(ls, j, s), ops, k);
    }
  }

  /** On a consistent stack, the forward pass from j leaves j where its first step put it. */
  lemma ForwardPassMovesStart(ls: Links, lens: seq<real>, pos: seq<Vec>, j: JointId, t: Vec, d: real, s: seq<JointId>, ops: FloatOps)
    requires Forest(ls) && |pos| == |ls| && |lens| == |ls| && j < |ls| && Descends(ls, j, s)
    ensures (DescendsWalks(ls, j, s); ForwardPass(ls, lens, pos, j, t, d, s, ops).pos[j] == Moved(pos[j], d, t, ops))
  {
    DescendsWalks(ls, j, s);
    if |ls[j].children| > 0 {
      NextDescends(ls, j, s);
      var c := NextJoint(ls, j, s);
      var next := StepPos(ls, pos, j, t, d, s, ops);
      var moved := pos[j := Moved(pos[j], d, t, ops)];
      RealignFrame(ls, moved, j, pos[j], Some(c), ops, j);
      AboveOutside(ls, c, j);
      ForwardPassOutside(ls, lens, next, c, next[j], lens[c], NextStack(ls, j, s), ops, j);
    }
  }

  /** The first segment below j: the joint after j is moved towards j's final position. */
  lemma ForwardFirstSegment(ls: Links, lens: seq<real>, pos: seq<Vec>, j: JointId, t: Vec, d: real, s: seq<JointId>, ops: FloatOps)
    requires Forest(ls) && |pos| == |ls| && |lens| == |ls| && j < |ls| && Descends(ls, j, s) && |ls[j].children| > 0
    ensures (DescendsWalks(ls, j, s);
            var c := NextJoint(ls, j, s);
            var f := ForwardPass(ls, lens, pos, j, t, d, s, ops).pos;
            f[c] == Moved(pos[c], lens[c], f[j], ops))
  {
    DescendsWalks(ls, j, s);
    NextDescends(ls, j, s);
    var c := NextJoint(ls, j, s);
    var s' := NextStack(ls, j, s);
    var next := StepPos(ls, pos, j, t, d, s, ops);
    var moved := pos[j := Moved(pos[j], d, t, ops)];
    SubtreeRank(ls, c, c);
    RealignFrame(ls, moved, j, pos[j], Some(c), ops, c);
    assert next[c] == pos[c];
    ForwardPassMovesStart(ls, lens, next, c, next[j], lens[c], s', ops);
    AboveOutside(ls, c, j);
    ForwardPassOutside(ls, lens, next, c, next[j], lens[c], s', ops, j);
  }

  /** A joint of the branch the forward pass goes on to is not moved by the step at j. */
  lemma StepKeepsBelow(ls: Links, pos: seq<Vec>, j: JointId, t: Vec, d: real, s: seq<JointId>, ops: FloatOps, v: JointId)
    requires Forest(ls) && |pos| == |ls| && j < |ls| && Descends(ls, j, s) && |ls[j].children| > 0
    requires (DescendsWalks(ls, j, s); v in Subtree(ls, NextJoint(ls, j, s)))
    ensures (DescendsWalks(ls, j, s); StepPos(ls, pos, j, t, d, s, ops)[v] == pos[v])
  {
    DescendsWalks(ls, j, s);
    NextDescends(ls, j, s);
    var c := NextJoint(ls, j, s);
    SubtreeRank(ls, c, v);
    RealignFrame(ls, pos[j := Moved(pos[j], d, t, ops)], j, pos[j], Some(c), ops, v);
  }

  /**
   * On a consistent stack, every joint the forward pass reaches after the
   * first ends the pass moved from its position before the pass towards
   * the final position of the joint before it (its parent), at its own
   * segment length.
   */
  lemma {:induction false} ForwardSegments(ls: Links, lens: seq<real>, pos: seq<Vec>, j: JointId, t: Vec, d: real, s: seq<JointId>, ops: FloatOps, i: nat)
    requires Forest(ls) && |pos| == |ls| && |lens| == |ls| && j < |ls| && Descends(ls, j, s)
    requires (DescendsWalks(ls, j, s); 0 < i < |ForwardWalk(ls, j, s).value.visited|)
    ensures (DescendsWalks(ls, j, s);
            var v := ForwardWalk(ls, j, s).value.visited;
            var f := ForwardPass(ls, lens, pos, j, t, d, s, ops).pos;
            f[v[i]] == Moved(pos[v[i]], lens[v[i]], f[v[i - 1]], ops))
    decreases |s|, Rank(ls)[j]
  {
    DescendsWalks(ls, j, s);
    NextDescends(ls, j, s);
    var c := NextJoint(ls, j, s);
    var s' := NextStack(ls, j, s);
    var next := StepPos(ls, pos, j, t, d, s, ops);
    DescendsWalks(ls, c, s');
    var w := ForwardWalk(ls, c, s').value.visited;
    if i == 1 {
      ForwardFirstSegment(ls, lens, pos, j, t, d, s, ops);
    } else {
      assert w[i - 1] in w;
      StepKeepsBelow(ls, pos, j, t, d, s, ops, w[i - 1]);
      ForwardSegments(ls, lens, next, c, next[j], lens[c], s', ops, i - 1);
    }
  }

  /**
   * ik_solve: a backward pass from the effected joint e onto the target at
   * distance 0, then a forward pass from the root it reached, back onto the
   * root's original position at distance 0, over the stack the backward
   * pass left.
   */
  ghost function SolvePass(ls: Links, lens: seq<real>, pos: seq<Vec>, e: JointId, t: Vec, s: seq<JointId>, ops: FloatOps): (r: Pass)
    requires Forest(ls) && |pos| == |ls| && |lens| == |ls| && e < |ls| && ForwardWalk(ls, e, s).Some?
    ensures |r.pos| == |pos|
  {
    var back := BackPass(ls, lens, pos, e, t, 0.0, s, ops);
    Retrace(ls, e, s);
    var root := Root(ls, e);
    var fwd := ForwardPass(ls, lens, back.pos, root, pos[root], 0.0, s + Pushed(ls, e), ops);
    Pass(fwd.pos, back.aligns + fwd.aligns)
  }

  /** On a consistent stack, a solve leaves the root where it was. */
  lemma SolveKeepsRoot(ls: Links, lens: seq<real>, pos: seq<Vec>, e: JointId, t: Vec, s: seq<JointId>, ops: FloatOps)
    requires Forest(ls) && |pos| == |ls| && |lens| == |ls| && e < |ls| && Descends(ls, e, s)
    ensures (DescendsWalks(ls, e, s); SolvePass(ls, lens, pos, e, t, s, ops).pos[Root(ls, e)] == pos[Root(ls, e)])
  {
    DescendsWalks(ls, e, s);
    var root := Root(ls, e);
    var back := BackPass(ls, lens, pos, e, t, 0.0, s, ops);
    RetraceDescends(ls, e, s);
    ForwardPassMovesStart(ls, lens, back.pos, root, pos[root], 0.0, s + Pushed(ls, e), ops);
    MovedZero(back.pos[root], pos[root], ops);
  }

  /** On a consistent stack, a solve moves no joint outside the effected joint's tree. */
  lemma SolveOutside(ls: Links, lens: seq<real>, pos: seq<Vec>, e: JointId, t: Vec, s: seq<JointId>, ops: FloatOps, k: JointId)
    requires Forest(ls) && |pos| == |ls| && |lens| == |ls| && e < |ls| && Descends(ls, e, s)
    requires k < |ls| && k !in Subtree(ls, Root(ls, e))
    ensures (DescendsWalks(ls, e, s); SolvePass(ls, lens, pos, e, t, s, ops).pos[k] == pos[k])
  {
    DescendsWalks(ls, e, s);
    var root := Root(ls, e);
    var back := BackPass(ls, lens, pos, e, t, 0.0, s, ops);
    BackPassOutside(ls, lens, pos, e, t, 0.0, s, ops, k);
    RetraceDescends(ls, e, s);
    ForwardPassOutside(ls, lens, back.pos, root, pos[root], 0.0, s + Pushed(ls, e), ops, k);
  }

  /**
   * A solve that starts on an empty stack (as after ik_init) aligns on the
   * way down at the same branch points, with the same path children, as on
   * the way up, in reverse order; and it leaves the stack empty again.
   */
  lemma SolveMirrors(ls: Links, lens: seq<real>, pos: seq<Vec>, e: JointId, t: Vec, ops: FloatOps)
    requires Forest(ls) && |pos| == |ls| && |lens| == |ls| && e < |ls| && ForwardWalk(ls, e, []).Some?
    ensures var up := UpAligns(ls, e, None);
            SolvePass(ls, lens, pos, e, t, [], ops).aligns == up + Reversed(up)
  {
    var root := Root(ls, e);
    var back := BackPass(ls, lens, pos, e, t, 0.0, [], ops);
    Retrace(ls, e, []);
    assert [] + Pushed(ls, e) == Pushed(ls, e);
    BackPassAligns(ls, lens, pos, e, t, 0.0, [], ops);
    ForwardPassAligns(ls, lens, back.pos, root, pos[root], 0.0, Pushed(ls, e), ops);
    MirrorWalk(ls, e);
  }
}
