/**
 * The solver's mutable state and operations: every joint ever created, its
 * position, its segment length (the distance to its parent) and its links.
 * Joints are addressed by index into these sequences where the source uses
 * pointers.
 */
module Skeletons {
  import opened Wrappers
  import opened Geometry
  import opened JointTree
  import opened Paths
  import opened PathStacks
  import opened VertexBuffers
  import opened Render
  import opened Passes

  /** Status codes of ik_attach_joint. */
  const StatusError: int := 0
  const StatusOk: int := 1

  class Skeleton {
    var pos: seq<Vec>
    var lengths: seq<real>
    var links: Links

    /** One position, one length and one link per joint. */
    ghost predicate Valid()
      reads this
    {
      |pos| == |links| && |lengths| == |links|
    }

    /** An empty arena. */
    constructor ()
      ensures Valid() && links == [] && pos == [] && lengths == []
    {
      pos, lengths, links := [], [], [];
    }

    /**
     * ik_new_joint: a joint at (0, 0) with the given segment length, no
     * parent and nChildren empty slots. Adding it keeps the links a forest.
     */
    method NewJoint(length: real, nChildren: nat) returns (id: JointId)
      requires Valid()
      modifies this
      ensures Valid() && id == old(|links|)
      ensures links == old(links) + [NewLink(nChildren)]
      ensures pos == old(pos) + [Vec(0.0, 0.0)] && lengths == old(lengths) + [length]
      ensures old(Forest(links)) ==> Forest(links)
    {
      if Forest(links) {
        NewJointKeepsForest(links, nChildren);
      }
      id := |links|;
      var slots := seq(nChildren, _ => None);
      pos := pos + [Vec(0.0, 0.0)];
      lengths := lengths + [length];
      links := links + [Link(None, slots)];
    }

    /**
     * ik_attach_joint: puts child into parent's lowest-index empty slot,
     * makes parent the child's parent and reports StatusOk; with every slot
     * taken it reports StatusError and changes nothing. Attaching a
     * parentless joint below a joint outside its branch keeps the links a
     * forest.
     */
    method Attach(child: JointId, parent: JointId) returns (status: int)
      requires Valid() && child < |links| && parent < |links|
      modifies this`links
      ensures Valid()
      ensures match FirstEmpty(old(links)[parent].children)
              case Some(i) => status == StatusOk && links == Attached(old(links), child, parent, i)
              case None => status == StatusError && links == old(links)
      ensures old(Forest(links) && links[child].parent.None? && parent !in Subtree(links, child)) ==> Forest(links)
    {
      var i := 0;
      while i < |links[parent].children|
        invariant i <= |links[parent].children| && links == old(links)
        invariant forall m :: 0 <= m < i ==> links[parent].children[m].Some?
      {
        if links[parent].children[i].None? {
          if Forest(links) && links[child].parent.None? && parent !in Subtree(links, child) {
            AttachKeepsForest(links, child, parent, i);
          }
          var slots := links[parent].children[i := Some(child)];
          links := links[parent := links[parent].(children := slots)];
          links := links[child := links[child].(parent := Some(parent))];
          return StatusOk;
        }
        i := i + 1;
      }
      return StatusError;
    }

    /**
     * ik_move_within_dist: moves joint j onto the ray from t through it,
     * `distance` away from t, or onto t when its offset has length zero.
     */
    method MoveWithinDist(j: JointId, distance: real, t: Vec, ops: FloatOps)
      requires Valid() && j < |pos|
      modifies this`pos
      ensures Valid() && pos == old(pos)[j := Moved(old(pos)[j], distance, t, ops)]
    {
      var dx := pos[j].x - t.x;
      var dy := pos[j].y - t.y;
      var norm := Length(ops, dx, dy);
      assert Sub(pos[j], t) == Vec(dx, dy);
      if norm == 0.0 {
        pos := pos[j := t];
      } else {
        var sx := distance * dx / norm;
        var sy := distance * dy / norm;
        assert Moved(pos[j], distance, t, ops) == Add(t, Vec(sx, sy));
        pos := pos[j := Vec(t.x + sx, t.y + sy)];
      }
    }

    /**
     * ik_translate_relative: adds (dx, dy) to the position of every joint of
     * the branch rooted at r, and of no other joint.
     */
    method TranslateRelative(r: JointId, dx: real, dy: real)
      requires Valid() && Forest(links) && r < |links| && SubtreeComplete(links, r)
      modifies this`pos
      ensures Valid() && pos == Mapped(old(pos), Subtree(links, r), Shift(Vec(dx, dy)))
      decreases Rank(links)[r], 1
    {
      ghost var pos0 := pos;
      pos := pos[r := Apply(Shift(Vec(dx, dy)), pos[r])];
      ghost var pos1 := pos;
      for i := 0 to |links[r].children|
        invariant Valid() && pos == AlignedUpTo(links, pos1, r, i, None, Shift(Vec(dx, dy)))
      {
        RelativeSlot(r, i, dx, dy, pos1);
      }
      BranchMapped(links, pos0, r, Shift(Vec(dx, dy)));
    }

    /** One iteration of TranslateRelative's loop: the branch of slot i. */
    method RelativeSlot(r: JointId, i: nat, dx: real, dy: real, ghost pos1: seq<Vec>)
      requires Valid() && Forest(links) && r < |links| && SubtreeComplete(links, r) && i < |links[r].children|
      requires pos == AlignedUpTo(links, pos1, r, i, None, Shift(Vec(dx, dy)))
      modifies this`pos
      ensures Valid() && pos == AlignedUpTo(links, pos1, r, i + 1, None, Shift(Vec(dx, dy)))
      decreases Rank(links)[r], 0
    {
      SlotStep(links, r, i);
      TranslateRelative(links[r].children[i].value, dx, dy);
    }

    /**
     * ik_align_branch_only_translate: adds offset to the position of every
     * joint of the branch rooted at r, and of no other joint.
     */
    method AlignOnlyTranslate(r: JointId, offset: Vec)
      requires Valid() && Forest(links) && r < |links| && SubtreeComplete(links, r)
      modifies this`pos
      ensures Valid() && pos == Mapped(old(pos), Subtree(links, r), Shift(offset))
      decreases Rank(links)[r], 1
    {
      ghost var pos0 := pos;
      var mo := Shift(offset);
      pos := pos[r := Apply(mo, pos[r])];
      ghost var pos1 := pos;
      for i := 0 to |links[r].children|
        invariant Valid() && pos == AlignedUpTo(links, pos1, r, i, None, mo)
      {
        OnlyTranslateSlot(r, i, offset, pos1);
      }
      BranchMapped(links, pos0, r, mo);
    }

    /** One iteration of AlignOnlyTranslate's loop: the branch of slot i. */
    method OnlyTranslateSlot(r: JointId, i: nat, offset: Vec, ghost pos1: seq<Vec>)
      requires Valid() && Forest(links) && r < |links| && SubtreeComplete(links, r) && i < |links[r].children|
      requires pos == AlignedUpTo(links, pos1, r, i, None, Shift(offset))
      modifies this`pos
      ensures Valid() && pos == AlignedUpTo(links, pos1, r, i + 1, None, Shift(offset))
      decreases Rank(links)[r], 0
    {
      SlotStep(links, r, i);
      AlignOnlyTranslate(links[r].children[i].value, offset);
    }

    /**
     * ik_align_branch_precalc: translates every joint of the branch rooted at
     * r by offset and then rotates it by mat about pivot; no other joint moves.
     */
    method AlignPrecalc(r: JointId, pivot: Vec, mat: Matrix, offset: Vec)
      requires Valid() && Forest(links) && r < |links| && SubtreeComplete(links, r)
      modifies this`pos
      ensures Valid() && pos == Mapped(old(pos), Subtree(links, r), Turn(pivot, mat, offset))
      decreases Rank(links)[r], 1
    {
      ghost var pos0 := pos;
      pos := pos[r := Apply(Turn(pivot, mat, offset), pos[r])];
      ghost var pos1 := pos;
      for i := 0 to |links[r].children|
        invariant Valid() && pos == AlignedUpTo(links, pos1, r, i, None, Turn(pivot, mat, offset))
      {
        PrecalcSlot(r, i, pivot, mat, offset, pos1);
      }
      BranchMapped(links, pos0, r, Turn(pivot, mat, offset));
    }

    /** One iteration of AlignPrecalc's loop: the branch of slot i. */
    method PrecalcSlot(r: JointId, i: nat, pivot: Vec, mat: Matrix, offset: Vec, ghost pos1: seq<Vec>)
      requires Valid() && Forest(links) && r < |links| && SubtreeComplete(links, r) && i < |links[r].children|
      requires pos == AlignedUpTo(links, pos1, r, i, None, Turn(pivot, mat, offset))
      modifies this`pos
      ensures Valid() && pos == AlignedUpTo(links, pos1, r, i + 1, None, Turn(pivot, mat, offset))
      decreases Rank(links)[r], 0
    {
      SlotStep(links, r, i);
      AlignPrecalc(links[r].children[i].value, pivot, mat, offset);
    }

    /** ik_translate: translates the branch rooted at r so that r ends exactly at (x, y). */
    method Translate(r: JointId, x: real, y: real)
      requires Valid() && Forest(links) && r < |links| && SubtreeComplete(links, r)
      modifies this`pos
      ensures Valid() && pos == Mapped(old(pos), Subtree(links, r), Shift(Vec(x - old(pos)[r].x, y - old(pos)[r].y)))
      ensures pos[r] == Vec(x, y)
    {
      ghost var pos0 := pos;
      var dx := x - pos[r].x;
      var dy := y - pos[r].y;
      TranslateRelative(r, dx, dy);
      MappedAt(pos0, Subtree(links, r), Shift(Vec(dx, dy)));
    }

    /**
     * ik_align_branch: rotates the branch rooted at r, whose parent moved,
     * by the angle from `from` to `to` about the parent's position, after
     * translating it by `to - from`; no other joint moves.
     */
    method AlignBranch(r: JointId, from: Vec, to: Vec, ops: FloatOps)
      requires Valid() && Forest(links) && r < |links| && SubtreeComplete(links, r) && links[r].parent.Some?
      modifies this`pos
      ensures Valid()
      ensures pos == Mapped(old(pos), Subtree(links, r), Turn(old(pos)[links[r].parent.value], AlignMatrix(from, to, ops), Sub(to, from)))
    {
      var mat := AlignMatrix(from, to, ops);
      var offset := Vec(to.x - from.x, to.y - from.y);
      AlignPrecalc(r, pos[links[r].parent.value], mat, offset);
    }

    /**
     * The alignment step both passes take at a branch point j that moved
     * from org: the branch of every child but pathChild is rotated with j
     * about j (ik_align_branch), or, when j has no parent, translated with
     * it (ik_align_branch_only_translate).
     */
    method AlignOthers(j: JointId, org: Vec, pathChild: Option<JointId>, ops: FloatOps)
      requires Valid() && Forest(links) && j < |links| && SubtreeComplete(links, j) && Branching(links, j)
      modifies this`pos
      ensures Valid() && pos == Realign(links, old(pos), j, org, pathChild, ops)
    {
      if links[j].parent.Some? {
        var q := links[j].parent.value;
        var from := Vec(org.x - pos[q].x, org.y - pos[q].y);
        var to := Vec(pos[j].x - pos[q].x, pos[j].y - pos[q].y);
        RotateOthers(j, from, to, pathChild, ops);
      } else {
        TranslateOthers(j, Vec(pos[j].x - org.x, pos[j].y - org.y), pathChild);
      }
    }

    /** The loop of a pass at a branch point with a parent: every branch but pathChild's follows j's turn. */
    method RotateOthers(j: JointId, from: Vec, to: Vec, pathChild: Option<JointId>, ops: FloatOps)
      requires Valid() && Forest(links) && j < |links| && SubtreeComplete(links, j)
      modifies this`pos
      ensures Valid() && pos == Mapped(old(pos), Others(links, j, pathChild), Turn(old(pos)[j], AlignMatrix(from, to, ops), Sub(to, from)))
    {
      ghost var pos0 := pos;
      for i := 0 to |links[j].children|
        invariant Valid() && pos == AlignedUpTo(links, pos0, j, i, pathChild, Turn(pos0[j], AlignMatrix(from, to, ops), Sub(to, from)))
      {
        RotateSlot(j, i, from, to, pathChild, ops, pos0);
      }
      AlignedUpToMapped(links, pos0, j, |links[j].children|, pathChild, Turn(pos0[j], AlignMatrix(from, to, ops), Sub(to, from)));
    }

    /** One iteration of RotateOthers' loop: slot i's branch, unless it holds pathChild. */
    method RotateSlot(j: JointId, i: nat, from: Vec, to: Vec, pathChild: Option<JointId>, ops: FloatOps, ghost pos0: seq<Vec>)
      requires Valid() && Forest(links) && j < |links| && SubtreeComplete(links, j) && i < |links[j].children| && |pos0| == |links|
      requires pos == AlignedUpTo(links, pos0, j, i, pathChild, Turn(pos0[j], AlignMatrix(from, to, ops), Sub(to, from)))
      modifies this`pos
      ensures Valid() && pos == AlignedUpTo(links, pos0, j, i + 1, pathChild, Turn(pos0[j], AlignMatrix(from, to, ops), Sub(to, from)))
    {
      SlotStep(links, j, i);
      SlotChild(links, j, i);
      AlignedUpToKeepsJoint(links, pos0, j, i, pathChild, Turn(pos0[j], AlignMatrix(from, to, ops), Sub(to, from)));
      var child := links[j].children[i].value;
      if Some(child) != pathChild {
        AlignBranch(child, from, to, ops);
      }
    }

    /** The loop of a pass at a branch point without a parent: every branch but pathChild's is translated by offset. */
    method TranslateOthers(j: JointId, offset: Vec, pathChild: Option<JointId>)
      requires Valid() && Forest(links) && j < |links| && SubtreeComplete(links, j)
      modifies this`pos
      ensures Valid() && pos == Mapped(old(pos), Others(links, j, pathChild), Shift(offset))
    {
      ghost var pos0 := pos;
      for i := 0 to |links[j].children|
        invariant Valid() && pos == AlignedUpTo(links, pos0, j, i, pathChild, Shift(offset))
      {
        TranslateSlot(j, i, offset, pathChild, pos0);
      }
      AlignedUpToMapped(links, pos0, j, |links[j].children|, pathChild, Shift(offset));
    }

    /** One iteration of TranslateOthers' loop: slot i's branch, unless it holds pathChild. */
    method TranslateSlot(j: JointId, i: nat, offset: Vec, pathChild: Option<JointId>, ghost pos0: seq<Vec>)
      requires Valid() && Forest(links) && j < |links| && SubtreeComplete(links, j) && i < |links[j].children|
      requires pos == AlignedUpTo(links, pos0, j, i, pathChild, Shift(offset))
      modifies this`pos
      ensures Valid() && pos == AlignedUpTo(links, pos0, j, i + 1, pathChild, Shift(offset))
    {
      SlotStep(links, j, i);
      var child := links[j].children[i].value;
      if Some(child) != pathChild {
        AlignOnlyTranslate(child, offset);
      }
    }

    /**
     * ik_reach_back from j towards t at distance d: the backward pass up to
     * the root, as BackPass describes it. It returns the root it reached
     * and the root's position before the pass, and leaves pushed on the
     * stack the child it came from at every branch point.
     */
    method ReachBack(j: JointId, t: Vec, d: real, st: PathStack, ops: FloatOps) returns (root: JointId, rootOrg: Vec)
      requires Valid() && Forest(links) && j < |links| && SubtreeComplete(links, Root(links, j))
      requires st.Valid() && |st.Contents()| + |Pushed(links, j)| <= StackSize
      modifies this`pos, st, st.data
      ensures Valid() && st.Valid() && st.data == old(st.data)
      ensures pos == BackPass(links, lengths, old(pos), j, t, d, old(st.Contents()), ops).pos
      ensures root == Root(links, j) && rootOrg == old(pos)[root]
      ensures st.Contents() == old(st.Contents()) + Pushed(links, j)
      decreases Height(links, j)
    {
      ghost var s, pos0 := st.Contents(), pos;
      InRootBranch(links, j);
      CompleteBelow(links, Root(links, j), j);
      var org := BackStep(j, t, d, st, ops);
      if links[j].parent.None? {
        assert s + Pushed(links, j) == s;
        return j, org;
      }
      var q := links[j].parent.value;
      BackPassStep(links, lengths, pos0, j, t, d, s, ops, pos);
      ghost var aligned := pos;
      if |links[q].children| > 1 {
        st.Push(j);
      }
      ghost var s' := st.Contents();
      assert s' == s + (if Branching(links, q) then [j] else []);
      root, rootOrg := ReachBack(q, pos[j], lengths[j], st, ops);
      assert pos == BackPass(links, lengths, aligned, q, aligned[j], lengths[j], s', ops).pos;
    }

    /**
     * The work ik_reach_back does at j itself: j moves within d of t and,
     * at a branch point, the branches of the children other than the
     * stack's top follow it. Returns j's position before the move.
     */
    method BackStep(j: JointId, t: Vec, d: real, st: PathStack, ops: FloatOps) returns (org: Vec)
      requires Valid() && Forest(links) && j < |links| && SubtreeComplete(links, j) && st.Valid()
      modifies this`pos
      ensures Valid() && org == old(pos)[j]
      ensures pos == Realign(links, old(pos)[j := Moved(old(pos)[j], d, t, ops)], j, old(pos)[j], TopOf(st.Contents()), ops)
    {
      org := pos[j];
      MoveWithinDist(j, d, t, ops);
      if |links[j].children| > 1 {
        var pathChild := st.Top();
        AlignOthers(j, org, pathChild, ops);
      }
    }

    /**
     * ik_reach_forward from j towards t at distance d: the forward pass
     * down the path the stack records, as ForwardPass describes it. On a
     * stack consistent with the branch it pops exactly what the walk pops.
     */
    method ReachForward(j: JointId, t: Vec, d: real, st: PathStack, ops: FloatOps)
      requires Valid() && Forest(links) && j < |links| && SubtreeComplete(links, j)
      requires st.Valid() && Descends(links, j, st.Contents())
      modifies this`pos, st
      ensures Valid() && st.Valid() && st.data == old(st.data)
      ensures (DescendsWalks(links, j, old(st.Contents()));
              pos == ForwardPass(links, lengths, old(pos), j, t, d, old(st.Contents()), ops).pos &&
              st.Contents() == ForwardWalk(links, j, old(st.Contents())).value.rest)
      decreases |st.Contents()|, Rank(links)[j]
    {
      ghost var s := st.Contents();
      DescendsWalks(links, j, s);
      var org := pos[j];
      MoveWithinDist(j, d, t, ops);
      if |links[j].children| == 0 {
        return;
      }
      NextDescends(links, j, s);
      var pathChild: JointId;
      if |links[j].children| > 1 {
        var top := st.Pop();
        pathChild := top.value;
        AlignOthers(j, org, Some(pathChild), ops);
      } else {
        assert j in Subtree(links, j);
        pathChild := links[j].children[0].value;
      }
      assert pathChild == NextJoint(links, j, s) && st.Contents() == NextStack(links, j, s);
      ChildOfParent(links, pathChild);
      CompleteBelow(links, j, pathChild);
      ReachForward(pathChild, pos[j], lengths[pathChild], st, ops);
    }

    /**
     * ik_solve: a backward pass from the effected joint e to the target t,
     * then a forward pass from the root it reached back to the root's
     * original position; always reports 1. The result is SolvePass.
     */
    method Solve(e: JointId, t: Vec, st: PathStack, ops: FloatOps) returns (status: int)
      requires Valid() && Forest(links) && e < |links| && SubtreeComplete(links, Root(links, e))
      requires st.Valid() && Descends(links, e, st.Contents()) && |st.Contents()| + |Pushed(links, e)| <= StackSize
      modifies this`pos, st, st.data
      ensures Valid() && st.Valid() && status == 1
      ensures (DescendsWalks(links, e, old(st.Contents()));
              pos == SolvePass(links, lengths, old(pos), e, t, old(st.Contents()), ops).pos &&
              st.Contents() == ForwardWalk(links, e, old(st.Contents())).value.rest)
    {
      ghost var s := st.Contents();
      DescendsWalks(links, e, s);
      Retrace(links, e, s);
      RetraceDescends(links, e, s);
      var root, rootOrg := ReachBack(e, t, 0.0, st, ops);
      ReachForward(root, rootOrg, 0.0, st, ops);
      return 1;
    }

    /**
     * ik_get_render_data_no_reset: appends, for every slot of every joint of
     * the branch rooted at r in pre-order, the joint's position and then its
     * child's.
     */
    method RenderNoReset(r: JointId, buf: VertexBuffer)
      requires Valid() && Forest(links) && r < |links| && SubtreeComplete(links, r)
      requires buf.Valid() && buf.cap > 0
      modifies buf, buf.data
      ensures buf.Valid() && buf.cap > 0 && (buf.data == old(buf.data) || fresh(buf.data))
      ensures buf.Contents() == old(buf.Contents()) + Flatten(pos, Edges(links, r))
      decreases Rank(links)[r], 1
    {
      ghost var b0 := buf.Contents();
      for i := 0 to |links[r].children|
        invariant buf.Valid() && buf.cap > 0
        invariant buf.data == old(buf.data) || fresh(buf.data)
        invariant buf.Contents() == b0 + Flatten(pos, SlotEdges(links, r, i))
      {
        RenderSlot(r, i, buf, b0);
      }
    }

    /** One iteration of RenderNoReset's loop: the segment to slot i's child, then the child's branch. */
    method RenderSlot(r: JointId, i: nat, buf: VertexBuffer, ghost b0: seq<Vec>)
      requires Valid() && Forest(links) && r < |links| && SubtreeComplete(links, r) && i < |links[r].children|
      requires buf.Valid() && buf.cap > 0
      requires buf.Contents() == b0 + Flatten(pos, SlotEdges(links, r, i))
      modifies buf, buf.data
      ensures buf.Valid() && buf.cap > 0 && (buf.data == old(buf.data) || fresh(buf.data))
      ensures buf.Contents() == b0 + Flatten(pos, SlotEdges(links, r, i + 1))
      decreases Rank(links)[r], 0
    {
      SlotStep(links, r, i);
      var child := links[r].children[i].value;
      ghost var before := buf.Contents();
      buf.Push(pos[r]);
      buf.Push(pos[child]);
      ghost var pushed := buf.Contents();
      RenderNoReset(child, buf);
      RenderStep(links, pos, r, i, b0, before, pushed, buf.Contents());
    }

    /** ik_get_render_data: empties the buffer, then fills it with the segments of the branch rooted at r. */
    method GetRenderData(r: JointId, buf: VertexBuffer)
      requires Valid() && Forest(links) && r < |links| && SubtreeComplete(links, r)
      requires buf.Valid() && buf.cap > 0
      modifies buf, buf.data
      ensures buf.Valid() && buf.Contents() == Flatten(pos, Edges(links, r))
    {
      buf.Reset();
      RenderNoReset(r, buf);
    }
  }
}
