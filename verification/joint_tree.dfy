/**
 * The joint tree as an arena: joint i is described by links[i], which holds
 * its parent and its child slots. The number of slots is the joint's
 * n_children, fixed when the joint is created; an empty slot is None (NULL
 * in the source). Positions and segment lengths live beside the links, in
 * the Skeleton class.
 */
module JointTree {
  import opened Wrappers

  type JointId = nat

  datatype Link = Link(parent: Option<JointId>, children: seq<Option<JointId>>)

  type Links = seq<Link>

  /**
   * Child slots and parent pointers agree: a filled slot of p names a joint
   * whose parent is p, a joint with a parent sits in one of that parent's
   * slots, and no joint fills two slots of the same parent.
   */
  ghost predicate Linked(ls: Links)
  {
    (forall p, i :: 0 <= p < |ls| && 0 <= i < |ls[p].children| && ls[p].children[i].Some? ==>
       ls[p].children[i].value < |ls| && ls[ls[p].children[i].value].parent == Some(p))
    && (forall c :: 0 <= c < |ls| && ls[c].parent.Some? ==>
          ls[c].parent.value < |ls| && Some(c) in ls[ls[c].parent.value].children)
    && (forall p, i, m :: 0 <= p < |ls| && 0 <= i < m < |ls[p].children| && ls[p].children[i].Some? ==>
          ls[p].children[i] != ls[p].children[m])
  }

  /** `rank` strictly increases from every joint to its parent. */
  ghost predicate RankedBy(ls: Links, rank: seq<nat>)
  {
    |rank| == |ls| &&
    forall c :: 0 <= c < |ls| && ls[c].parent.Some? && ls[c].parent.value < |ls| ==>
      rank[c] < rank[ls[c].parent.value]
  }

  /**
   * The links form a forest: they agree, and following parent pointers never
   * returns to a joint (witnessed by a ranking).
   */
  ghost predicate Forest(ls: Links)
  {
    Linked(ls) && exists rank :: RankedBy(ls, rank)
  }

  /** One ranking of a forest, used as the termination measure of every traversal. */
  ghost function Rank(ls: Links): (rank: seq<nat>)
    requires Forest(ls)
    ensures RankedBy(ls, rank)
  {
    var rank :| RankedBy(ls, rank); rank
  }

  /** The largest element of s (0 for the empty sequence). */
  function MaxOf(s: seq<nat>): (m: nat)
    ensures forall i :: 0 <= i < |s| ==> s[i] <= m
    ensures |s| > 0 ==> m in s
  {
    if |s| == 0 then 0
    else
      var t := MaxOf(s[1..]);
      assert forall i :: 1 <= i < |s| ==> s[i] == s[1..][i - 1];
      if s[0] > t then s[0] else t
  }

  /** The joints of the branch rooted at r: r and, recursively, the branches of its filled slots. */
  ghost function Subtree(ls: Links, r: JointId): (s: set<JointId>)
    requires Forest(ls) && r < |ls|
    ensures r in s
    ensures forall k :: k in s ==> k < |ls|
    decreases Rank(ls)[r], 1
  {
    {r} + Covered(ls, r, |ls[r].children|, None)
  }

  /**
   * The union of the branches hanging from the first i slots of r, leaving
   * out the slot whose child is `skip` (the path child of a solve pass).
   */
  ghost function Covered(ls: Links, r: JointId, i: nat, skip: Option<JointId>): (s: set<JointId>)
    requires Forest(ls) && r < |ls| && i <= |ls[r].children|
    ensures forall k :: k in s ==> k < |ls|
    decreases Rank(ls)[r], 0, i
  {
    if i == 0 then {}
    else
      var slot := ls[r].children[i - 1];
      Covered(ls, r, i - 1, skip) + (if slot.None? || slot == skip then {} else Subtree(ls, slot.value))
  }

  /** The branches of all slots of j except the path child's: what a solve pass aligns at j. */
  ghost function Others(ls: Links, j: JointId, pathChild: Option<JointId>): set<JointId>
    requires Forest(ls) && j < |ls|
  {
    Covered(ls, j, |ls[j].children|, pathChild)
  }

  /** Every slot of every joint of the branch rooted at r is filled. */
  ghost predicate SubtreeComplete(ls: Links, r: JointId)
    requires Forest(ls) && r < |ls|
  {
    forall k, i :: k in Subtree(ls, r) && 0 <= i < |ls[k].children| ==> ls[k].children[i].Some?
  }

  /** A filled slot names a joint of lower rank whose parent is the slot's owner. */
  lemma SlotChild(ls: Links, r: JointId, i: nat)
    requires Forest(ls) && r < |ls| && i < |ls[r].children| && ls[r].children[i].Some?
    ensures var c := ls[r].children[i].value;
            c < |ls| && ls[c].parent == Some(r) && Rank(ls)[c] < Rank(ls)[r]
  {
  }

  /** Every joint of a branch ranks no higher than the branch root. */
  lemma {:induction false} SubtreeRank(ls: Links, r: JointId, k: JointId)
    requires Forest(ls) && r < |ls| && k in Subtree(ls, r)
    ensures Rank(ls)[k] <= Rank(ls)[r]
    decreases Rank(ls)[r], 1
  {
    if k != r {
      CoveredRank(ls, r, |ls[r].children|, None, k);
    }
  }

  /** Every joint of the branches below r ranks strictly lower than r. */
  lemma {:induction false} CoveredRank(ls: Links, r: JointId, i: nat, skip: Option<JointId>, k: JointId)
    requires Forest(ls) && r < |ls| && i <= |ls[r].children| && k in Covered(ls, r, i, skip)
    ensures Rank(ls)[k] < Rank(ls)[r]
    decreases Rank(ls)[r], 0, i
  {
    var slot := ls[r].children[i - 1];
    if k in Covered(ls, r, i - 1, skip) {
      CoveredRank(ls, r, i - 1, skip, k);
    } else {
      SlotChild(ls, r, i - 1);
      SubtreeRank(ls, slot.value, k);
    }
  }

  /** A joint below r lies in the branch of one particular slot of r. */
  lemma {:induction false} CoveredWitness(ls: Links, r: JointId, i: nat, skip: Option<JointId>, k: JointId)
      returns (m: nat)
    requires Forest(ls) && r < |ls| && i <= |ls[r].children| && k in Covered(ls, r, i, skip)
    ensures m < i && ls[r].children[m].Some? && ls[r].children[m] != skip
    ensures k in Subtree(ls, ls[r].children[m].value)
  {
    if k in Covered(ls, r, i - 1, skip) {
      m := CoveredWitness(ls, r, i - 1, skip, k);
    } else {
      m := i - 1;
    }
  }

  /** The branch of each counted slot is part of the union. */
  lemma {:induction false} CoveredContains(ls: Links, r: JointId, i: nat, skip: Option<JointId>, m: nat)
    requires Forest(ls) && r < |ls| && i <= |ls[r].children|
    requires m < i && ls[r].children[m].Some? && ls[r].children[m] != skip
    ensures Subtree(ls, ls[r].children[m].value) <= Covered(ls, r, i, skip)
  {
    if m < i - 1 {
      CoveredContains(ls, r, i - 1, skip, m);
    }
  }

  /** The children of a joint of a branch belong to the branch. */
  lemma ChildInSubtree(ls: Links, a: JointId, q: JointId, m: nat)
    requires Forest(ls) && a < |ls| && q in Subtree(ls, a)
    requires m < |ls[q].children| && ls[q].children[m].Some?
    ensures ls[q].children[m].value in Subtree(ls, a)
  {
    SubtreeClosed(ls, a, q);
    CoveredContains(ls, q, |ls[q].children|, None, m);
  }

  /** The parent of a non-root joint of a branch belongs to the branch. */
  lemma {:induction false} ParentInSubtree(ls: Links, a: JointId, k: JointId)
    requires Forest(ls) && a < |ls| && k in Subtree(ls, a) && k != a
    ensures ls[k].parent.Some? && ls[k].parent.value in Subtree(ls, a)
    decreases Rank(ls)[a]
  {
    var n := |ls[a].children|;
    var m := CoveredWitness(ls, a, n, None, k);
    var c := ls[a].children[m].value;
    SlotChild(ls, a, m);
    CoveredContains(ls, a, n, None, m);
    if k != c {
      ParentInSubtree(ls, c, k);
    }
  }

  /** A branch contains the whole branch of each of its joints. */
  lemma {:induction false} SubtreeClosed(ls: Links, a: JointId, k: JointId)
    requires Forest(ls) && a < |ls| && k in Subtree(ls, a)
    ensures Subtree(ls, k) <= Subtree(ls, a)
    decreases Rank(ls)[a]
  {
    if k != a {
      var n := |ls[a].children|;
      var m := CoveredWitness(ls, a, n, None, k);
      var c := ls[a].children[m].value;
      SlotChild(ls, a, m);
      CoveredContains(ls, a, n, None, m);
      SubtreeClosed(ls, c, k);
    }
  }

  /** Two branches that share a joint are nested. */
  lemma {:induction false} Nested(ls: Links, a: JointId, b: JointId, k: JointId)
    requires Forest(ls) && a < |ls| && b < |ls|
    requires k in Subtree(ls, a) && k in Subtree(ls, b)
    ensures a in Subtree(ls, b) || b in Subtree(ls, a)
    decreases Rank(ls)[a] as int - Rank(ls)[k] as int
  {
    SubtreeRank(ls, a, k);
    if k != a && k != b {
      ParentInSubtree(ls, a, k);
      ParentInSubtree(ls, b, k);
      Nested(ls, a, b, ls[k].parent.value);
    }
  }

  /** A child is not inside the branch of a sibling. */
  lemma SiblingOutside(ls: Links, r: JointId, i: nat, m: nat)
    requires Forest(ls) && r < |ls| && i < |ls[r].children| && m < |ls[r].children| && i != m
    requires ls[r].children[i].Some? && ls[r].children[m].Some?
    ensures ls[r].children[i].value !in Subtree(ls, ls[r].children[m].value)
  {
    var ci, cm := ls[r].children[i].value, ls[r].children[m].value;
    SlotChild(ls, r, i);
    SlotChild(ls, r, m);
    if ci in Subtree(ls, cm) {
      ParentInSubtree(ls, cm, ci);
      SubtreeRank(ls, cm, r);
      assert false;
    }
  }

  /** The branches of two different slots are disjoint. */
  lemma SlotsDisjoint(ls: Links, r: JointId, i: nat, m: nat)
    requires Forest(ls) && r < |ls| && i < |ls[r].children| && m < |ls[r].children| && i != m
    requires ls[r].children[i].Some? && ls[r].children[m].Some?
    ensures Subtree(ls, ls[r].children[i].value) !! Subtree(ls, ls[r].children[m].value)
  {
    var ci, cm := ls[r].children[i].value, ls[r].children[m].value;
    SlotChild(ls, r, i);
    SlotChild(ls, r, m);
    forall k | k in Subtree(ls, ci)
      ensures k !in Subtree(ls, cm)
    {
      if k in Subtree(ls, cm) {
        Nested(ls, ci, cm, k);
        SiblingOutside(ls, r, i, m);
        SiblingOutside(ls, r, m, i);
        assert false;
      }
    }
  }

  /** The branch of a later slot is disjoint from the branches of the earlier ones. */
  lemma {:induction false} CoveredDisjoint(ls: Links, r: JointId, i: nat, skip: Option<JointId>, m: nat)
    requires Forest(ls) && r < |ls| && i <= m < |ls[r].children| && ls[r].children[m].Some?
    ensures Subtree(ls, ls[r].children[m].value) !! Covered(ls, r, i, skip)
  {
    if i > 0 {
      CoveredDisjoint(ls, r, i - 1, skip, m);
      var slot := ls[r].children[i - 1];
      if slot.Some? && slot != skip {
        SlotsDisjoint(ls, r, i - 1, m);
      }
    }
  }

  /** The branch of a slot of a complete branch is complete. */
  lemma ChildComplete(ls: Links, r: JointId, i: nat)
    requires Forest(ls) && r < |ls| && SubtreeComplete(ls, r)
    requires i < |ls[r].children| && ls[r].children[i].Some?
    ensures SubtreeComplete(ls, ls[r].children[i].value)
  {
    CoveredContains(ls, r, |ls[r].children|, None, i);
  }

  /** Every branch inside a complete branch is complete. */
  lemma CompleteBelow(ls: Links, a: JointId, k: JointId)
    requires Forest(ls) && a < |ls| && SubtreeComplete(ls, a) && k in Subtree(ls, a)
    ensures SubtreeComplete(ls, k)
  {
    SubtreeClosed(ls, a, k);
  }

  /** A filled slot adds exactly its child's branch to the joints covered so far, none of them twice. */
  lemma CoveredCount(ls: Links, r: JointId, i: nat)
    requires Forest(ls) && r < |ls| && i < |ls[r].children| && ls[r].children[i].Some?
    ensures ls[r].children[i].value < |ls|
    ensures |Covered(ls, r, i + 1, None)| == |Covered(ls, r, i, None)| + |Subtree(ls, ls[r].children[i].value)|
  {
    SlotChild(ls, r, i);
    CoveredDisjoint(ls, r, i, None, i);
    var before, below := Covered(ls, r, i, None), Subtree(ls, ls[r].children[i].value);
    assert Covered(ls, r, i + 1, None) == before + below;
    assert before * below == {};
  }

  /**
   * One step of a slot-order traversal of a complete branch: slot i holds a
   * lower-ranked child with a complete branch, disjoint from the root and
   * the earlier slots' branches, and adding it covers one more slot.
   */
  lemma SlotStep(ls: Links, r: JointId, i: nat)
    requires Forest(ls) && r < |ls| && SubtreeComplete(ls, r) && i < |ls[r].children|
    ensures ls[r].children[i].Some?
    ensures var c := ls[r].children[i].value;
            c < |ls| && Rank(ls)[c] < Rank(ls)[r] && SubtreeComplete(ls, c) &&
            ({r} + Covered(ls, r, i, None)) !! Subtree(ls, c) &&
            {r} + Covered(ls, r, i + 1, None) == {r} + Covered(ls, r, i, None) + Subtree(ls, c)
  {
    assert r in Subtree(ls, r);
    var c := ls[r].children[i].value;
    SlotChild(ls, r, i);
    ChildComplete(ls, r, i);
    CoveredDisjoint(ls, r, i, None, i);
    if r in Subtree(ls, c) {
      SubtreeRank(ls, c, r);
    }
  }

  /** The links of a freshly created joint: no parent, `nChildren` empty slots. */
  function NewLink(nChildren: nat): (l: Link)
    ensures l.parent.None? && |l.children| == nChildren
    ensures forall i :: 0 <= i < nChildren ==> l.children[i].None?
  {
    Link(None, seq(nChildren, _ => None))
  }

  /** The lowest-index empty slot, if there is one. */
  function FirstEmpty(slots: seq<Option<JointId>>): (r: Option<nat>)
    ensures r.Some? ==> r.value < |slots| && slots[r.value].None?
    ensures r.Some? ==> forall m :: 0 <= m < r.value ==> slots[m].Some?
    ensures r.None? ==> forall m :: 0 <= m < |slots| ==> slots[m].Some?
  {
    if |slots| == 0 then None
    else if slots[0].None? then Some(0)
    else
      match FirstEmpty(slots[1..])
      case None => None
      case Some(i) => Some(i + 1)
  }

  /** The links after `child` is written into slot i of p and its parent set to p. */
  function Attached(ls: Links, child: JointId, p: JointId, i: nat): Links
    requires child < |ls| && p < |ls| && i < |ls[p].children|
  {
    var filled := ls[p := ls[p].(children := ls[p].children[i := Some(child)])];
    filled[child := filled[child].(parent := Some(p))]
  }

  /** Creating a joint keeps a forest a forest: the new joint is a root of its own. */
  lemma NewJointKeepsForest(ls: Links, nChildren: nat)
    requires Forest(ls)
    ensures Forest(ls + [NewLink(nChildren)])
  {
    var ls' := ls + [NewLink(nChildren)];
    var rank := Rank(ls) + [0];
    assert RankedBy(ls', rank);
  }

  /** Attaching changes p's slot i and child's parent, and nothing else. */
  lemma AttachedShape(ls: Links, child: JointId, p: JointId, i: nat)
    requires child < |ls| && p < |ls| && i < |ls[p].children|
    ensures var ls' := Attached(ls, child, p, i);
            |ls'| == |ls| &&
            forall k :: 0 <= k < |ls| ==>
              ls'[k].children == (if k == p then ls[p].children[i := Some(child)] else ls[k].children) &&
              ls'[k].parent == (if k == child then Some(p) else ls[k].parent)
  {
  }

  /** In a forest, no slot names a parentless joint. */
  lemma NoSlotHolds(ls: Links, child: JointId)
    requires Forest(ls) && child < |ls| && ls[child].parent.None?
    ensures forall q, m :: 0 <= q < |ls| && 0 <= m < |ls[q].children| ==> ls[q].children[m] != Some(child)
  {
    forall q, m | 0 <= q < |ls| && 0 <= m < |ls[q].children| && ls[q].children[m].Some?
      ensures ls[q].children[m].value != child
    {
      SlotChild(ls, q, m);
    }
  }

  /** Attaching a parentless joint into an empty slot keeps slots and parents in agreement. */
  lemma AttachKeepsLinked(ls: Links, child: JointId, p: JointId, i: nat)
    requires Forest(ls) && child < |ls| && p < |ls| && i < |ls[p].children|
    requires ls[p].children[i].None? && ls[child].parent.None?
    ensures Linked(Attached(ls, child, p, i))
  {
    AttachKeepsSlots(ls, child, p, i);
    AttachKeepsParents(ls, child, p, i);
    AttachKeepsDistinct(ls, child, p, i);
  }

  /** After attaching, every filled slot still names a joint whose parent is the slot's owner. */
  lemma AttachKeepsSlots(ls: Links, child: JointId, p: JointId, i: nat)
    requires Forest(ls) && child < |ls| && p < |ls| && i < |ls[p].children|
    requires ls[p].children[i].None? && ls[child].parent.None?
    ensures var ls' := Attached(ls, child, p, i);
            forall q, m :: 0 <= q < |ls'| && 0 <= m < |ls'[q].children| && ls'[q].children[m].Some? ==>
              ls'[q].children[m].value < |ls'| && ls'[ls'[q].children[m].value].parent == Some(q)
  {
    var ls' := Attached(ls, child, p, i);
    AttachedShape(ls, child, p, i);
    forall q, m | 0 <= q < |ls'| && 0 <= m < |ls'[q].children| && ls'[q].children[m].Some?
      ensures ls'[q].children[m].value < |ls'| && ls'[ls'[q].children[m].value].parent == Some(q)
    {
      if !(q == p && m == i) {
        assert ls'[q].children[m] == ls[q].children[m];
      }
    }
  }

  /** After attaching, every joint with a parent still sits in one of its parent's slots. */
  lemma AttachKeepsParents(ls: Links, child: JointId, p: JointId, i: nat)
    requires Forest(ls) && child < |ls| && p < |ls| && i < |ls[p].children|
    requires ls[p].children[i].None? && ls[child].parent.None?
    ensures var ls' := Attached(ls, child, p, i);
            forall c :: 0 <= c < |ls'| && ls'[c].parent.Some? ==>
              ls'[c].parent.value < |ls'| && Some(c) in ls'[ls'[c].parent.value].children
  {
    var ls' := Attached(ls, child, p, i);
    AttachedShape(ls, child, p, i);
    forall c | 0 <= c < |ls'| && ls'[c].parent.Some?
      ensures ls'[c].parent.value < |ls'| && Some(c) in ls'[ls'[c].parent.value].children
    {
      if c == child {
        assert ls'[p].children[i] == Some(child);
      } else {
        var q := ls[c].parent.value;
        assert Some(c) in ls[q].children;
        var m :| 0 <= m < |ls[q].children| && ls[q].children[m] == Some(c);
        assert ls'[q].children[m] == Some(c);
      }
    }
  }

  /** After attaching, no joint fills two slots of the same parent. */
  lemma AttachKeepsDistinct(ls: Links, child: JointId, p: JointId, i: nat)
    requires Forest(ls) && child < |ls| && p < |ls| && i < |ls[p].children|
    requires ls[p].children[i].None? && ls[child].parent.None?
    ensures var ls' := Attached(ls, child, p, i);
            forall q, m, m' :: 0 <= q < |ls'| && 0 <= m < m' < |ls'[q].children| && ls'[q].children[m].Some? ==>
              ls'[q].children[m] != ls'[q].children[m']
  {
    AttachedShape(ls, child, p, i);
    NoSlotHolds(ls, child);
  }


  /** The lifted ranking of AttachKeepsForest increases from child to parent after attaching. */
  lemma AttachKeepsRanked(ls: Links, child: JointId, p: JointId, i: nat)
    requires Forest(ls) && child < |ls| && p < |ls| && i < |ls[p].children|
    requires ls[child].parent.None? && p !in Subtree(ls, child)
    ensures RankedBy(Attached(ls, child, p, i), Lifted(ls, child))
  {
    var ls' := Attached(ls, child, p, i);
    var s := Subtree(ls, child);
    var rank' := Lifted(ls, child);
    AttachedShape(ls, child, p, i);
    forall c | 0 <= c < |ls'| && ls'[c].parent.Some? && ls'[c].parent.value < |ls'|
      ensures rank'[c] < rank'[ls'[c].parent.value]
    {
      if c != child {
        var q := ls[c].parent.value;
        if c in s {
          ParentInSubtree(ls, child, c);
        } else if q in s {
          assert Some(c) in ls[q].children;
          var m :| 0 <= m < |ls[q].children| && ls[q].children[m] == Some(c);
          ChildInSubtree(ls, child, q, m);
        }
      }
    }
  }

  /** The ranking that keeps the attached branch and lifts every other joint above its root. */
  ghost function Lifted(ls: Links, child: JointId): (rank: seq<nat>)
    requires Forest(ls) && child < |ls|
    ensures |rank| == |ls|
  {
    var s := Subtree(ls, child);
    var r := Rank(ls);
    seq(|ls|, k requires 0 <= k < |ls| => if k in s then r[k] else r[k] + r[child] + 1)
  }

  /**
   * Attaching a parentless joint into an empty slot of a joint outside its
   * branch keeps a forest a forest.
   */
  lemma AttachKeepsForest(ls: Links, child: JointId, p: JointId, i: nat)
    requires Forest(ls) && child < |ls| && p < |ls| && i < |ls[p].children|
    requires ls[p].children[i].None? && ls[child].parent.None?
    requires p !in Subtree(ls, child)
    ensures Forest(Attached(ls, child, p, i))
  {
    AttachKeepsLinked(ls, child, p, i);
    AttachKeepsRanked(ls, child, p, i);
  }
}
