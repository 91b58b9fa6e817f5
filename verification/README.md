# iksolver in Dafny

A model of `include/iksolver.h`, a single-header 2-D FABRIK inverse-kinematics
solver written in C, with proofs about the model.

The solver keeps a tree of joints. Each joint has:

- a position;
- a segment length, which is its distance to its parent;
- a parent pointer;
- a fixed number of child slots, chosen when the joint is created.

`ik_solve` moves an *effected* joint onto a target in two passes.

- **Backward pass (`ik_reach_back`).** It walks up to the root, moving each
  joint within its segment length of the joint below. At every branch point,
  it pushes the child it came from on a global path stack.
- **Forward pass (`ik_reach_forward`).** It walks back down from the root,
  which returns to its original position. It pops the stack at every branch
  point to find the child to continue through.

At every branch point that either pass reaches, the branches of the *other*
children are carried along rigidly:

- by a rotation about the joint (`ik_align_branch`);
- by a plain translation when the joint is the root
  (`ik_align_branch_only_translate`).

The header also offers:

- whole-branch translation (`ik_translate`, `ik_translate_relative`);
- render extraction into a growable vertex buffer. This emits one
  (parent, child) point pair per segment, in depth-first pre-order.

How the model is organised:

- **`JointTree`: the joints as an arena.** Joint `i` is described by `links[i]`.
  A parent is an `Option` index, and the child slots are a sequence of `Option`
  indices; `None` stands for NULL.
  - `Forest` says that slots and parent pointers agree and that there are no
    cycles. A ranking that grows from child to parent witnesses the second
    part. Every traversal terminates on that ranking.
  - `Subtree(ls, r)` is the branch rooted at `r`.
- **`Skeletons.Skeleton`: the solver's mutable state.** Positions, lengths and
  links are sequence fields that the methods reassign. Each C function that
  updates joints in place is a method of this class:
  - with the same recursion and the same `for` loop over the slots;
  - proved against a specification function:
    - `Mapped`: a set of joints moved by one motion;
    - `BackPass` / `ForwardPass` / `SolvePass`: the passes;
    - `Flatten(Edges(..))`: the rendered points.
- **`PathStacks.PathStack`: the path stack.** A class over a fixed array of
  1024 entries and a depth counter, like `ik_stack`, with a ghost flag that
  records whether `ik_init` has run.
- **`VertexBuffers.VertexBuffer`: the vertex buffer.** A class over an array,
  reallocated at twice the capacity when it is full.
- **`Paths`: the discrete skeleton of a solve.** What the backward pass pushes,
  where each pass aligns, and the walk the forward pass takes over the stack
  (`ForwardWalk`). The main result (`Retrace`, `SolveMirrors`) is that the
  forward pass retraces the backward pass's path.
- **`Geometry`: points and the two rigid motions.** Positions are reals. The
  square root (`IK_SQRT`) and the result of a division by zero are supplied by
  a `FloatOps` value.

## Model

| member | source | states |
|---|---|---|
| Geometry.Clamp | include/iksolver.h:299-300 | the clamped `S2` is never negative and equals `S2` whenever `S2` is not negative |
| Geometry.Orientation | include/iksolver.h:302-303 | the sign entry `P` of the alignment matrix is always 1 or -1 |
| Geometry.ShiftRoundTrip | include/iksolver.h:582-588 | translating a point by (dx, dy) and then by (-dx, -dy) restores it |
| Geometry.RotateKeepsNorm | include/iksolver.h:259-267 | when C*C + S*S == 1 and P is 1 or -1, the matrix [[C, -P*S], [P*S, C]] keeps the squared length of every vector |
| Geometry.RigidKeepsDistance | include/iksolver.h:251-276 | a translation, or "translate by offset then rotate about pivot" with a rotation matrix, keeps every pairwise distance |
| Geometry.BranchMotionFollowsJoint | include/iksolver.h:394-425 | the map applied to the other branches at a moved branch point carries the joint's old position onto its new one, both in the rotate case (pivot = parent) and in the translate-only case (root) |
| Geometry.BranchMotionRigid | include/iksolver.h:289-314 | once the matrix is a rotation, an aligned branch keeps its shape and each joint's distance to the moved branch point |
| Geometry.LengthSquared | include/iksolver.h:182-185 | with an exact square root, `length` is non-negative and squares to x*x + y*y |
| Geometry.MovedOnCircle | include/iksolver.h:349-352 | a joint whose offset from the target has non-zero computed length is moved exactly `distance` away from the target |
| Geometry.MovedWithinDistance | include/iksolver.h:338-353 | `ik_move_within_dist` snaps a joint that coincides with the target onto the target, and puts any other joint `distance` from the target when the length is non-zero |
| Geometry.MovedZero | include/iksolver.h:338-353 | moving within distance 0 puts the joint on the target whatever the square root returns, which is what `ik_solve`'s 0.0f start relies on |
| Geometry.SineOfCosine | include/iksolver.h:298-300 | with an exact square root and C in [-1, 1], S = sqrt(max(0, 1 - C*C)) satisfies C*C + S*S == 1 |
| Geometry.CosineBounded | include/iksolver.h:294-296 | with an exact square root and both offsets of non-zero computed length, the cosine C lies in [-1, 1] (Cauchy–Schwarz) |
| Geometry.AlignMatrixShape | include/iksolver.h:291-303 | with an exact square root and both offsets of non-zero computed length, the C, S, P that `ik_align_branch` computes form a rotation (C*C + S*S == 1, P = ±1) |
| JointTree.NewLink | include/iksolver.h:608-611 | a new joint has no parent and exactly `n_children` slots, all empty |
| JointTree.FirstEmpty | include/iksolver.h:629-630 | the slot chosen is empty and every slot before it is filled; no slot is chosen only when every slot is filled |
| JointTree.NewJointKeepsForest | include/iksolver.h:601-614 | adding a parentless joint with empty slots keeps the links a forest |
| JointTree.AttachedShape | include/iksolver.h:631-632 | attaching writes the child into parent's slot i and sets the child's parent, and changes no other slot or parent |
| JointTree.AttachKeepsLinked | include/iksolver.h:627-636 | attaching a parentless joint into an empty slot keeps slots and parent pointers in agreement |
| JointTree.AttachKeepsForest | include/iksolver.h:627-636 | attaching a parentless joint into an empty slot of a joint outside its own branch keeps the links acyclic |
| JointTree.SlotsDisjoint | include/iksolver.h:28-38 | the branches hanging from two different slots of a joint share no joint |
| JointTree.Nested | include/iksolver.h:28-38 | two branches that share a joint are nested |
| JointTree.SubtreeClosed | include/iksolver.h:28-38 | a branch contains the whole branch of each of its joints |
| PathStacks.TopOf | include/iksolver.h:220-226 | the top is NULL exactly when the stack is empty, and otherwise is the last entry pushed |
| PathStacks.PathStack.constructor | include/iksolver.h:198-201 | the declared stack has its fixed storage but is not usable: `end` is NULL until `ik_init` runs |
| PathStacks.PathStack.Init | include/iksolver.h:596-599 | `ik_init` points `end` at the storage: the stack becomes usable and empty, its storage kept |
| PathStacks.PathStack.Push | include/iksolver.h:203-208 | pushing appends the joint to the contents (below the 1024-entry bound) |
| PathStacks.PathStack.Pop | include/iksolver.h:210-218 | pop returns the top entry and removes it; on an empty stack it returns NULL and changes nothing |
| PathStacks.PathStack.Top | include/iksolver.h:220-226 | top returns the last entry pushed, or NULL on an empty stack, and changes nothing |
| PathStacks.PushPopRoundTrip | include/iksolver.h:203-226 | after a push, top and pop report the pushed joint, and pop restores the previous contents |
| VertexBuffers.VertexBuffer.constructor | include/iksolver.h:682-690 | a new buffer has capacity 10 and size 0 |
| VertexBuffers.VertexBuffer.Push | include/iksolver.h:536-551 | the contents grow by exactly the pushed point, earlier points unchanged; the capacity doubles exactly when the buffer was full, so size <= cap is kept |
| VertexBuffers.VertexBuffer.Reset | include/iksolver.h:557-560 | reset empties the contents and keeps capacity and storage |
| VertexBuffers.VertexBuffer.Free | include/iksolver.h:693-698 | a freed buffer has capacity 0 and size 0 |
| Paths.Up | include/iksolver.h:431-450 | the path the backward pass climbs starts at the effected joint and stays inside the arena |
| Paths.Root | include/iksolver.h:373-380 | the joint the backward pass stops at has no parent |
| Paths.InRootBranch | include/iksolver.h:373-380 | the effected joint lies in the branch of the root the backward pass reaches |
| Paths.RootUnique | include/iksolver.h:373-380 | the root the backward pass reaches is the only parentless joint whose branch holds the effected joint |
| Paths.DownPathReversesUp | include/iksolver.h:523-528 | the path from the root down to a joint is the backward pass's path up from it, reversed |
| Paths.PushedExactly | include/iksolver.h:436-441 | the backward pass pushes a joint if and only if it lies on the path up and its parent has more than one child |
| Paths.PushedInPathOrder | include/iksolver.h:436-450 | the pushes are exactly the path up with the joints whose parent is not a branch point removed, in leaf-to-root order |
| Paths.UpAlignsFollowPath | include/iksolver.h:389-411 | above the effected joint, the path child the backward pass reads at each branch point is that branch point's child on the path it climbed |
| Paths.PassesAgree | include/iksolver.h:478-515 | the forward pass's alignments down to a joint are the backward pass's alignments above it, in reverse order, with the same path children |
| Paths.Retrace | include/iksolver.h:478-528 | from the root, over the stack the backward pass left, the forward pass walks down the same path to the effected joint and aligns as the backward pass did |
| Paths.OthersExactly | include/iksolver.h:405-411 | a pass aligns a joint if and only if it lies in the branch of a filled slot other than the path child's |
| Paths.OthersDisjoint | include/iksolver.h:409-410 | the path child's branch is never aligned |
| Paths.OthersBelow | include/iksolver.h:405-425 | what a pass aligns at a joint lies strictly below that joint |
| Paths.ChainWalk | include/iksolver.h:466-518 | on a complete branch with no branch point the forward pass succeeds, pops nothing and aligns nothing; from an empty stack it succeeds only on such a branch |
| Paths.DescendsWalks | include/iksolver.h:466-528 | on a stack consistent with the branch, the forward pass never pops NULL, and visits only the branch, each joint a child of the one before |
| Paths.RetraceDescends | include/iksolver.h:436-441 | what the backward pass pushes keeps the stack consistent for the forward pass from the root |
| Paths.ChainDescends | include/iksolver.h:516-518 | any stack is consistent with a complete chain |
| Paths.EmptyStackWalk | include/iksolver.h:478-481 | from an empty stack the forward pass succeeds only where it meets no branch point, and then aligns and pops nothing |
| Paths.MirrorWalk | include/iksolver.h:647-672 | from an empty stack, the forward pass over what the backward pass pushed makes the backward pass's alignments in reverse order and empties the stack |
| Passes.MappedAt | include/iksolver.h:251-276 | moving a set of joints by a motion moves exactly those joints, each by the motion |
| Passes.MappedUnion | include/iksolver.h:274-275 | moving two disjoint sets one after the other moves their union |
| Passes.ShiftBack | include/iksolver.h:582-588 | translating a branch by (dx, dy) and then by (-dx, -dy) restores every position |
| Passes.MappedRigid | include/iksolver.h:251-276 | under a rigid motion the joints of a moved branch keep their distances to each other |
| Passes.RealignAt | include/iksolver.h:389-427 | at a branch point, exactly the joints of the other children's branches move, by one motion; at a joint with at most one slot nothing moves |
| Passes.RealignFrame | include/iksolver.h:405-411 | aligning at a joint never moves the joint itself, anything above it, or the path child's branch |
| Passes.AlignedUpToMapped | include/iksolver.h:405-411 | running the alignment loop over the first i slots moves exactly the union of their branches (the path child's left out) |
| Passes.BranchMapped | include/iksolver.h:323-331 | moving a branch root-first, then slot by slot recursively, moves exactly the joints of the branch |
| Passes.AlignedUpToKeepsJoint | include/iksolver.h:405-411 | while the alignment loop at a joint runs, the joint itself stays where it is |
| Passes.BackPassStep | include/iksolver.h:431-450 | below the root, the backward pass is its step at the joint followed by the pass from the parent, which pushes the rest of what the whole pass pushes |
| Passes.BackPassAligns | include/iksolver.h:389-427 | the backward pass aligns exactly at the branch points of the path up, reading the stack's top at the start and the child it came from above |
| Passes.BackAbove | include/iksolver.h:436-450 | once the backward pass has left a child, it no longer moves any joint of the child's branch |
| Passes.BackPassMovesStart | include/iksolver.h:383-384 | the backward pass leaves its first joint where its first move put it |
| Passes.BackPassReachesTarget | include/iksolver.h:653-661 | started at distance 0, the backward pass leaves the effected joint exactly on the target |
| Passes.BackPassOutside | include/iksolver.h:366-451 | the backward pass moves no joint outside the effected joint's tree |
| Passes.BackPathSegments | include/iksolver.h:445-450 | every non-root joint on the path up ends with its parent moved towards it at its segment length |
| Passes.BackPathLengths | include/iksolver.h:445-450 | with an exact square root, every segment on the path up gets back its length whenever its computed length is non-zero |
| Passes.NextJoint | include/iksolver.h:516-518 | the joint the forward pass goes on to is a joint of the arena from which the forward walk still succeeds |
| Passes.ForwardPassAligns | include/iksolver.h:478-515 | the forward pass aligns exactly where the walk over the same stack does |
| Passes.NextDescends | include/iksolver.h:516-528 | on a consistent stack, the forward pass continues through a child of the current joint and the stack stays consistent |
| Passes.ForwardPassOutside | include/iksolver.h:455-529 | on a consistent stack, the forward pass moves no joint outside the branch it starts from |
| Passes.ForwardPassMovesStart | include/iksolver.h:462-463 | the forward pass leaves its first joint where its first move put it |
| Passes.ForwardFirstSegment | include/iksolver.h:523-528 | the joint after the first is moved towards the first joint's final position at its own segment length |
| Passes.ForwardSegments | include/iksolver.h:523-528 | every joint the forward pass reaches after the first ends moved towards its parent's final position at its own segment length |
| Passes.SolveKeepsRoot | include/iksolver.h:663-668 | on a consistent stack, a solve leaves the root where it was |
| Passes.SolveOutside | include/iksolver.h:647-672 | on a consistent stack, a solve moves no joint outside the effected joint's tree |
| Passes.SolveMirrors | include/iksolver.h:647-672 | a solve from an empty stack aligns on the way down at the same branch points, with the same path children, as on the way up, in reverse order |
| Render.FlattenAt | include/iksolver.h:572-573 | segment m contributes points 2m and 2m + 1: its parent's position, then its child's |
| Render.EdgesAreLinks | include/iksolver.h:569-575 | every emitted segment joins a joint of the branch to one of its children |
| Render.EdgesReachBranch | include/iksolver.h:567-576 | the emitted segments end at exactly the non-root joints of the branch |
| Render.EdgeCount | include/iksolver.h:567-576 | there is one segment per non-root joint of the branch, so the buffer receives 2 × (joints - 1) points |
| Render.FlattenSlot | include/iksolver.h:569-575 | the points of slot i are the segment to its child followed by the child's own points |
| Render.RenderStep | include/iksolver.h:569-575 | one loop iteration takes a buffer holding the first i slots' points to one holding the first i + 1 slots' points |
| Skeletons.Skeleton.NewJoint | include/iksolver.h:601-614 | a new joint at (0, 0) with the given length, no parent and `n_children` empty slots; no other joint changes; the links stay a forest |
| Skeletons.Skeleton.Attach | include/iksolver.h:627-636 | on success the child is in the lowest empty slot, the child's parent is set, and IK_OK is returned; with no empty slot, IK_ERROR is returned and nothing changes; attaching a parentless joint below a joint outside its branch keeps a forest |
| Skeletons.Skeleton.MoveWithinDist | include/iksolver.h:338-353 | only the joint moves, to where `Moved` says |
| Skeletons.Skeleton.TranslateRelative | include/iksolver.h:582-588 | every joint of the branch moves by (dx, dy) and no other joint moves |
| Skeletons.Skeleton.RelativeSlot | include/iksolver.h:586-587 | one loop iteration translates the branch of slot i |
| Skeletons.Skeleton.AlignOnlyTranslate | include/iksolver.h:323-331 | every joint of the branch moves by the offset and no other joint moves, the same effect as `ik_translate_relative` |
| Skeletons.Skeleton.OnlyTranslateSlot | include/iksolver.h:329-330 | one loop iteration translates the branch of slot i |
| Skeletons.Skeleton.AlignPrecalc | include/iksolver.h:251-276 | every joint of the branch gets p ↦ pivot + R·(p + offset − pivot), and no other joint moves |
| Skeletons.Skeleton.PrecalcSlot | include/iksolver.h:274-275 | one loop iteration aligns the branch of slot i |
| Skeletons.Skeleton.Translate | include/iksolver.h:639-644 | the branch is translated rigidly and its root ends exactly at (x, y) |
| Skeletons.Skeleton.AlignBranch | include/iksolver.h:289-315 | the branch is translated by to - from and rotated by the computed C, S, P about the parent's position; nothing else moves |
| Skeletons.Skeleton.AlignOthers | include/iksolver.h:389-426 | at a branch point, the positions become `Realign`: the other children's branches rotated with the joint, or translated with it at the root |
| Skeletons.Skeleton.RotateOthers | include/iksolver.h:394-411 | the loop with a parent moves exactly the branches of the slots other than the path child's, by the alignment's turn |
| Skeletons.Skeleton.RotateSlot | include/iksolver.h:405-411 | one loop iteration aligns slot i's branch unless it holds the path child |
| Skeletons.Skeleton.TranslateOthers | include/iksolver.h:412-425 | the loop at the root translates exactly the branches of the slots other than the path child's by the root's displacement |
| Skeletons.Skeleton.TranslateSlot | include/iksolver.h:415-425 | one loop iteration translates slot i's branch unless it holds the path child |
| Skeletons.Skeleton.ReachBack | include/iksolver.h:366-451 | the positions become `BackPass`; it returns the root and the root's original position; it pushes exactly `Pushed` on the stack |
| Skeletons.Skeleton.BackStep | include/iksolver.h:370-427 | the work at one joint: the joint moves within the distance of the target, and the branches of the other children follow it at a branch point |
| Skeletons.Skeleton.ReachForward | include/iksolver.h:455-529 | on a consistent stack the positions become `ForwardPass` and the stack loses exactly what the walk pops |
| Skeletons.Skeleton.Solve | include/iksolver.h:647-672 | on a consistent stack the positions become `SolvePass`, the stack ends as the forward walk from the effected joint over the original stack leaves it (unchanged on a chain, by `Paths.ChainWalk`), and the result is 1 |
| Skeletons.Skeleton.RenderNoReset | include/iksolver.h:567-576 | appends the points of the branch's segments in pre-order, slot order, to what the buffer held |
| Skeletons.Skeleton.RenderSlot | include/iksolver.h:569-575 | one loop iteration appends the segment to slot i's child and then the child's branch |
| Skeletons.Skeleton.GetRenderData | include/iksolver.h:675-679 | afterwards the buffer holds exactly the points of the branch's segments in pre-order |

## Left out

- Single-precision floating point. Positions and lengths are reals, and rounding is not modelled.
  - `IK_SQRT` and the result of a division by zero are parameters, the fields of a `FloatOps` value. A real cannot stand for an infinity or a NaN, so results reached through a division by zero are not faithful.
  - Segment-length results hold only under the hypothesis that the square root is exact.
  - FABRIK convergence is not stated.
- `LOG` and `INDENT`: debug output only.
- `IK_MALLOC`, `IK_FREE` and `memcpy`: allocation is Dafny allocation.
  - Joints live in one arena, and pointers are arena indices.
  - `Skeletons.Skeleton.constructor` is the empty arena and has no counterpart in the source.
- `ik_delete_branch`: freeing memory has no counterpart in a value arena. A deleted joint would simply stay unused.
- The process-wide `ik_stack`: it is one `PathStack` object passed to the passes. Re-entrancy is not modelled.
- Undefined behaviour is excluded by preconditions rather than modelled.
  - Use of the path stack before `ik_init`. The declared stack's `end` is NULL, so a pop or top would decrement NULL and a push would write through it. `Push`, `Pop`, `Top` and the passes require `Valid()`, which only `Init` establishes.
  - A push onto a full stack: `Push` requires `end < 1024`. `ReachBack` and `Solve` require room for everything the pass will push.
  - An empty slot met by a traversal. The header requires every slot to be filled before any operation. The traversals require `SubtreeComplete` on the branch they walk.
  - A NULL `path_child` popped at a branch point. `ReachForward` and `Solve` require `Descends`: the stack must supply a child at every branch point the forward pass reaches.
    - `Paths.ChainWalk` and `Paths.EmptyStackWalk` show what this excludes. On an empty stack, a solve whose effected joint has a branch point below it pops NULL there.
  - A push onto a freed buffer (capacity 0). Doubling would leave no room, so `Push` requires `cap > 0`.
- VertexBuffers.VertexBuffer.Push: the `int` overflow of `cap * 2` is not modelled. Capacities are unbounded.
- Skeletons.Skeleton.Attach: like the source, it checks neither that the child is parentless nor that the parent lies outside the child's branch. Forest preservation is promised only when both hold.
- Aligning at a joint whose old or new offset to its parent has zero length. The source computes 0 / 0 there, and every aligned joint becomes NaN. The model's `overZero` is a real, so it moves those joints by a finite motion instead; `Geometry.AlignMatrixShape` promises a rotation only when both offsets have non-zero length. Such a zero offset is reachable: `ik_new_joint` places every joint at (0, 0).
- Geometry.MovedWithinDistance: the distance guarantee is stated for offsets whose computed length is non-zero. This is the source's own branch condition. It is not derived from the offset being non-zero.
- Passes.ForwardSegments: it states how each joint was moved, not the resulting distance. The distance follows as in `Passes.BackPathLengths` when the square root is exact and the length is non-zero.
