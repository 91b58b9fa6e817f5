/**
 * The path stack: a bounded LIFO of joint references. During a solve, the
 * backward pass pushes the child it came from at every branch point, and
 * the forward pass pops it again to know which child to continue through.
 * The source keeps one process-wide instance; here it is an object passed
 * to the solver.
 */
module PathStacks {
  import opened Wrappers

  /** Number of entries the stack can hold (IK_STACK_SIZE). */
  const StackSize: nat := 1024

  /** The top entry of a stack's contents, or None (NULL) when it is empty. */
  function TopOf(s: seq<nat>): (r: Option<nat>)
    ensures r.None? <==> |s| == 0
    ensures r.Some? ==> r.value == s[|s| - 1]
  {
    if |s| == 0 then None else Some(s[|s| - 1])
  }

  class PathStack {
    /** The slots; entries data[0 .. end) are on the stack, data[end - 1] on top. */
    var data: array<nat>
    var end: nat
    /** Whether ik_init has run; before it, `end` is NULL and no operation may be used. */
    ghost var initialised: bool

    /** The storage is in place and the depth is within it. */
    ghost predicate Allocated()
      reads this
    {
      data.Length == StackSize && end <= StackSize
    }

    /** The stack is ready for use: allocated, and ik_init has run. */
    ghost predicate Valid()
      reads this
    {
      Allocated() && initialised
    }

    /** The entries on the stack, bottom first. */
    function Contents(): (s: seq<nat>)
      reads this, data
      requires Allocated()
      ensures |s| == end
    {
      data[..end]
    }

    /**
     * The declared stack: its fixed storage, but not yet usable, since the
     * zero-initialised `end` is NULL until ik_init points it at the storage.
     */
    constructor ()
      ensures Allocated() && !initialised && fresh(data)
    {
      data := new nat[StackSize];
      end := 0;
      initialised := false;
    }

    /** ik_init: points `end` at the storage, which empties the stack and makes it usable. */
    method Init()
      requires Allocated()
      modifies this
      ensures Valid() && Contents() == [] && data == old(data)
    {
      end := 0;
      initialised := true;
    }

    /** Pushes j; the source does no bounds check, so a full stack is excluded. */
    method Push(j: nat)
      requires Valid() && end < StackSize
      modifies this, data
      ensures Valid() && data == old(data)
      ensures Contents() == old(Contents()) + [j]
    {
      data[end] := j;
      end := end + 1;
    }

    /** Removes and returns the top entry; None, with nothing changed, on an empty stack. */
    method Pop() returns (r: Option<nat>)
      requires Valid()
      modifies this
      ensures Valid() && data == old(data)
      ensures r == TopOf(old(Contents()))
      ensures Contents() == if r.None? then old(Contents()) else old(Contents())[..old(end) - 1]
    {
      if end == 0 {
        return None;
      }
      end := end - 1;
      r := Some(data[end]);
    }

    /** Returns the top entry without removing it; None on an empty stack. */
    method Top() returns (r: Option<nat>)
      requires Valid()
      ensures r == TopOf(Contents())
    {
      if end == 0 {
        return None;
      }
      r := Some(data[end - 1]);
    }
  }

  /**
   * Push followed by pop is the identity on the contents, and the pushed
   * joint is what top and pop then report.
   */
  lemma PushPopRoundTrip(s: seq<nat>, j: nat)
    ensures TopOf(s + [j]) == Some(j)
    ensures (s + [j])[..|s + [j]| - 1] == s
  {
  }
}
