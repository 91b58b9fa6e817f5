/**
 * The growable buffer of vertex positions that render extraction fills:
 * `data` has room for `cap` points of which the first `size` are in use.
 */
module VertexBuffers {
  import opened Geometry

  /** Capacity of a new buffer. */
  const InitialCap: nat := 10

  class VertexBuffer {
    var data: array<Vec>
    var size: nat
    var cap: nat

    ghost predicate Valid()
      reads this
    {
      size <= cap && cap == data.Length
    }

    /** The points in use, in push order. */
    function Contents(): (s: seq<Vec>)
      reads this, data
      requires Valid()
      ensures |s| == size
    {
      data[..size]
    }

    /** ik_new_vertex_buffer: capacity 10, nothing in use. */
    constructor ()
      ensures Valid() && size == 0 && cap == InitialCap && fresh(data)
    {
      data := new Vec[InitialCap](_ => Vec(0.0, 0.0));
      size := 0;
      cap := InitialCap;
    }

    /**
     * ik_vertex_buffer_push: appends v, first moving the points into storage
     * of twice the capacity when the buffer is full. A freed buffer (capacity
     * 0) cannot grow this way, so the capacity must be positive.
     */
    method Push(v: Vec)
      requires Valid() && cap > 0
      modifies this, data
      ensures Valid() && (data == old(data) || fresh(data))
      ensures Contents() == old(Contents()) + [v]
      ensures cap == if old(size) == old(cap) then 2 * old(cap) else old(cap)
    {
      if size == cap {
        var newCap := cap * 2;
        var newData := new Vec[newCap](_ => Vec(0.0, 0.0));
        var k := 0;
        while k < size
          modifies newData
          invariant size == cap == data.Length && newData.Length == 2 * cap && k <= size
          invariant newData[..k] == data[..k]
        {
          newData[k] := data[k];
          k := k + 1;
        }
        data := newData;
        cap := newCap;
      }
      data[size] := v;
      size := size + 1;
    }

    /** ik_vertex_buffer_reset: forgets the points, keeps the storage. */
    method Reset()
      requires Valid()
      modifies this
      ensures Valid() && Contents() == [] && cap == old(cap) && data == old(data)
    {
      size := 0;
    }

    /** ik_free_vertex_buffer: releases the storage; capacity and size become 0. */
    method Free()
      requires Valid()
      modifies this
      ensures Valid() && size == 0 && cap == 0
    {
      data := new Vec[0];
      cap := 0;
      size := 0;
    }
  }
}
