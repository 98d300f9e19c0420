/** Frame buffers and the pool that recycles them (src/data/FrameBufferPool.cpp). */
module FrameBuffers {
  import opened Bytes
  import opened PoolPolicy
  import opened Reassembly

  const NO_META := FrameMeta(0, 0, 0, 0, 0, 0, 0, 0, 0, 0, 0, 0, [0, 0, 0xC0, 0x7F], 0xFF, -1, [], [], false)

  class FrameBuffer {
    var data: seq<Byte>
    var meta: FrameMeta

    constructor ()
      ensures data == [] && meta == NO_META
    {
      data, meta := [], NO_META;
    }

    function View(): Frame
      reads this
    {
      Frame(meta, data)
    }
  }

  class FrameBufferPool {
    var free: seq<FrameBuffer>

    ghost predicate Valid()
      reads this
    {
      && |free| <= POOL_CAP
      && forall i, j | 0 <= i < j < |free| :: free[i] != free[j]
    }

    constructor ()
      ensures Valid() && free == []
    {
      free := [];
    }

    /** What the next buffer handed out still holds. */
    ghost function NextContent(): seq<Byte>
      reads this, free
    {
      if free == [] then [] else free[|free| - 1].data
    }

    ghost function NextBuffer(): set<FrameBuffer>
      reads this
    {
      if free == [] then {} else {free[|free| - 1]}
    }

    /** The most recently freed buffer, or a new one. A recycled buffer is
        grown to `atLeast` bytes but never shrunk or cleared. */
    method Acquire(atLeast: nat) returns (buf: FrameBuffer)
      requires Valid()
      modifies this, NextBuffer()
      ensures Valid() && buf !in free
      ensures old(free) == [] ==> fresh(buf) && free == []
      ensures old(free) != [] ==> old(free) == free + [buf] && buf.meta == old(free[|free| - 1].meta)
      ensures buf.data == if |old(NextContent())| < atLeast then Resize(old(NextContent()), atLeast)
              else old(NextContent())
    {
      if free != [] {
        buf := free[|free| - 1];
        free := free[..|free| - 1];
        if |buf.data| < atLeast {
          buf.data := Resize(buf.data, atLeast);
        }
      } else {
        buf := new FrameBuffer();
        buf.data := Resize(buf.data, atLeast);
      }
    }

    /** Returns a buffer whose reference count was seen to be `useCount`. A
        sole owner's buffer cannot be in the free list: that is what the
        ownership theorem establishes. */
    method Release(buf: FrameBuffer?, useCount: nat)
      requires Valid()
      requires buf != null && useCount <= 1 ==> buf !in free
      modifies this
      ensures Valid()
      ensures free == if buf == null || useCount > 1 then old(free) else Pushed(old(free), buf)
    {
      if buf == null || useCount > 1 {
        return;
      }
      if |free| < POOL_CAP {
        free := free + [buf];
      }
    }
  }
}
