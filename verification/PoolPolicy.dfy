/** The free-list rule of the buffer pool (src/data/FrameBufferPool.cpp:34-35). */
module PoolPolicy {
  const POOL_CAP := 16

  /** The free list after a buffer is pushed: growth is capped. */
  function Pushed<T>(free: seq<T>, b: T): (r: seq<T>)
    ensures |free| <= POOL_CAP ==> |r| <= POOL_CAP
  {
    if |free| < POOL_CAP then free + [b] else free
  }
}
