/**
 A short run through the reassembler and its pool: what a released frame held
 comes back in a header-only frame (src/net/ChunkReassembler.cpp:211-218,
 src/data/FrameBufferPool.cpp:5-11).
 */
module RecycledBuffers {
  import opened Bytes
  import opened Options
  import opened Protocol
  import opened Reassembly
  import opened FrameBuffers
  import opened PoolPolicy
  import opened ChunkReassembly

  lemma StartOpens(h: ChunkHeader, recycled: seq<Byte>)
    requires h.cornerBlockSize == 0 && h.totalChunks > 0
    ensures var st := Stage(h, [], recycled, 0);
            Step(State(map[], 0), Event(EncodeStart(h, []), recycled, 0))
            == (State(map[h.frameUuid := st], 0), Opened(h.frameUuid))
  {
    StartRoundTrip(h, []);
    hide Classify, EncodeStart, MetaOf;
  }

  lemma OnlyChunkCompletes(h: ChunkHeader, stale: seq<Byte>, payload: seq<Byte>, recycled: seq<Byte>)
    requires h.totalChunks == 1 && h.totalSize == |payload| < 0x1_0000_0000
    ensures var s := State(map[h.frameUuid := Stage(h, [], stale, 0)], 0);
            Step(s, Event(EncodeChunk(h.frameUuid, 0, payload), recycled, 0))
            == (State(map[], 0), Completed(h.frameUuid, Frame(MetaOf(h, []), payload)))
  {
    ChunkRoundTrip(h.frameUuid, 0, payload);
    var st := StoreChunk(Stage(h, [], stale, 0), 0, payload, 0);
    assert st.chunks == [payload];
    assert [payload][..0] == [] && Flatten([]) == [] && [] + payload == payload;
    var dst := Resize(stale, |payload|);
    assert dst[|payload|..] == [] && payload + [] == payload;
    assert Assemble(h.frameUuid, st) == Completed(h.frameUuid, Frame(MetaOf(h, []), payload));
    hide Classify, EncodeChunk, MetaOf, Flatten, Resize, Overwrite, Assemble;
    var t := map[h.frameUuid := Stage(h, [], stale, 0)];
    assert t - {h.frameUuid} == map[];
  }

  lemma HeaderComesOut(h: ChunkHeader, recycled: seq<Byte>)
    requires h.cornerBlockSize == 0 && h.totalChunks == 0 && h.totalSize == 0
    ensures Step(State(map[], 0), Event(EncodeStart(h, []), recycled, 0))
            == (State(map[], 0), HeaderOnly(h.frameUuid, Frame(MetaOf(h, []), recycled)))
  {
    StartRoundTrip(h, []);
    PutBack(map[], h.frameUuid);
    hide Classify, EncodeStart, MetaOf, Put;
  }

  lemma NothingStaged(r: ChunkReassembler)
    requires r.Now().table == map[]
    ensures r.inFlight == map[]
  {
    assert r.Staging().Keys == r.inFlight.Keys;
  }

  /** A new connection delivers a one-chunk frame. */
  method DeliverOne(h: ChunkHeader, payload: seq<Byte>) returns (connection: ChunkReassembler, frame: FrameBuffer)
    requires h.cornerBlockSize == 0 && h.totalChunks == 1 && h.totalSize == |payload| < 0x1_0000_0000
    ensures fresh(connection) && fresh(connection.pool) && fresh(frame)
    ensures connection.Valid() && connection.Now() == State(map[], 0)
    ensures connection.pool.free == [] && frame.data == payload
  {
    hide Step, Classify, EncodeStart, EncodeChunk, Stage, Handle;
    var pool := new FrameBufferPool();
    connection := new ChunkReassembler(pool, 0);
    StartOpens(h, []);
    var none := connection.OnBinary(EncodeStart(h, []), 0);
    OnlyChunkCompletes(h, [], payload, pool.NextContent());
    frame := connection.OnBinary(EncodeChunk(h.frameUuid, 0, payload), 0);
  }

  /** Its consumer releases it as the last owner, and a header-only start
      arrives. The frame that then comes out is marked header-only and holds the
      earlier frame's payload. */
  method HeaderOnlyAfterAFrame(first: ChunkHeader, payload: seq<Byte>, second: ChunkHeader)
    returns (headerOnly: bool, data: seq<Byte>)
    requires first.cornerBlockSize == 0 && first.totalChunks == 1 && first.totalSize == |payload| < 0x1_0000_0000
    requires second.cornerBlockSize == 0 && second.totalChunks == 0 && second.totalSize == 0
    ensures headerOnly && data == payload
  {
    hide Step, Classify, EncodeStart, EncodeChunk, Stage, Handle;
    var connection, frame := DeliverOne(first, payload);
    NothingStaged(connection);
    connection.pool.Release(frame, 1);
    assert connection.pool.free == [frame] && connection.inFlight == map[];
    assert connection.Now() == State(map[], 0);
    HeaderComesOut(second, payload);
    var out := connection.OnBinary(EncodeStart(second, []), 0);
    headerOnly, data := out.meta.headerOnly, out.data;
  }
}
