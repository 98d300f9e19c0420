/**
 The ChunkReassembler of one connection (src/net/ChunkReassembler.cpp), in
 place over its map of partial frames, proved against the table functions of
 module Reassembly.
 */
module ChunkReassembly {
  import opened Bytes
  import opened DetectionBlock
  import opened FrameBuffers
  import opened Options
  import opened Protocol
  import opened Reassembly

  datatype InFlight = InFlight(
    buf: FrameBuffer, totalChunks: U32, totalSize: U32, received: nat,
    chunks: seq<seq<Byte>>, lastChunk: Time)

  ghost function StagedOf(inf: InFlight): Staged
    reads inf.buf
  {
    Staged(inf.buf.meta, inf.buf.data, inf.totalChunks, inf.totalSize, inf.received, inf.chunks, inf.lastChunk)
  }

  /** The buffer handed to the frame callback, if the outcome delivers one. */
  ghost predicate Hands(out: FrameBuffer?, x: Outcome)
    reads out
  {
    if x.Completed? || x.HeaderOnly? then out != null && out.View() == x.frame else out == null
  }

  lemma PutNew(t: Table, uuid: U32, st: Staged)
    ensures Put(t, uuid, Some(st)) == t[uuid := st]
  {
  }

  lemma PutNone(t: Table, uuid: U32)
    ensures Put(t, uuid, None) == t - {uuid}
  {
  }

  lemma {:induction false} PrefixNotLonger(chunks: seq<seq<Byte>>, i: nat)
    requires i <= |chunks|
    ensures |Flatten(chunks[..i])| <= |Flatten(chunks)|
    decreases |chunks|
  {
    if i < |chunks| {
      PrefixNotLonger(chunks[..|chunks| - 1], i);
      assert chunks[..|chunks| - 1][..i] == chunks[..i];
    } else {
      assert chunks[..i] == chunks;
    }
  }

  lemma CopyStep(base: seq<Byte>, flat: seq<Byte>, src: seq<Byte>)
    requires |flat| + |src| <= |base|
    ensures var b := Overwrite(base, flat);
            b[..|flat|] + src + b[|flat| + |src|..] == Overwrite(base, flat + src)
  {
    assert base[|flat|..][|src|..] == base[|flat + src|..];
    assert (flat + base[|flat|..])[|flat| + |src|..] == base[|flat|..][|src|..];
  }

  lemma FlattenNext(chunks: seq<seq<Byte>>, i: nat)
    requires i < |chunks|
    ensures Flatten(chunks[..i + 1]) == Flatten(chunks[..i]) + chunks[i]
  {
    assert chunks[..i + 1][..i] == chunks[..i];
  }

  lemma NothingCopied(base: seq<Byte>)
    ensures Overwrite(base, []) == base
  {
  }

  class ChunkReassembler {
    const pool: FrameBufferPool
    var inFlight: map<U32, InFlight>
    var lastSweep: Time

    ghost predicate Valid()
      reads this, pool
    {
      && pool.Valid()
      && (forall u | u in inFlight :: inFlight[u].buf !in pool.free && |inFlight[u].chunks| == inFlight[u].totalChunks)
      && (forall u, v | u in inFlight && v in inFlight && u != v :: inFlight[u].buf != inFlight[v].buf)
    }

    ghost function Bufs(): set<FrameBuffer>
      reads this`inFlight
    {
      set u | u in inFlight :: inFlight[u].buf
    }

    /** Every buffer the reassembler or its pool can hand out or change. */
    ghost function Buffers(): set<FrameBuffer>
      reads this`inFlight, pool
    {
      Bufs() + set b | b in pool.free
    }

    ghost function Staging(): Table
      reads this`inFlight, Bufs()
    {
      map u | u in inFlight :: StagedOf(inFlight[u])
    }

    ghost function Now(): State
      reads this, Bufs()
    {
      State(Staging(), lastSweep)
    }

    constructor (pool: FrameBufferPool, now: Time)
      requires pool.Valid()
      ensures Valid() && this.pool == pool && inFlight == map[]
      ensures Now() == State(map[], now)
    {
      this.pool := pool;
      inFlight, lastSweep := map[], now;
    }

    /** A binary WebSocket message: handled, then maybe a sweep. `out` is what
        the frame callback receives. */
    method OnBinary(msg: seq<Byte>, now: Time) returns (out: FrameBuffer?)
      requires Valid()
      modifies this, pool, Bufs(), pool.NextBuffer()
      ensures Valid()
      ensures var r := Step(old(Now()), Event(msg, old(pool.NextContent()), now)); Now() == r.0 && Hands(out, r.1)
      ensures out != null ==> out !in pool.free
      ensures now - old(lastSweep) <= SWEEP_PERIOD ==> |pool.free| <= |old(pool.free)|
      ensures fresh(Buffers() - old(Buffers()))
      ensures out != null ==> fresh(out) || out in old(Buffers())
    {
      hide Handle, Sweep, Flatten, StagedOf, Classify, Get32, Valid;
      ghost var ev := Event(msg, pool.NextContent(), now);
      HandleRejects(Staging(), ev);
      out := null;
      if |msg| < 8 {
        return;
      }
      var magic := Get32(msg, 0);
      if magic == CHUNK_START_MAGIC {
        out := HandleStart(msg, now);
      } else if magic == CHUNK_DATA_MAGIC {
        out := HandleChunk(msg, now);
      }
      assert Staging() == Handle(old(Staging()), ev).0;
      PeriodicSweep(now);
    }

    method PeriodicSweep(now: Time)
      requires Valid()
      modifies this, pool
      ensures Valid()
      ensures Now() == if now - old(lastSweep) > SWEEP_PERIOD then State(Sweep(old(Staging()), now), now)
              else old(Now())
      ensures now - old(lastSweep) <= SWEEP_PERIOD ==> pool.free == old(pool.free)
      ensures forall b | b in pool.free :: b in old(pool.free) || b in old(Bufs())
      ensures Buffers() <= old(Buffers())
    {
      if now - lastSweep > SWEEP_PERIOD {
        ghost var t := Staging();
        lastSweep := now;
        assert Staging() == t;
        SweepStale(now);
      }
    }

    method HandleStart(msg: seq<Byte>, now: Time) returns (out: FrameBuffer?)
      requires Valid()
      requires |msg| >= 8 && Get32(msg, 0) == CHUNK_START_MAGIC
      modifies this`inFlight, pool, pool.NextBuffer()
      ensures Valid() && lastSweep == old(lastSweep) && |pool.free| <= |old(pool.free)|
      ensures out != null ==> out !in pool.free && out !in Bufs()
      ensures fresh(Buffers() - old(Buffers()))
      ensures out != null ==> fresh(out) || out in old(Buffers())
      ensures var r := Handle(old(Staging()), Event(msg, old(pool.NextContent()), now));
              Staging() == r.0 && Hands(out, r.1)
    {
      ghost var ev := Event(msg, pool.NextContent(), now);
      HandleRejects(Staging(), ev);
      hide HandleOne, Put, StagedOf, Get32;
      out := null;
      if |msg| < CHUNK_START_MIN_SIZE || Get32(msg, 4) != CHUNK_VERSION {
        return;
      }
      var hdr := HeaderAt(msg, 8);
      if |msg| != CHUNK_START_MIN_SIZE + hdr.cornerBlockSize {
        return;
      }
      var block := msg[CHUNK_START_MIN_SIZE..];
      assert Classify(msg) == Start(hdr, block);
      hide Classify, HeaderAt;
      ghost var t, recycled := Staging(), pool.NextContent();
      var meta := ReadMeta(hdr, block);
      hide MetaOf;
      assert Valid() && Staging() == t && pool.NextContent() == recycled;
      out := Admit(hdr, block, meta, now);
    }

    /** The metadata shared by both delivery paths, detections parsed. */
    static method ReadMeta(hdr: ChunkHeader, block: seq<Byte>) returns (meta: FrameMeta)
      ensures meta == MetaOf(hdr, block)
    {
      var cornerSets, arucoMarkers := [], [];
      if hdr.detectionKind == DETECTION_CHECKERBOARD {
        cornerSets := ParseCornerBlock(block, hdr.numCornerSets);
      } else if hdr.detectionKind == DETECTION_ARUCO {
        arucoMarkers := ParseMarkerBlock(block, hdr.numCornerSets);
      }
      meta := FrameMeta(
        hdr.frameId, hdr.cameraId, hdr.width, hdr.height, hdr.bytesPerLine, hdr.pixelFormat,
        hdr.frameKind, hdr.captureId, hdr.detectionKind, hdr.framesSaved, hdr.timestampUs,
        hdr.frameDurationUs, hdr.lensPosition, hdr.afState, hdr.focusFom,
        cornerSets, arucoMarkers, hdr.totalChunks == 0 && hdr.totalSize == 0);
    }

    /** A buffer from the pool, its metadata set; its bytes are whatever it
        held before. */
    method Filled(meta: FrameMeta) returns (buf: FrameBuffer)
      requires Valid()
      modifies pool, pool.NextBuffer()
      ensures Valid() && buf !in pool.free && buf !in Bufs() && |pool.free| <= |old(pool.free)|
      ensures fresh(Buffers() - old(Buffers()))
      ensures fresh(buf) || buf in old(Buffers())
      ensures Staging() == old(Staging())
      ensures buf.meta == meta && buf.data == old(pool.NextContent())
    {
      hide StagedOf;
      buf := pool.Acquire(0);
      buf.meta := meta;
    }

    method Emplace(uuid: U32, inf: InFlight)
      requires Valid() && uuid !in inFlight
      requires inf.buf !in pool.free && inf.buf !in Bufs() && |inf.chunks| == inf.totalChunks
      modifies this`inFlight
      ensures Valid()
      ensures Staging() == old(Staging())[uuid := StagedOf(inf)]
      ensures Buffers() <= old(Buffers()) + {inf.buf}
    {
      hide StagedOf;
      ghost var before := inFlight;
      assert forall u | u in before :: before[u].buf in Bufs();
      inFlight := inFlight[uuid := inf];
      assert Staging() == old(Staging())[uuid := StagedOf(inf)] by {
        hide Valid;
      }
      hide Staging;
    }

    /** A well-formed start: delivered at once if header-only, else staged. */
    method Admit(hdr: ChunkHeader, ghost block: seq<Byte>, meta: FrameMeta, now: Time) returns (out: FrameBuffer?)
      requires Valid() && meta == MetaOf(hdr, block)
      modifies this`inFlight, pool, pool.NextBuffer()
      ensures Valid() && lastSweep == old(lastSweep) && |pool.free| <= |old(pool.free)|
      ensures out != null ==> out !in pool.free && out !in Bufs()
      ensures fresh(Buffers() - old(Buffers()))
      ensures out != null ==> fresh(out) || out in old(Buffers())
      ensures var recycled := old(pool.NextContent());
              var r := HandleOne(Lookup(old(Staging()), hdr.frameUuid), Start(hdr, block), recycled, now);
              Staging() == Put(old(Staging()), hdr.frameUuid, r.0) && Hands(out, r.1)
    {
      ghost var t, recycled := Staging(), pool.NextContent();
      ghost var r := HandleOne(Lookup(t, hdr.frameUuid), Start(hdr, block), recycled, now);
      PutBack(t, hdr.frameUuid);
      out := null;
      var buf := Filled(meta);
      assert Staging() == t && (hdr.frameUuid in t <==> hdr.frameUuid in inFlight);
      hide MetaOf, Put, Staging, Valid;
      if hdr.totalChunks == 0 && hdr.totalSize == 0 {
        out := buf;
        assert r == (Lookup(t, hdr.frameUuid), HeaderOnly(hdr.frameUuid, buf.View()));
      } else if hdr.frameUuid !in inFlight {
        var inf := InFlight(buf, hdr.totalChunks, hdr.totalSize, 0, seq(hdr.totalChunks, _ => []), now);
        assert r == (Some(StagedOf(inf)), Opened(hdr.frameUuid));
        PutNew(t, hdr.frameUuid, StagedOf(inf));
        Emplace(hdr.frameUuid, inf);
      } else {
        assert r == (Lookup(t, hdr.frameUuid), Repeated(hdr.frameUuid));
      }
    }

    method HandleChunk(msg: seq<Byte>, now: Time) returns (out: FrameBuffer?)
      requires Valid()
      requires |msg| >= 8 && Get32(msg, 0) == CHUNK_DATA_MAGIC
      modifies this`inFlight, Bufs()
      ensures Valid() && lastSweep == old(lastSweep)
      ensures out != null ==> out !in pool.free && out !in Bufs()
      ensures Buffers() <= old(Buffers())
      ensures out != null ==> out in old(Buffers())
      ensures var r := Handle(old(Staging()), Event(msg, old(pool.NextContent()), now));
              Staging() == r.0 && Hands(out, r.1)
    {
      ghost var ev := Event(msg, pool.NextContent(), now);
      HandleRejects(Staging(), ev);
      hide HandleOne, Put, StagedOf, Get32;
      out := null;
      if |msg| < CHUNK_DATA_HEADER_SIZE || |msg| != CHUNK_DATA_HEADER_SIZE + Get32(msg, 12) {
        return;
      }
      var uuid, index, bytes := Get32(msg, 4), Get32(msg, 8), msg[CHUNK_DATA_HEADER_SIZE..];
      assert Classify(msg) == Chunk(uuid, index, bytes);
      hide Classify;
      out := Accept(uuid, index, bytes, now);
    }

    /** A well-formed chunk: stored, and assembled if it is the last. */
    method Accept(uuid: U32, index: U32, bytes: seq<Byte>, now: Time) returns (out: FrameBuffer?)
      requires Valid()
      modifies this`inFlight, Bufs()
      ensures Valid() && lastSweep == old(lastSweep)
      ensures out != null ==> out !in pool.free && out !in Bufs()
      ensures Buffers() <= old(Buffers())
      ensures out != null ==> out in old(Buffers())
      ensures var r := HandleOne(Lookup(old(Staging()), uuid), Chunk(uuid, index, bytes), old(pool.NextContent()), now);
              Staging() == Put(old(Staging()), uuid, r.0) && Hands(out, r.1)
    {
      hide Flatten, Put;
      ghost var t := Staging();
      PutBack(t, uuid);
      out := null;
      if uuid !in inFlight {
        return;
      }
      var inf := inFlight[uuid];
      if index >= inf.totalChunks || inf.chunks[index] != [] {
        return;
      }
      inf := inf.(chunks := inf.chunks[index := bytes], received := inf.received + 1, lastChunk := now);
      assert StagedOf(inf) == StoreChunk(StagedOf(inFlight[uuid]), index, bytes, now);
      if inf.received == inf.totalChunks {
        var ok := Assembled(inf);
        inFlight := inFlight - {uuid};
        if ok {
          out := inf.buf;
        }
        PutNone(t, uuid);
        assert Staging() == t - {uuid};
      } else {
        inFlight := inFlight[uuid := inf];
        PutNew(t, uuid, StagedOf(inf));
        assert Staging() == t[uuid := StagedOf(inf)];
      }
    }

    /** Concatenates the chunks into the frame's buffer, unless they overflow
        the announced size. */
    static method Assembled(inf: InFlight) returns (ok: bool)
      requires |inf.chunks| == inf.totalChunks
      modifies inf.buf
      ensures ok <==> |Flatten(inf.chunks)| <= inf.totalSize
      ensures ok ==> inf.buf.data == Overwrite(Resize(old(inf.buf.data), inf.totalSize), Flatten(inf.chunks))
      ensures inf.buf.meta == old(inf.buf.meta)
    {
      var buf := inf.buf;
      buf.data := Resize(buf.data, inf.totalSize);
      ghost var base := buf.data;
      NothingCopied(base);
      assert Flatten(inf.chunks[..0]) == [];
      hide Overwrite, Resize, Flatten;
      var offset := 0;
      for i := 0 to inf.totalChunks
        invariant offset == |Flatten(inf.chunks[..i])| <= |base| == inf.totalSize
        invariant buf.data == Overwrite(base, Flatten(inf.chunks[..i]))
        invariant buf.meta == old(inf.buf.meta)
      {
        var src := inf.chunks[i];
        FlattenNext(inf.chunks, i);
        PrefixNotLonger(inf.chunks, i + 1);
        if offset + |src| > |buf.data| {
          return false;
        }
        CopyStep(base, Flatten(inf.chunks[..i]), src);
        buf.data := buf.data[..offset] + src + buf.data[offset + |src|..];
        offset := offset + |src|;
      }
      assert inf.chunks[..inf.totalChunks] == inf.chunks;
      ok := true;
    }

    /** Drops entries that received nothing for the timeout; their buffers go
        back to the pool. */
    method SweepStale(now: Time)
      requires Valid()
      modifies this`inFlight, pool
      ensures Valid()
      ensures Staging() == Sweep(old(Staging()), now)
      ensures forall b | b in pool.free :: b in old(pool.free) || b in old(Bufs())
      ensures Buffers() <= old(Buffers())
    {
      hide Valid;
      var todo := inFlight.Keys;
      while todo != {}
        invariant Valid() && todo <= inFlight.Keys <= old(inFlight).Keys
        invariant forall u | u in inFlight :: inFlight[u] == old(inFlight)[u]
        invariant forall b | b in pool.free :: b in old(pool.free) || b in old(Bufs())
        invariant forall u | u in old(inFlight) && u !in todo ::
                    u in inFlight <==> now - old(inFlight)[u].lastChunk <= STALE_AFTER
        decreases todo
      {
        var u :| u in todo;
        todo := todo - {u};
        var inf := inFlight[u];
        if now - inf.lastChunk > STALE_AFTER {
          Drop(u);
        }
      }
    }

    /** An entry leaves the map and its buffer returns to the pool. */
    method Drop(u: U32)
      requires Valid() && u in inFlight
      modifies this`inFlight, pool
      ensures Valid() && inFlight == old(inFlight) - {u}
      ensures forall b | b in pool.free :: b in old(pool.free) || b == old(inFlight)[u].buf
    {
      var buf := inFlight[u].buf;
      inFlight := inFlight - {u};
      pool.Release(buf, 1);
    }

    /** Wipes every entry, for instance on disconnect. */
    method Reset()
      requires Valid()
      modifies this`inFlight, pool
      ensures Valid() && Staging() == map[]
    {
      var todo := inFlight.Keys;
      while todo != {}
        invariant pool.Valid() && todo <= inFlight.Keys
        invariant forall u | u in todo :: inFlight[u].buf !in pool.free
        invariant forall u, v | u in inFlight && v in inFlight && u != v :: inFlight[u].buf != inFlight[v].buf
        decreases todo
      {
        var u :| u in todo;
        todo := todo - {u};
        pool.Release(inFlight[u].buf, 1);
      }
      inFlight := map[];
    }
  }
}
