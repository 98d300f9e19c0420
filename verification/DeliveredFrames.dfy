/**
 What a delivered frame consists of, in terms of the messages it came in: its
 metadata field by field, its detections, and its bytes
 (src/net/ChunkReassembler.cpp:172-229 and 268-288).
 */
module DeliveredFrames {
  import opened Bytes
  import opened DetectionBlock
  import opened FrameAssembly
  import opened Options
  import opened Protocol
  import opened Reassembly

  // ---- Metadata ----

  /** Each field of the metadata is the header's field of that name. */
  ghost predicate CarriesHeader(m: FrameMeta, h: ChunkHeader) {
    && m.frameId == h.frameId && m.cameraId == h.cameraId
    && m.width == h.width && m.height == h.height
    && m.bytesPerLine == h.bytesPerLine && m.pixelFormat == h.pixelFormat
    && m.frameKind == h.frameKind && m.captureId == h.captureId
    && m.detectionKind == h.detectionKind && m.framesSaved == h.framesSaved
    && m.timestampUs == h.timestampUs && m.frameDurationUs == h.frameDurationUs
    && m.lensPosition == h.lensPosition && m.afState == h.afState && m.focusFom == h.focusFom
    && m.headerOnly == (h.totalChunks == 0 && h.totalSize == 0)
  }

  /** The metadata shows the detections that were encoded: corner sets for
      detection kind 1, markers for kind 2, and nothing of any other kind. */
  ghost predicate ShowsDetections(m: FrameMeta, h: ChunkHeader, block: seq<Byte>) {
    && (h.detectionKind != 1 ==> m.cornerSets == [])
    && (h.detectionKind != 2 ==> m.arucoMarkers == [])
    && (h.detectionKind == 1 ==>
          forall sets | IsBlockOfCornerSets(block, sets) && |sets| == h.numCornerSets :: m.cornerSets == sets)
    && (h.detectionKind == 2 ==>
          forall ms | IsBlockOfMarkers(block, ms) && |ms| == h.numCornerSets :: m.arucoMarkers == ms)
  }

  ghost predicate IsBlockOfCornerSets(block: seq<Byte>, sets: seq<CornerSet>) {
    && (forall i | 0 <= i < |sets| :: |sets[i].corners| < 0x1_0000)
    && block == EncodeRecords(CORNER_HEAD, CornerRecords(sets))
  }

  ghost predicate IsBlockOfMarkers(block: seq<Byte>, ms: seq<ArucoMarker>) {
    && (forall i | 0 <= i < |ms| :: |ms[i].corners| < 0x1_0000)
    && block == EncodeRecords(MARKER_HEAD, MarkerRecords(ms))
  }

  /** The metadata both delivery paths share describes the start message. */
  lemma MetaDescribes(h: ChunkHeader, block: seq<Byte>)
    ensures CarriesHeader(MetaOf(h, block), h) && ShowsDetections(MetaOf(h, block), h, block)
  {
    forall sets | IsBlockOfCornerSets(block, sets) && |sets| == h.numCornerSets
      ensures CornerSetsIn(block, h.numCornerSets) == sets
    {
      CornerSetsRoundTrip(sets, []);
      assert block + [] == block;
    }
    forall ms | IsBlockOfMarkers(block, ms) && |ms| == h.numCornerSets
      ensures MarkersIn(block, h.numCornerSets) == ms
    {
      MarkersRoundTrip(ms, []);
      assert block + [] == block;
    }
    hide IsBlockOfCornerSets, IsBlockOfMarkers, CornerSetsIn, MarkersIn;
  }

  /** A header-only start message, as it is on the wire, delivers at once a frame
      that carries its header and detections. */
  lemma HeaderOnlyDelivered(s: State, h: ChunkHeader, block: seq<Byte>, recycled: seq<Byte>, now: Time)
    requires |block| == h.cornerBlockSize && h.totalChunks == 0 && h.totalSize == 0
    ensures var x := Step(s, Event(EncodeStart(h, block), recycled, now)).1;
            && x.HeaderOnly? && x.uuid == h.frameUuid
            && CarriesHeader(x.frame.meta, h) && ShowsDetections(x.frame.meta, h, block) && x.frame.data == recycled
  {
    StartRoundTrip(h, block);
    MetaDescribes(h, block);
    hide Classify, MetaOf, CarriesHeader, ShowsDetections;
  }

  // ---- What a start message does ----

  /** Which starts are delivered at once, staged, or ignored. */
  lemma StartOutcome(s: State, h: ChunkHeader, block: seq<Byte>, recycled: seq<Byte>, now: Time)
    requires |block| == h.cornerBlockSize
    ensures var x := Step(s, Event(EncodeStart(h, block), recycled, now)).1;
            && !x.Rejected? && x.uuid == h.frameUuid
            && (x.HeaderOnly? <==> h.totalChunks == 0 && h.totalSize == 0)
            && (x.Repeated? <==> (h.totalChunks != 0 || h.totalSize != 0) && h.frameUuid in s.table)
            && (x.Opened? <==> (h.totalChunks != 0 || h.totalSize != 0) && h.frameUuid !in s.table)
  {
    StartRoundTrip(h, block);
    hide Classify, MetaOf, Sweep, EncodeStart;
  }

  // ---- Payload ----

  /** Where a payload is cut: ascending offsets from its start to its end. */
  ghost predicate IsCut(cuts: seq<nat>, size: nat) {
    && |cuts| >= 2 && cuts[0] == 0 && cuts[|cuts| - 1] == size
    && forall i, j | 0 <= i <= j < |cuts| :: cuts[i] <= cuts[j]
  }

  function Piece(payload: seq<Byte>, cuts: seq<nat>, i: nat): seq<Byte>
    requires i + 1 < |cuts| && cuts[i] <= cuts[i + 1] <= |payload|
  {
    payload[cuts[i]..cuts[i + 1]]
  }

  function Pieces(payload: seq<Byte>, cuts: seq<nat>): (pieces: seq<seq<Byte>>)
    requires IsCut(cuts, |payload|)
    ensures |pieces| == |cuts| - 1
  {
    seq(|cuts| - 1, i requires 0 <= i < |cuts| - 1 => Piece(payload, cuts, i))
  }

  lemma {:induction false} PiecesJoin(payload: seq<Byte>, cuts: seq<nat>, n: nat)
    requires IsCut(cuts, |payload|) && n < |cuts|
    ensures cuts[n] <= |payload| && Flatten(Pieces(payload, cuts)[..n]) == payload[..cuts[n]]
    decreases n
  {
    assert cuts[n] <= cuts[|cuts| - 1];
    var pieces := Pieces(payload, cuts);
    if n > 0 {
      PiecesJoin(payload, cuts, n - 1);
      assert pieces[..n][..n - 1] == pieces[..n - 1];
      assert payload[..cuts[n]] == payload[..cuts[n - 1]] + Piece(payload, cuts, n - 1);
    }
  }

  /** The pieces of a payload, put together in index order, are the payload. */
  lemma PiecesAreThePayload(payload: seq<Byte>, cuts: seq<nat>)
    requires IsCut(cuts, |payload|)
    ensures Flatten(Pieces(payload, cuts)) == payload
  {
    PiecesJoin(payload, cuts, |cuts| - 1);
    assert Pieces(payload, cuts)[..|cuts| - 1] == Pieces(payload, cuts);
    assert payload[..|payload|] == payload;
  }

  /** The reassembly theorem in the sender's terms. A start message as it is on
      the wire, then any stream in which every chunk of the frame carries its
      piece of the payload: in any order and multiplicity, among malformed
      messages and other frames' traffic. Once every piece has arrived, and not
      before, exactly one frame has come out under this uuid; its bytes are the
      payload, and it carries the header and the detections of the start. */
  lemma PayloadDeliveredOnce(
    t: Table, recycled: seq<Byte>, now: Time, evs: seq<Event>,
    h: ChunkHeader, block: seq<Byte>, payload: seq<Byte>, cuts: seq<nat>)
    requires |block| == h.cornerBlockSize && h.frameUuid !in t
    requires IsCut(cuts, |payload|) && h.totalChunks == |cuts| - 1 && h.totalSize == |payload|
    requires Solid(Pieces(payload, cuts)) && Feeds(evs, h.frameUuid, Pieces(payload, cuts), {})
    ensures var frames := Delivered(RunLog(t, [Event(EncodeStart(h, block), recycled, now)] + evs), h.frameUuid);
            if AllArrived(Arrived(evs, h.frameUuid, h.totalChunks), h.totalChunks) then
              && |frames| == 1 && frames[0].data == payload
              && CarriesHeader(frames[0].meta, h) && ShowsDetections(frames[0].meta, h, block)
            else frames == []
  {
    StartRoundTrip(h, block);
    PiecesAreThePayload(payload, cuts);
    MetaDescribes(h, block);
    hide *;
    DeliveredOnceWhole(t, Event(EncodeStart(h, block), recycled, now), evs, h, block, Pieces(payload, cuts));
  }

  /** A frame whose chunks fall short of the announced size: its bytes are the
      chunks in order, then what its recycled buffer held there, or zeros. */
  lemma ShortFrameBytes(uuid: U32, st: Staged, i: nat)
    requires |Flatten(st.chunks)| <= st.totalSize && i < st.totalSize
    ensures var x := Assemble(uuid, st);
            && x.Completed? && |x.frame.data| == st.totalSize
            && x.frame.data[i] == if i < |Flatten(st.chunks)| then Flatten(st.chunks)[i]
                                  else if i < |st.stale| then st.stale[i] else 0
  {
    hide Flatten;
  }

  // ---- What the logs and the projection keep ----

  /** An outcome is about a frame when it names it; a frame delivered under a
      uuid is one an outcome hands out; a message concerns a frame when it is a
      start or a chunk of it. Each is kept, in order, and nothing else. */
  lemma {:induction false} KeptInOrder(log: seq<Outcome>, x: Outcome, uuid: U32)
    ensures About(log + [x], uuid) == About(log, uuid) + if !x.Rejected? && x.uuid == uuid then [x] else []
    ensures Delivered(log + [x], uuid)
            == Delivered(log, uuid) + if (x.Completed? || x.HeaderOnly?) && x.uuid == uuid then [x.frame] else []
    decreases |log|
  {
    if log == [] {
      assert log + [x] == [x];
      LogCons(x, [], uuid);
    } else {
      assert log + [x] == [log[0]] + (log[1..] + [x]);
      LogCons(log[0], log[1..] + [x], uuid);
      assert log == [log[0]] + log[1..];
      LogCons(log[0], log[1..], uuid);
      KeptInOrder(log[1..], x, uuid);
      hide About, Delivered;
    }
  }

  lemma {:induction false} ProjectionKeeps(evs: seq<Event>, e: Event, uuid: U32)
    ensures var m := Classify(e.msg);
            Project(evs + [e], uuid)
            == Project(evs, uuid)
               + if (m.Start? && m.hdr.frameUuid == uuid) || (m.Chunk? && m.uuid == uuid) then [e] else []
  {
    hide Classify;
    if evs == [] {
      assert evs + [e] == [e] && [e][1..] == [];
    } else {
      assert (evs + [e])[1..] == evs[1..] + [e];
      ProjectionKeeps(evs[1..], e, uuid);
    }
  }
}
