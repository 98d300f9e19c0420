/**
 What a ChunkReassembler does, as a function of its table of staged frames:
 each binary message is handled against the entry of the one frame it names,
 and stale entries are swept now and then.
 */
module Reassembly {
  import opened Bytes
  import opened DetectionBlock
  import opened Options
  import opened Protocol

  /** A steady-clock reading, in milliseconds. */
  type Time = int

  const SWEEP_PERIOD: Time := 1000
  const STALE_AFTER: Time := 5000

  /** Everything about a frame but its pixels. */
  datatype FrameMeta = FrameMeta(
    frameId: U32, cameraId: U32, width: U32, height: U32, bytesPerLine: U32, pixelFormat: U32,
    frameKind: Byte, captureId: U16, detectionKind: Byte, framesSaved: U32, timestampUs: U64,
    frameDurationUs: U32, lensPosition: Float32, afState: Byte, focusFom: I32,
    cornerSets: seq<CornerSet>, arucoMarkers: seq<ArucoMarker>, headerOnly: bool)

  datatype Frame = Frame(meta: FrameMeta, data: seq<Byte>)

  function MetaOf(h: ChunkHeader, block: seq<Byte>): FrameMeta {
    FrameMeta(
      h.frameId, h.cameraId, h.width, h.height, h.bytesPerLine, h.pixelFormat,
      h.frameKind, h.captureId, h.detectionKind, h.framesSaved, h.timestampUs,
      h.frameDurationUs, h.lensPosition, h.afState, h.focusFom,
      if h.detectionKind == DETECTION_CHECKERBOARD then CornerSetsIn(block, h.numCornerSets) else [],
      if h.detectionKind == DETECTION_ARUCO then MarkersIn(block, h.numCornerSets) else [],
      h.totalChunks == 0 && h.totalSize == 0)
  }

  /** One frame in flight. `stale` is what its recycled buffer still holds. */
  datatype Staged = Staged(
    meta: FrameMeta, stale: seq<Byte>, totalChunks: U32, totalSize: U32,
    received: nat, chunks: seq<seq<Byte>>, lastChunk: Time)

  type Table = map<U32, Staged>

  /** A message, the content of the buffer the pool would hand out for it, and
      when it arrives. */
  datatype Event = Event(msg: seq<Byte>, recycled: seq<Byte>, now: Time)

  /** What a message did: to the frame `uuid`, or to none. */
  datatype Outcome =
    | Rejected
    | HeaderOnly(uuid: U32, frame: Frame)
    | Opened(uuid: U32)
    | Repeated(uuid: U32)
    | Stored(uuid: U32)
    | Completed(uuid: U32, frame: Frame)
    | Overflowed(uuid: U32)

  function Flatten(chunks: seq<seq<Byte>>): seq<Byte> {
    if chunks == [] then [] else Flatten(chunks[..|chunks| - 1]) + chunks[|chunks| - 1]
  }

  /** std::vector::resize, then a copy to the front. */
  function Resize(b: seq<Byte>, n: nat): (r: seq<Byte>)
    ensures |r| == n
  {
    if n <= |b| then b[..n] else b + seq(n - |b|, _ => 0 as Byte)
  }

  function Overwrite(dst: seq<Byte>, src: seq<Byte>): (r: seq<Byte>)
    requires |src| <= |dst|
    ensures |r| == |dst|
  {
    src + dst[|src|..]
  }

  function Stage(h: ChunkHeader, block: seq<Byte>, recycled: seq<Byte>, now: Time): Staged {
    Staged(MetaOf(h, block), recycled, h.totalChunks, h.totalSize, 0, seq(h.totalChunks, _ => []), now)
  }

  /** Assembly of a frame whose last chunk has arrived. */
  function Assemble(uuid: U32, st: Staged): Outcome {
    var flat := Flatten(st.chunks);
    if |flat| > st.totalSize then Overflowed(uuid)
    else Completed(uuid, Frame(st.meta, Overwrite(Resize(st.stale, st.totalSize), flat)))
  }

  function StoreChunk(st: Staged, index: U32, bytes: seq<Byte>, now: Time): Staged
    requires index < |st.chunks|
  {
    st.(chunks := st.chunks[index := bytes], received := st.received + 1, lastChunk := now)
  }

  /** A CHUN or CHNK message against the entry of the frame it names. */
  function HandleOne(o: Option<Staged>, m: Incoming, recycled: seq<Byte>, now: Time): (Option<Staged>, Outcome)
    requires m.Start? || m.Chunk?
  {
    match m
    case Start(h, block) =>
      if h.totalChunks == 0 && h.totalSize == 0 then (o, HeaderOnly(h.frameUuid, Frame(MetaOf(h, block), recycled)))
      else if o.Some? then (o, Repeated(h.frameUuid))
      else (Some(Stage(h, block, recycled, now)), Opened(h.frameUuid))
    case Chunk(uuid, index, bytes) =>
      if o.None? || index >= o.value.totalChunks || index >= |o.value.chunks| || o.value.chunks[index] != []
        then (o, Rejected)
      else
        var st := StoreChunk(o.value, index, bytes, now);
        if st.received == st.totalChunks then (None, Assemble(uuid, st)) else (Some(st), Stored(uuid))
  }

  predicate Concerns(m: Incoming, uuid: U32) {
    (m.Start? && m.hdr.frameUuid == uuid) || (m.Chunk? && m.uuid == uuid)
  }

  function UuidOf(m: Incoming): U32
    requires m.Start? || m.Chunk?
  {
    if m.Start? then m.hdr.frameUuid else m.uuid
  }

  function Lookup(t: Table, uuid: U32): Option<Staged> {
    if uuid in t then Some(t[uuid]) else None
  }

  function Put(t: Table, uuid: U32, o: Option<Staged>): Table {
    if o.Some? then t[uuid := o.value] else t - {uuid}
  }

  /** One message, before any sweep. */
  function Handle(t: Table, ev: Event): (Table, Outcome) {
    var m := Classify(ev.msg);
    if m.Start? || m.Chunk? then
      var uuid := UuidOf(m);
      var r := HandleOne(Lookup(t, uuid), m, ev.recycled, ev.now);
      (Put(t, uuid, r.0), r.1)
    else (t, Rejected)
  }

  lemma PutBack(t: Table, uuid: U32)
    ensures Put(t, uuid, Lookup(t, uuid)) == t
  {
  }

  lemma HandleRejects(t: Table, ev: Event)
    ensures |ev.msg| < 8 <==> Classify(ev.msg).Short?
    ensures |ev.msg| >= 8 && Get32(ev.msg, 0) != CHUNK_START_MAGIC && Get32(ev.msg, 0) != CHUNK_DATA_MAGIC ==>
            Classify(ev.msg).Bad?
    ensures Classify(ev.msg).Short? || Classify(ev.msg).Bad? ==> Handle(t, ev) == (t, Rejected)
  {
  }

  predicate IsStale(st: Staged, now: Time) {
    now - st.lastChunk > STALE_AFTER
  }

  function Sweep(t: Table, now: Time): Table {
    map u | u in t && !IsStale(t[u], now) :: t[u]
  }

  datatype State = State(table: Table, lastSweep: Time)

  predicate SweepDue(s: State, ev: Event) {
    !Classify(ev.msg).Short? && ev.now - s.lastSweep > SWEEP_PERIOD
  }

  /** onBinary: handle the message, then sweep if a second has passed. */
  function Step(s: State, ev: Event): (State, Outcome) {
    var r := Handle(s.table, ev);
    if SweepDue(s, ev) then (State(Sweep(r.0, ev.now), ev.now), r.1) else (State(r.0, s.lastSweep), r.1)
  }

  // ---- Runs ----

  function RunTable(t: Table, evs: seq<Event>): Table
    decreases |evs|
  {
    if evs == [] then t else RunTable(Handle(t, evs[0]).0, evs[1..])
  }

  function RunLog(t: Table, evs: seq<Event>): (log: seq<Outcome>)
    ensures |log| == |evs|
    decreases |evs|
  {
    if evs == [] then [] else [Handle(t, evs[0]).1] + RunLog(Handle(t, evs[0]).0, evs[1..])
  }

  /** The outcomes that are about frame `uuid`. */
  function About(log: seq<Outcome>, uuid: U32): seq<Outcome> {
    if log == [] then []
    else if !log[0].Rejected? && log[0].uuid == uuid then [log[0]] + About(log[1..], uuid)
    else About(log[1..], uuid)
  }

  /** The frames handed to the callback under `uuid`, in order. */
  function Delivered(log: seq<Outcome>, uuid: U32): seq<Frame> {
    if log == [] then []
    else if (log[0].Completed? || log[0].HeaderOnly?) && log[0].uuid == uuid
      then [log[0].frame] + Delivered(log[1..], uuid)
    else Delivered(log[1..], uuid)
  }

  function Project(evs: seq<Event>, uuid: U32): seq<Event> {
    if evs == [] then []
    else if Concerns(Classify(evs[0].msg), uuid) then [evs[0]] + Project(evs[1..], uuid)
    else Project(evs[1..], uuid)
  }

  function FullState(s: State, evs: seq<Event>): State
    decreases |evs|
  {
    if evs == [] then s else FullState(Step(s, evs[0]).0, evs[1..])
  }

  function FullLog(s: State, evs: seq<Event>): (log: seq<Outcome>)
    ensures |log| == |evs|
    decreases |evs|
  {
    if evs == [] then [] else [Step(s, evs[0]).1] + FullLog(Step(s, evs[0]).0, evs[1..])
  }

  // ---- The life of a single frame ----

  function StepOne(o: Option<Staged>, ev: Event, uuid: U32): (Option<Staged>, Outcome) {
    var m := Classify(ev.msg);
    if Concerns(m, uuid) then HandleOne(o, m, ev.recycled, ev.now) else (o, Rejected)
  }

  function OneEntry(o: Option<Staged>, evs: seq<Event>, uuid: U32): Option<Staged>
    decreases |evs|
  {
    if evs == [] then o else OneEntry(StepOne(o, evs[0], uuid).0, evs[1..], uuid)
  }

  function OneLog(o: Option<Staged>, evs: seq<Event>, uuid: U32): (log: seq<Outcome>)
    ensures |log| == |evs|
    decreases |evs|
  {
    if evs == [] then [] else [StepOne(o, evs[0], uuid).1] + OneLog(StepOne(o, evs[0], uuid).0, evs[1..], uuid)
  }

  lemma HandleView(t: Table, ev: Event, uuid: U32)
    ensures var r, q := Handle(t, ev), StepOne(Lookup(t, uuid), ev, uuid);
            && Lookup(r.0, uuid) == q.0
            && (Concerns(Classify(ev.msg), uuid) ==> r.1 == q.1)
            && (!Concerns(Classify(ev.msg), uuid) ==> q.1.Rejected? && (r.1.Rejected? || r.1.uuid != uuid))
  {
  }
}
