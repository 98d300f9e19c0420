/**
 Theorems about whole message streams of a ChunkReassembler: frames do not
 interfere, chunk order does not matter, the sweep only takes frames that have
 stopped arriving, and no accepted frame is lost without account.
 */
module FrameAssembly {
  import opened Bytes
  import opened Options
  import opened Protocol
  import opened Reassembly

  lemma LogCons(x: Outcome, log: seq<Outcome>, uuid: U32)
    ensures About([x] + log, uuid) == About([x], uuid) + About(log, uuid)
    ensures Delivered([x] + log, uuid) == Delivered([x], uuid) + Delivered(log, uuid)
    ensures About([x], uuid) == if !x.Rejected? && x.uuid == uuid then [x] else []
    ensures Delivered([x], uuid) == if (x.Completed? || x.HeaderOnly?) && x.uuid == uuid then [x.frame] else []
  {
    assert ([x] + log)[1..] == log;
    assert [x][1..] == [];
  }

  // ---- Frames do not interfere ----

  lemma {:induction false} ViewOfRun(t: Table, evs: seq<Event>, uuid: U32)
    ensures Lookup(RunTable(t, evs), uuid) == OneEntry(Lookup(t, uuid), evs, uuid)
    ensures About(RunLog(t, evs), uuid) == About(OneLog(Lookup(t, uuid), evs, uuid), uuid)
    ensures Delivered(RunLog(t, evs), uuid) == Delivered(OneLog(Lookup(t, uuid), evs, uuid), uuid)
    decreases |evs|
  {
    if evs != [] {
      HandleView(t, evs[0], uuid);
      hide Handle, StepOne;
      var t', o' := Handle(t, evs[0]).0, StepOne(Lookup(t, uuid), evs[0], uuid).0;
      ViewOfRun(t', evs[1..], uuid);
      LogCons(Handle(t, evs[0]).1, RunLog(t', evs[1..]), uuid);
      LogCons(StepOne(Lookup(t, uuid), evs[0], uuid).1, OneLog(o', evs[1..], uuid), uuid);
    }
  }

  lemma OneCons(o: Option<Staged>, e: Event, evs: seq<Event>, uuid: U32)
    ensures var r := StepOne(o, e, uuid);
            && OneEntry(o, [e] + evs, uuid) == OneEntry(r.0, evs, uuid)
            && OneLog(o, [e] + evs, uuid) == [r.1] + OneLog(r.0, evs, uuid)
  {
    hide StepOne;
    assert ([e] + evs)[1..] == evs;
  }

  lemma {:induction false} ProjectView(o: Option<Staged>, evs: seq<Event>, uuid: U32)
    ensures OneEntry(o, Project(evs, uuid), uuid) == OneEntry(o, evs, uuid)
    ensures About(OneLog(o, Project(evs, uuid), uuid), uuid) == About(OneLog(o, evs, uuid), uuid)
    decreases |evs|
  {
    hide Classify;
    if evs != [] {
      var r := StepOne(o, evs[0], uuid);
      ProjectView(r.0, evs[1..], uuid);
      var rest := Project(evs[1..], uuid);
      LogCons(r.1, OneLog(r.0, evs[1..], uuid), uuid);
      if Concerns(Classify(evs[0].msg), uuid) {
        hide StepOne;
        OneCons(o, evs[0], rest, uuid);
        LogCons(r.1, OneLog(r.0, rest, uuid), uuid);
      }
    }
  }

  /** What happens to a frame over any stream is what happens to it over the
      messages that name it. */
  lemma NonInterference(t: Table, evs: seq<Event>, uuid: U32)
    ensures Lookup(RunTable(t, evs), uuid) == Lookup(RunTable(t, Project(evs, uuid)), uuid)
    ensures About(RunLog(t, evs), uuid) == About(RunLog(t, Project(evs, uuid)), uuid)
  {
    ViewOfRun(t, evs, uuid);
    ViewOfRun(t, Project(evs, uuid), uuid);
    ProjectView(Lookup(t, uuid), evs, uuid);
  }

  // ---- Chunk order does not matter ----

  /** The chunk indices of frame `uuid` that occur in a stream. */
  ghost function Arrived(evs: seq<Event>, uuid: U32, n: nat): set<nat> {
    set e | e in evs && IsChunkOf(e, uuid, n) :: Classify(e.msg).index as nat
  }

  predicate IsChunkOf(e: Event, uuid: U32, n: nat) {
    var m := Classify(e.msg);
    m.Chunk? && m.uuid == uuid && m.index < n
  }

  ghost function Indices(n: nat): (s: set<nat>)
    ensures |s| == n
    ensures forall i: nat :: i in s <==> i < n
  {
    if n == 0 then {} else Indices(n - 1) + {n - 1}
  }

  ghost predicate AllArrived(got: set<nat>, n: nat) {
    forall i: nat :: i < n ==> i in got
  }

  /** A stream that follows the start of frame `uuid`: every chunk of it that
      is in range carries that piece of the payload. Chunks may come in any
      order and any number of times; messages of other frames, malformed ones,
      chunks out of range and repeated starts of the same frame are free, a
      start only while the frame is incomplete (`got` has arrived before). */
  ghost predicate Feeds(evs: seq<Event>, uuid: U32, pieces: seq<seq<Byte>>, got: set<nat>)
    decreases |evs|
  {
    evs == [] ||
    (&& var m := Classify(evs[0].msg);
     && (m.Chunk? && m.uuid == uuid && m.index < |pieces| ==> m.bytes == pieces[m.index])
     && (m.Start? && m.hdr.frameUuid == uuid ==>
           (m.hdr.totalChunks != 0 || m.hdr.totalSize != 0) && !AllArrived(got, |pieces|))
     && Feeds(evs[1..], uuid, pieces, got + Arrived([evs[0]], uuid, |pieces|)))
  }

  /** The staged entry of a frame of which the pieces `got` have arrived. */
  ghost predicate Holds(st: Staged, meta: FrameMeta, pieces: seq<seq<Byte>>, got: set<nat>) {
    && st.meta == meta
    && st.totalChunks == |pieces| == |st.chunks|
    && st.totalSize == |Flatten(pieces)|
    && st.received == |got|
    && (forall i | i in got :: i < |pieces|)
    && (forall i: nat | i < |pieces| :: st.chunks[i] == if i in got then pieces[i] else [])
  }

  /** What the cut of the payload must meet: no empty piece, or one piece. */
  predicate Solid(pieces: seq<seq<Byte>>) {
    |pieces| == 1 || forall i | 0 <= i < |pieces| :: pieces[i] != []
  }

  lemma CountBelow(got: set<nat>, n: nat)
    requires forall i | i in got :: i < n
    ensures |got| <= n
    ensures |got| == n <==> AllArrived(got, n)
    ensures AllArrived(got, n) ==> got == Indices(n)
  {
    assert got <= Indices(n);
    SubsetSize(got, Indices(n));
    if AllArrived(got, n) {
      assert got == Indices(n);
    }
  }

  lemma SubsetSize(a: set<nat>, b: set<nat>)
    requires a <= b
    ensures |a| <= |b|
    ensures |a| == |b| ==> a == b
  {
    assert b == a + (b - a);
    if |a| == |b| {
      assert b - a == {};
    }
  }

  lemma HoldsStored(st: Staged, meta: FrameMeta, pieces: seq<seq<Byte>>, got: set<nat>, i: nat, now: Time)
    requires Holds(st, meta, pieces, got) && i < |pieces| && i !in got
    ensures Holds(StoreChunk(st, i, pieces[i], now), meta, pieces, got + {i})
  {
    hide Flatten;
    var st' := StoreChunk(st, i, pieces[i], now);
    forall j: nat | j < |pieces| ensures st'.chunks[j] == if j in got + {i} then pieces[j] else [] {
    }
  }

  lemma HoldsComplete(st: Staged, meta: FrameMeta, pieces: seq<seq<Byte>>, got: set<nat>, uuid: U32)
    requires Holds(st, meta, pieces, got) && AllArrived(got, |pieces|)
    ensures Assemble(uuid, st) == Completed(uuid, Frame(meta, Flatten(pieces)))
  {
    assert st.chunks == pieces;
    hide Flatten;
    var flat := Flatten(pieces);
    var dst := Resize(st.stale, st.totalSize);
    assert dst[|flat|..] == [];
    assert Overwrite(dst, flat) == flat;
  }

  lemma HoldsAt(st: Staged, meta: FrameMeta, pieces: seq<seq<Byte>>, got: set<nat>, i: nat)
    requires Holds(st, meta, pieces, got)
    ensures st.totalChunks == |pieces| == |st.chunks| && st.received == |got| && forall j | j in got :: j < |pieces|
    ensures i < |pieces| ==> st.chunks[i] == if i in got then pieces[i] else []
  {
    hide Flatten;
  }

  /** One chunk of the frame: stored if its index is new, and the last one
      delivers the payload whatever the recycled buffer held. */
  lemma ChunkStep(
    st: Staged, meta: FrameMeta, pieces: seq<seq<Byte>>, got: set<nat>, m: Incoming, recycled: seq<Byte>, now: Time)
    requires Holds(st, meta, pieces, got) && !AllArrived(got, |pieces|) && Solid(pieces)
    requires m.Chunk? && (m.index < |pieces| ==> m.bytes == pieces[m.index])
    ensures var r := HandleOne(Some(st), m, recycled, now);
            if m.index >= |pieces| || m.index in got then r == (Some(st), Rejected)
            else if AllArrived(got + {m.index}, |pieces|) then
              r == (None, Completed(m.uuid, Frame(meta, Flatten(pieces))))
            else r.0.Some? && r.1 == Stored(m.uuid) && Holds(r.0.value, meta, pieces, got + {m.index})
  {
    HoldsAt(st, meta, pieces, got, m.index);
    if m.index < |pieces| && m.index !in got {
      NewChunk(st, meta, pieces, got, m.index, m.uuid, now);
    } else if m.index < |pieces| {
      SolidSlot(pieces, got, m.index);
    }
    hide Flatten, Assemble, AllArrived, Holds, Solid, StoreChunk;
  }

  lemma NewChunk(st: Staged, meta: FrameMeta, pieces: seq<seq<Byte>>, got: set<nat>, i: nat, uuid: U32, now: Time)
    requires Holds(st, meta, pieces, got) && i < |pieces| && i !in got
    ensures var next := StoreChunk(st, i, pieces[i], now);
            && Holds(next, meta, pieces, got + {i})
            && (next.received == next.totalChunks <==> AllArrived(got + {i}, |pieces|))
            && (AllArrived(got + {i}, |pieces|) ==>
              Assemble(uuid, next) == Completed(uuid, Frame(meta, Flatten(pieces))))
  {
    var next := StoreChunk(st, i, pieces[i], now);
    HoldsStored(st, meta, pieces, got, i, now);
    HoldsAt(next, meta, pieces, got + {i}, i);
    hide Flatten, Assemble, AllArrived, Holds;
    CountBelow(got + {i}, |pieces|);
    if AllArrived(got + {i}, |pieces|) {
      HoldsComplete(next, meta, pieces, got + {i}, uuid);
    }
  }

  lemma SolidSlot(pieces: seq<seq<Byte>>, got: set<nat>, i: nat)
    requires Solid(pieces) && !AllArrived(got, |pieces|) && i < |pieces| && i in got
    ensures pieces[i] != []
  {
  }

  lemma ArrivedCons(e: Event, evs: seq<Event>, uuid: U32, n: nat)
    ensures Arrived([e] + evs, uuid, n) == Arrived([e], uuid, n) + Arrived(evs, uuid, n)
    ensures Arrived([e], uuid, n) == if IsChunkOf(e, uuid, n) then {Classify(e.msg).index as nat} else {}
  {
  }

  /** One message of a feeding stream against the staged entry. */
  lemma FeedStep(st: Staged, meta: FrameMeta, pieces: seq<seq<Byte>>, got: set<nat>, e: Event, uuid: U32)
    requires Holds(st, meta, pieces, got) && !AllArrived(got, |pieces|) && Solid(pieces)
    requires Feeds([e], uuid, pieces, got)
    ensures var got' := got + Arrived([e], uuid, |pieces|);
            var r := StepOne(Some(st), e, uuid);
            if AllArrived(got', |pieces|) then r == (None, Completed(uuid, Frame(meta, Flatten(pieces))))
            else r.0.Some? && Holds(r.0.value, meta, pieces, got') && Delivered([r.1], uuid) == []
  {
    hide Classify, Flatten, AllArrived, Holds, HandleOne;
    var m := Classify(e.msg);
    ArrivedCons(e, [], uuid, |pieces|);
    var r := StepOne(Some(st), e, uuid);
    LogCons(r.1, [], uuid);
    assert got + {} == got;
    if m.Chunk? && m.uuid == uuid {
      ChunkStep(st, meta, pieces, got, m, e.recycled, e.now);
      if m.index < |pieces| && m.index in got {
        assert got + {m.index as nat} == got;
      }
    } else if m.Start? && m.hdr.frameUuid == uuid {
      StartStep(st, m, e.recycled, e.now);
    }
  }

  lemma StartStep(st: Staged, m: Incoming, recycled: seq<Byte>, now: Time)
    requires m.Start? && (m.hdr.totalChunks != 0 || m.hdr.totalSize != 0)
    ensures HandleOne(Some(st), m, recycled, now) == (Some(st), Repeated(m.hdr.frameUuid))
  {
  }

  /** From a staged entry on: nothing is delivered while a piece is missing,
      and once all have come exactly one frame, the payload. */
  lemma {:induction false} AssembleFrom(
    st: Staged, meta: FrameMeta, pieces: seq<seq<Byte>>, got: set<nat>, evs: seq<Event>, uuid: U32)
    requires Holds(st, meta, pieces, got) && !AllArrived(got, |pieces|) && Solid(pieces)
    requires Feeds(evs, uuid, pieces, got)
    ensures Delivered(OneLog(Some(st), evs, uuid), uuid)
            == if AllArrived(got + Arrived(evs, uuid, |pieces|), |pieces|) then [Frame(meta, Flatten(pieces))] else []
    ensures OneEntry(Some(st), evs, uuid).None? <==> AllArrived(got + Arrived(evs, uuid, |pieces|), |pieces|)
    decreases |evs|
  {
    hide *;
    var n := |pieces|;
    if evs == [] {
      NoMessages(st, got, uuid, n);
    } else {
      var e, rest := evs[0], evs[1..];
      assert evs == [e] + rest;
      ArrivedCons(e, rest, uuid, n);
      FeedsCons(e, rest, uuid, pieces, got);
      var got' := got + Arrived([e], uuid, n);
      assert got + Arrived(evs, uuid, n) == got' + Arrived(rest, uuid, n);
      FeedStep(st, meta, pieces, got, e, uuid);
      var r := StepOne(Some(st), e, uuid);
      OneCons(Some(st), e, rest, uuid);
      LogCons(r.1, OneLog(r.0, rest, uuid), uuid);
      if AllArrived(got', n) {
        Finished(rest, uuid, pieces, got');
        MoreArrived(got', Arrived(rest, uuid, n), n);
      } else {
        AssembleFrom(r.0.value, meta, pieces, got', rest, uuid);
      }
    }
  }

  lemma NoMessages(st: Staged, got: set<nat>, uuid: U32, n: nat)
    ensures got + Arrived([], uuid, n) == got
    ensures Delivered(OneLog(Some(st), [], uuid), uuid) == []
    ensures OneEntry(Some(st), [], uuid) == Some(st)
  {
    assert Arrived([], uuid, n) == {};
  }

  lemma MoreArrived(a: set<nat>, b: set<nat>, n: nat)
    requires AllArrived(a, n)
    ensures AllArrived(a + b, n)
  {
  }

  lemma FeedsCons(e: Event, evs: seq<Event>, uuid: U32, pieces: seq<seq<Byte>>, got: set<nat>)
    requires Feeds([e] + evs, uuid, pieces, got)
    ensures Feeds([e], uuid, pieces, got)
    ensures Feeds(evs, uuid, pieces, got + Arrived([e], uuid, |pieces|))
  {
    hide Arrived, Classify;
    assert ([e] + evs)[1..] == evs;
  }

  /** After completion nothing more of the frame is delivered. */
  lemma {:induction false} Finished(evs: seq<Event>, uuid: U32, pieces: seq<seq<Byte>>, got: set<nat>)
    requires AllArrived(got, |pieces|) && Feeds(evs, uuid, pieces, got)
    ensures Delivered(OneLog(None, evs, uuid), uuid) == []
    ensures OneEntry(None, evs, uuid) == None
    decreases |evs|
  {
    hide Classify;
    if evs != [] {
      var got' := got + Arrived([evs[0]], uuid, |pieces|);
      assert AllArrived(got', |pieces|);
      Finished(evs[1..], uuid, pieces, got');
      LogCons(StepOne(None, evs[0], uuid).1, OneLog(None, evs[1..], uuid), uuid);
    }
  }

  /** Order-independent reassembly. A frame cut into pieces is delivered, under
      its uuid, exactly when all its pieces have arrived after its start, and
      then once and whole: over any stream with its chunks in any order and
      multiplicity among any other traffic. Read for every prefix of a stream,
      the frame comes out at its last distinct chunk and at no other message. */
  lemma DeliveredOnceWhole(
    t: Table, start: Event, evs: seq<Event>, h: ChunkHeader, block: seq<Byte>, pieces: seq<seq<Byte>>)
    requires Classify(start.msg) == Start(h, block) && h.frameUuid !in t
    requires h.totalChunks == |pieces| > 0 && h.totalSize == |Flatten(pieces)|
    requires Solid(pieces) && Feeds(evs, h.frameUuid, pieces, {})
    ensures Delivered(RunLog(t, [start] + evs), h.frameUuid)
            == if AllArrived(Arrived(evs, h.frameUuid, |pieces|), |pieces|)
               then [Frame(MetaOf(h, block), Flatten(pieces))] else []
    ensures h.frameUuid in RunTable(t, [start] + evs) <==> !AllArrived(Arrived(evs, h.frameUuid, |pieces|), |pieces|)
  {
    var uuid := h.frameUuid;
    var st := Stage(h, block, start.recycled, start.now);
    hide Classify, Flatten, MetaOf, Solid;
    ViewOfRun(t, [start] + evs, uuid);
    OneCons(None, start, evs, uuid);
    LogCons(Opened(uuid), OneLog(Some(st), evs, uuid), uuid);
    NothingArrived(st, MetaOf(h, block), pieces);
    AssembleFrom(st, MetaOf(h, block), pieces, {}, evs, uuid);
    assert {} + Arrived(evs, uuid, |pieces|) == Arrived(evs, uuid, |pieces|);
  }

  lemma NothingArrived(st: Staged, meta: FrameMeta, pieces: seq<seq<Byte>>)
    requires |pieces| > 0
    requires st.meta == meta && st.totalChunks == |pieces| == |st.chunks| && st.totalSize == |Flatten(pieces)|
             && st.received == 0
    requires forall i | 0 <= i < |pieces| :: st.chunks[i] == []
    ensures Holds(st, meta, pieces, {}) && !AllArrived({}, |pieces|)
  {
    EmptyIncomplete(|pieces|);
  }

  lemma EmptyIncomplete(n: nat)
    requires n > 0
    ensures !AllArrived({}, n)
  {
    var none: set<nat> := {};
    assert 0 !in none;
  }

  // ---- ... exactly for cuts without empty pieces ----

  /** Every stream that feeds the frame delivers it when, and only when, all
      pieces have come. */
  ghost predicate OrderFree(pieces: seq<seq<Byte>>) {
    forall st: Staged, meta: FrameMeta, evs: seq<Event>, uuid: U32 ::
      Holds(st, meta, pieces, {}) && Feeds(evs, uuid, pieces, {}) ==>
        Delivered(OneLog(Some(st), evs, uuid), uuid)
        == if AllArrived(Arrived(evs, uuid, |pieces|), |pieces|) then [Frame(meta, Flatten(pieces))] else []
  }

  /** `k` copies of the empty chunk `index`. */
  function Copies(uuid: U32, index: U32, k: nat): seq<Event> {
    seq(k, _ => Event(EncodeChunk(uuid, index, []), [], 0))
  }

  /** An empty chunk leaves its slot empty, so each copy of it is counted. */
  lemma {:induction false} CopiesCount(st: Staged, uuid: U32, index: U32, k: nat)
    requires index < st.totalChunks == |st.chunks| && st.chunks[index] == []
    requires st.received + k < st.totalChunks
    ensures OneEntry(Some(st), Copies(uuid, index, k), uuid).Some?
    ensures var st' := OneEntry(Some(st), Copies(uuid, index, k), uuid).value;
            st'.received == st.received + k && st'.chunks == st.chunks && st'.totalChunks == st.totalChunks
            && st'.totalSize == st.totalSize
    ensures Delivered(OneLog(Some(st), Copies(uuid, index, k), uuid), uuid) == []
    decreases k
  {
    if k > 0 {
      var evs := Copies(uuid, index, k);
      ChunkRoundTrip(uuid, index, []);
      var r := StepOne(Some(st), evs[0], uuid);
      assert st.chunks[index := []] == st.chunks;
      assert evs[1..] == Copies(uuid, index, k - 1);
      CopiesCount(r.0.value, uuid, index, k - 1);
    }
  }

  lemma {:induction false} CopiesFeed(uuid: U32, index: U32, k: nat, pieces: seq<seq<Byte>>, got: set<nat>)
    requires index < |pieces| && pieces[index] == []
    ensures Feeds(Copies(uuid, index, k), uuid, pieces, got)
    decreases k
  {
    if k > 0 {
      var evs := Copies(uuid, index, k);
      ChunkRoundTrip(uuid, index, []);
      assert evs[1..] == Copies(uuid, index, k - 1);
      CopiesFeed(uuid, index, k - 1, pieces, got + Arrived([evs[0]], uuid, |pieces|));
    }
  }

  lemma {:induction false} LogAppend(o: Option<Staged>, a: seq<Event>, e: Event, uuid: U32)
    ensures Delivered(OneLog(o, a + [e], uuid), uuid)
            == Delivered(OneLog(o, a, uuid), uuid) + Delivered([StepOne(OneEntry(o, a, uuid), e, uuid).1], uuid)
    decreases |a|
  {
    hide StepOne;
    if a == [] {
      assert a + [e] == [e];
      var x := StepOne(o, e, uuid).1;
      assert OneLog(o, [e], uuid) == [x];
    } else {
      assert (a + [e])[1..] == a[1..] + [e];
      LogAppend(StepOne(o, a[0], uuid).0, a[1..], e, uuid);
    }
  }

  /** With an empty piece among several, n copies of that one empty chunk
      complete the frame although the other pieces never came. */
  lemma EmptyPieceDeliversEarly(st: Staged, meta: FrameMeta, pieces: seq<seq<Byte>>, index: U32, uuid: U32)
    requires 2 <= |pieces| && index < |pieces| && pieces[index] == []
    requires Holds(st, meta, pieces, {})
    ensures Feeds(Copies(uuid, index, |pieces|), uuid, pieces, {})
    ensures !AllArrived(Arrived(Copies(uuid, index, |pieces|), uuid, |pieces|), |pieces|)
    ensures Delivered(OneLog(Some(st), Copies(uuid, index, |pieces|), uuid), uuid) != []
  {
    var n := |pieces|;
    var last := Event(EncodeChunk(uuid, index, []), [], 0);
    var front := Copies(uuid, index, n - 1);
    assert Copies(uuid, index, n) == front + [last];
    CopiesFeed(uuid, index, n, pieces, {});
    CopiesCount(st, uuid, index, n - 1);
    LogAppend(Some(st), front, last, uuid);
    LastCopy(OneEntry(Some(st), front, uuid).value, uuid, index);
    CopiesArrive(uuid, index, n, n);
    var other: nat := if index == 0 then 1 else 0;
    assert other !in Arrived(Copies(uuid, index, n), uuid, n);
  }

  lemma CopiesArrive(uuid: U32, index: U32, k: nat, n: nat)
    ensures forall i: nat | i != index :: i !in Arrived(Copies(uuid, index, k), uuid, n)
  {
    ChunkRoundTrip(uuid, index, []);
    hide Classify;
  }

  lemma LastCopy(st: Staged, uuid: U32, index: U32)
    requires index < st.totalChunks == |st.chunks| && st.received + 1 == st.totalChunks
    requires forall i | 0 <= i < |st.chunks| :: st.chunks[i] == []
    ensures var x := StepOne(Some(st), Event(EncodeChunk(uuid, index, []), [], 0), uuid).1;
            Delivered([x], uuid) != []
  {
    ChunkRoundTrip(uuid, index, []);
    hide Classify;
    AllEmpty(st.chunks);
    assert st.chunks[index := []] == st.chunks;
    hide Flatten;
  }

  lemma {:induction false} AllEmpty(chunks: seq<seq<Byte>>)
    requires forall i | 0 <= i < |chunks| :: chunks[i] == []
    ensures Flatten(chunks) == []
  {
    if chunks != [] {
      AllEmpty(chunks[..|chunks| - 1]);
    }
  }

  ghost function AnyMeta(): FrameMeta {
    FrameMeta(0, 0, 0, 0, 0, 0, 0, 0, 0, 0, 0, 0, [0, 0, 0, 0], 0, 0, [], [], false)
  }

  lemma SolidIsOrderFree(pieces: seq<seq<Byte>>)
    requires |pieces| > 0 && Solid(pieces)
    ensures OrderFree(pieces)
  {
    hide OneLog, Delivered, Feeds, Holds, Arrived, AllArrived, Flatten, Solid;
    forall st: Staged, meta: FrameMeta, evs: seq<Event>, uuid: U32
      | Holds(st, meta, pieces, {}) && Feeds(evs, uuid, pieces, {})
      ensures Delivered(OneLog(Some(st), evs, uuid), uuid)
              == if AllArrived(Arrived(evs, uuid, |pieces|), |pieces|) then [Frame(meta, Flatten(pieces))] else []
    {
      EmptyIncomplete(|pieces|);
      AssembleFrom(st, meta, pieces, {}, evs, uuid);
      assert {} + Arrived(evs, uuid, |pieces|) == Arrived(evs, uuid, |pieces|);
    }
  }

  lemma EmptyPieceBreaksOrder(pieces: seq<seq<Byte>>, index: nat)
    requires 2 <= |pieces| < 0x1_0000_0000 && |Flatten(pieces)| < 0x1_0000_0000
    requires index < |pieces| && pieces[index] == []
    ensures !OrderFree(pieces)
  {
    hide Flatten, Holds, Feeds, OneLog, Delivered, AllArrived, Arrived, Copies;
    var st := Staged(AnyMeta(), [], |pieces|, |Flatten(pieces)|, 0, seq(|pieces|, _ => []), 0);
    NothingArrived(st, AnyMeta(), pieces);
    EmptyPieceDeliversEarly(st, AnyMeta(), pieces, index, 0);
  }

  /** Order-independence holds exactly for the cuts that have no empty piece or
      a single piece. */
  lemma OrderFreeExactly(pieces: seq<seq<Byte>>)
    requires 1 <= |pieces| < 0x1_0000_0000 && |Flatten(pieces)| < 0x1_0000_0000
    ensures OrderFree(pieces) <==> Solid(pieces)
  {
    hide OrderFree, Flatten;
    if Solid(pieces) {
      SolidIsOrderFree(pieces);
    } else {
      var i :| 0 <= i < |pieces| && pieces[i] == [];
      EmptyPieceBreaksOrder(pieces, i);
    }
  }
}
