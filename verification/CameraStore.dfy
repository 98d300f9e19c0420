/**
 The camera store (src/data/CameraStore.cpp): the roster, one latest-frame slot
 and one set of live statistics per global id, and each camera's last capture.
 */
module CameraStores {
  import opened Bytes
  import opened Options
  import opened FrameBuffers
  import opened PoolPolicy
  import opened Roster
  import LatestWins
  import FrameRate

  type FrameSlot = LatestWins.Slot<FrameBuffer>

  const EMPTY_SLOT: FrameSlot := LatestWins.Slot(None, 0)

  datatype LiveStats = LiveStats(lastFrameId: U32, framesSaved: U32, rate: FrameRate.Rate)

  datatype Capture = Capture(frame: FrameBuffer, received: int, number: nat)

  class CameraStore {
    var roster: seq<CameraInfo>
    var slots: map<nat, FrameSlot>
    var stats: map<nat, LiveStats>
    var captures: map<nat, Capture>
    var captureSeq: nat
    const pool: FrameBufferPool

    /** Captures are numbered store-wide, one number each; a published buffer
        is not in the free list. */
    ghost predicate Valid()
      reads this, pool
    {
      && RosterInv(roster)
      && pool.Valid()
      && (forall g | g in slots :: slots[g].latest.Some? ==> slots[g].latest.value !in pool.free)
      && (forall g | g in captures :: 1 <= captures[g].number <= captureSeq)
      && forall g, h | g in captures && h in captures && captures[g].number == captures[h].number :: g == h
    }

    constructor (pool: FrameBufferPool)
      requires pool.Valid()
      ensures Valid() && this.pool == pool
      ensures roster == [] && slots == map[] && stats == map[] && captures == map[] && captureSeq == 0
    {
      this.pool := pool;
      roster, slots, stats, captures, captureSeq := [], map[], map[], map[], 0;
    }

    method Clear()
      requires Valid()
      modifies this
      ensures Valid()
      ensures roster == After(old(roster), Op.Clear)
      ensures slots == map[] && stats == map[] && captures == map[] && captureSeq == old(captureSeq)
    {
      roster, slots, stats, captures := [], map[], map[], map[];
    }

    /** Adds a camera, or refreshes the one already there; its global id. */
    method AddCamera(server: nat, localId: U32, sensor: string) returns (globalId: nat)
      requires Valid()
      modifies this`roster
      ensures Valid()
      ensures roster == After(old(roster), Add((server, localId), sensor))
      ensures globalId < |roster| && KeyOf(roster[globalId]) == (server, localId) && roster[globalId].sensor == sensor
      ensures |roster| == |old(roster)| + if (server, localId) in KeySet(old(roster)) then 0 else 1
      ensures forall i | 0 <= i < |old(roster)| && i != globalId :: roster[i] == old(roster)[i]
    {
      ghost var k := (server, localId);
      AddedIs(roster, k, sensor);
      var i := 0;
      while i < |roster|
        invariant i <= |roster|
        invariant forall j | 0 <= j < i :: KeyOf(roster[j]) != k
      {
        if roster[i].server == server && roster[i].localId == localId {
          assert roster[i] in roster;
          roster := roster[i := roster[i].(sensor := sensor)];
          return roster[i].globalId;
        }
        i := i + 1;
      }
      roster := roster + [CameraInfo(|roster|, server, localId, "", sensor, false)];
      return |roster| - 1;
    }

    /** Sorts and renumbers. Captures and latest frames keyed by the old ids
        are forgotten; live statistics are kept under their ids. */
    method RebuildGlobalIdsSorted(now: int)
      requires Valid()
      modifies this`roster, this`slots, this`stats, this`captures
      ensures Valid()
      ensures roster == After(old(roster), Rebuild)
      ensures slots == map[] && captures == map[]
      ensures forall g | g in old(stats) :: g in stats && stats[g] == old(stats)[g]
      ensures forall g | g in stats && g !in old(stats) ::
                g < |roster| && stats[g] == LiveStats(0, 0, FrameRate.NewRate(now))
      ensures forall g | 0 <= g < |roster| :: g in stats
    {
      RebuiltKeepsInv(roster);
      hide SortByKey, RosterInv, Numbered;
      roster := SortByKey(roster);
      captures := map[];
      slots := map[];
      Number(now);
      assert roster == Rebuilt(old(roster));
      hide Rebuilt;
    }

    /** Final ids and labels, and statistics for ids that had none. */
    method Number(now: int)
      modifies this`roster, this`stats
      ensures |roster| == |old(roster)|
      ensures forall j | 0 <= j < |roster| :: roster[j] == Numbered(old(roster)[j], j)
      ensures forall g | g in old(stats) :: g in stats && stats[g] == old(stats)[g]
      ensures forall g | g in stats && g !in old(stats) ::
                g < |roster| && stats[g] == LiveStats(0, 0, FrameRate.NewRate(now))
      ensures forall g | 0 <= g < |roster| :: g in stats
    {
      hide Numbered;
      for i := 0 to |roster|
        invariant |roster| == |old(roster)|
        invariant forall j | 0 <= j < i :: roster[j] == Numbered(old(roster)[j], j) && j in stats
        invariant forall j | i <= j < |roster| :: roster[j] == old(roster)[j]
        invariant forall g | g in old(stats) :: g in stats && stats[g] == old(stats)[g]
        invariant forall g | g in stats && g !in old(stats) ::
                    g < i && stats[g] == LiveStats(0, 0, FrameRate.NewRate(now))
      {
        roster := roster[i := Numbered(roster[i], i)];
        if i !in stats {
          stats := stats[i := LiveStats(0, 0, FrameRate.NewRate(now))];
        }
      }
    }

    /** Position of the camera a server calls `localId`, if it is known. */
    method FindByServer(server: nat, localId: U32) returns (at: Option<nat>)
      requires Valid()
      ensures at.Some? <==> (server, localId) in KeySet(roster)
      ensures at.Some? ==>
                && at.value < |roster|
                && KeyOf(roster[at.value]) == (server, localId)
                && roster[at.value].globalId == at.value
    {
      for i := 0 to |roster|
        invariant forall j | 0 <= j < i :: KeyOf(roster[j]) != (server, localId)
      {
        if roster[i].server == server && roster[i].localId == localId {
          assert roster[i] in roster;
          return Some(i);
        }
      }
      return None;
    }

    /** Position of the camera with this global id. Ids are positions, so it
        is found exactly when the id is below the camera count. */
    method FindById(globalId: nat) returns (at: Option<nat>)
      requires Valid()
      ensures at == if globalId < |roster| then Some(globalId) else None
    {
      for i := 0 to |roster|
        invariant i <= globalId
      {
        if roster[i].globalId == globalId {
          return Some(i);
        }
      }
      return None;
    }

    function SlotOf(g: nat): FrameSlot
      reads this`slots
    {
      if g in slots then slots[g] else EMPTY_SLOT
    }

    function StatsOf(g: nat, now: int): LiveStats
      reads this`stats
    {
      if g in stats then stats[g] else LiveStats(0, 0, FrameRate.NewRate(now))
    }

    /** What a count of one at eviction says: no other slot holds the frame. */
    ghost predicate SoleOwner(g: nat, buf: FrameBuffer)
      reads this`slots
    {
      && SlotOf(g).latest != Some(buf)
      && forall h | h in slots && h != g && slots[h].latest.Some? :: slots[h].latest != SlotOf(g).latest
    }

    /** Swaps the frame into its camera's slot, updates the camera's
        statistics and gives the evicted frame, whose reference count is then
        seen as `useCount`, back to the pool. */
    method PublishFrame(g: nat, buf: FrameBuffer?, useCount: nat, now: int)
      requires Valid()
      requires buf != null ==> buf !in pool.free && (useCount <= 1 ==> SoleOwner(g, buf))
      modifies this`slots, this`stats, pool
      ensures Valid()
      ensures buf == null ==> slots == old(slots) && stats == old(stats) && pool.free == old(pool.free)
      ensures buf != null ==> slots == old(slots)[g := LatestWins.Published(old(SlotOf(g)), buf)]
      ensures buf != null ==>
                stats == old(stats)[g := LiveStats(buf.meta.frameId, buf.meta.framesSaved,
                                                   FrameRate.Recorded(old(StatsOf(g, now)).rate, ArrivalOf(buf, now)))]
      ensures buf != null ==> ShowsFrame(stats[g].rate, old(StatsOf(g, now)).rate, buf, now)
      ensures buf != null ==>
                pool.free == if old(SlotOf(g)).latest.Some? && useCount <= 1
                             then Pushed(old(pool.free), old(SlotOf(g)).latest.value)
                             else old(pool.free)
    {
      if buf == null {
        return;
      }
      RecordedShows(StatsOf(g, now).rate, buf, now);
      hide ShowsFrame, ArrivalOf;
      var slot := SlotOf(g);
      slots := slots[g := LatestWins.Published(slot, buf)];
      var st := StatsOf(g, now);
      var rate := RecordRate(st.rate, ArrivalOf(buf, now));
      stats := stats[g := LiveStats(buf.meta.frameId, buf.meta.framesSaved, rate)];
      if slot.latest.Some? {
        pool.Release(slot.latest.value, useCount);
      }
    }

    /** The latest frame, when it is not the one this cursor saw last. */
    method ConsumeIfNew(g: nat, cursor: nat) returns (buf: FrameBuffer?, seen: nat)
      ensures (if buf == null then None else Some(buf), seen) == LatestWins.Polled(SlotOf(g), cursor)
    {
      if g !in slots || slots[g].latest.None? {
        return null, cursor;
      }
      if slots[g].number == cursor {
        return null, cursor;
      }
      return slots[g].latest.value, slots[g].number;
    }

    /** A new capture replaces the camera's last one under a number no other
        capture had. */
    method PublishCapture(g: nat, frame: FrameBuffer, now: int) returns (c: Capture)
      requires Valid()
      modifies this`captures, this`captureSeq
      ensures Valid()
      ensures c == Capture(frame, now, old(captureSeq) + 1)
      ensures captures == old(captures)[g := c] && captureSeq == c.number
    {
      captureSeq := captureSeq + 1;
      c := Capture(frame, now, captureSeq);
      captures := captures[g := c];
    }
  }

  /** What of a published frame its camera's rate holds on to: the id, the
      capture time if it has one, the declared duration in its place, and when
      a rate came out. */
  ghost predicate ShowsFrame(after: FrameRate.Rate, before: FrameRate.Rate, buf: FrameBuffer, now: int)
    reads buf
  {
    && after.lastId == buf.meta.frameId
    && after.lastStamp == (if buf.meta.timestampUs > 0 then buf.meta.timestampUs else before.lastStamp)
    && (buf.meta.timestampUs == 0 && buf.meta.frameDurationUs > 0 ==>
          && after.durations != []
          && after.durations[|after.durations| - 1] == buf.meta.frameDurationUs as real)
    && after.wall == (if after.durations != [] && now - before.wall >= 1000 then now else before.wall)
  }

  lemma RecordedShows(r: FrameRate.Rate, buf: FrameBuffer, now: int)
    ensures ShowsFrame(FrameRate.Recorded(r, ArrivalOf(buf, now)), r, buf, now)
  {
    var a := ArrivalOf(buf, now);
    FrameRate.RecordedHolds(r, a);
    FrameRate.NewestIsSeen(r, a);
    FrameRate.UnstampedIsDeclared(r, a);
    FrameRate.RefreshTime(r, a);
    hide FrameRate.Recorded, FrameRate.DurationSeen;
  }

  function ArrivalOf(buf: FrameBuffer, now: int): FrameRate.Arrival
    reads buf
  {
    FrameRate.Arrival(buf.meta.frameId, buf.meta.timestampUs, buf.meta.frameDurationUs, now)
  }

  /** The statistics update of a publication (src/data/CameraStore.cpp:131-163). */
  method RecordRate(r: FrameRate.Rate, a: FrameRate.Arrival) returns (after: FrameRate.Rate)
    ensures after == FrameRate.Recorded(r, a)
  {
    var duration := 0.0;
    if a.stamp > 0 && r.lastStamp > 0 && r.lastId >= 0 {
      var gap := a.id - r.lastId;
      if gap > 0 {
        duration := FrameRate.Elapsed(a.stamp, r.lastStamp) as real / gap as real;
        PositiveQuotient(FrameRate.Elapsed(a.stamp, r.lastStamp), gap);
      }
    } else if a.stamp == 0 && a.declared > 0 {
      duration := a.declared as real;
    }
    var durations := r.durations;
    if duration > 0.0 {
      durations := durations + [duration];
      if |durations| > FrameRate.WINDOW {
        durations := durations[1..];
      }
    }
    var wall, fps := r.wall, r.fps;
    if a.now - wall >= 1000 && durations != [] {
      var sum := 0.0;
      for i := 0 to |durations|
        invariant sum == FrameRate.Sum(durations[..i])
      {
        assert durations[..i + 1][..i] == durations[..i];
        sum := sum + durations[i];
      }
      assert durations[..|durations|] == durations;
      var avg := sum / |durations| as real;
      if avg > 0.0 {
        fps := 1000000.0 / avg;
      }
      wall := a.now;
    }
    after := FrameRate.Rate(durations, if a.stamp > 0 then a.stamp else r.lastStamp, a.id, wall, fps);
  }

  lemma PositiveQuotient(x: nat, n: int)
    requires n > 0
    ensures x as real / n as real > 0.0 <==> x > 0
  {
  }
}
