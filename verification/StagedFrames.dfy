/**
 Staging over a whole connection: which frames the stale sweep takes, what
 every staged entry keeps, where each accepted start ends up, and what a
 recycled buffer can leak into a frame.
 */
module StagedFrames {
  import opened Bytes
  import opened FrameAssembly
  import opened Options
  import opened Protocol
  import opened Reassembly

  // ---- The sweep only takes frames that stopped arriving ----

  /** The clock of a stream never runs backwards. */
  ghost predicate Timed(from: Time, evs: seq<Event>)
    decreases |evs|
  {
    evs == [] || (from <= evs[0].now && Timed(evs[0].now, evs[1..]))
  }

  function EndTime(from: Time, evs: seq<Event>): Time {
    if evs == [] then from else evs[|evs| - 1].now
  }

  /** A message that the frame takes up: a chunk stored, maybe the last. */
  predicate TakenUp(x: Outcome) {
    x.Stored? || x.Completed? || x.Overflowed?
  }

  /** The messages the frame takes up are never more than the timeout apart,
      counted from its start and up to the end of the stream. How long the
      frame takes as a whole, and what else arrives, is free. */
  ghost predicate Steady(o: Option<Staged>, evs: seq<Event>, uuid: U32, end: Time)
    decreases |evs|
  {
    if evs == [] then o.Some? ==> end - o.value.lastChunk <= STALE_AFTER
    else
      var r := StepOne(o, evs[0], uuid);
      && (o.Some? && TakenUp(r.1) ==> evs[0].now - o.value.lastChunk <= STALE_AFTER)
      && Steady(r.0, evs[1..], uuid, end)
  }

  /** At no message of the connection is the frame, if in flight then, stale:
      what the sweep looks at. */
  ghost predicate Lively(o: Option<Staged>, evs: seq<Event>, uuid: U32)
    decreases |evs|
  {
    evs == [] ||
    (var o' := StepOne(o, evs[0], uuid).0;
     && (o'.Some? ==> !IsStale(o'.value, evs[0].now))
     && Lively(o', evs[1..], uuid))
  }

  lemma OnlyTakenUpChanges(o: Option<Staged>, ev: Event, uuid: U32)
    ensures var r := StepOne(o, ev, uuid);
            && (o.Some? && !TakenUp(r.1) ==> r.0 == o)
            && (r.0.Some? && r.0 != o ==> r.0.value.lastChunk == ev.now)
  {
    hide Classify, Flatten, MetaOf;
  }

  /** A steady frame has not been idle for longer than the timeout now. */
  lemma {:induction false} SteadyNow(o: Option<Staged>, evs: seq<Event>, uuid: U32, from: Time)
    requires Timed(from, evs) && Steady(o, evs, uuid, EndTime(from, evs)) && o.Some?
    ensures from - o.value.lastChunk <= STALE_AFTER
    decreases |evs|
  {
    if evs != [] {
      OnlyTakenUpChanges(o, evs[0], uuid);
      hide StepOne;
      if !TakenUp(StepOne(o, evs[0], uuid).1) {
        SteadyNow(o, evs[1..], uuid, evs[0].now);
      }
    }
  }

  /** So between its own messages no other message finds it stale. */
  lemma {:induction false} SteadyIsLively(o: Option<Staged>, evs: seq<Event>, uuid: U32, from: Time)
    requires Timed(from, evs) && Steady(o, evs, uuid, EndTime(from, evs))
    ensures Lively(o, evs, uuid)
    decreases |evs|
  {
    if evs != [] {
      var o' := StepOne(o, evs[0], uuid).0;
      hide StepOne;
      SteadyIsLively(o', evs[1..], uuid, evs[0].now);
      if o'.Some? {
        SteadyNow(o', evs[1..], uuid, evs[0].now);
      }
    }
  }

  lemma SweepView(t: Table, now: Time, uuid: U32)
    ensures Lookup(Sweep(t, now), uuid)
            == if uuid in t && !IsStale(t[uuid], now) then Some(t[uuid]) else None
  {
  }

  /** A frame the sweep never finds stale goes through sweeps untouched: what
      happens to it is what would happen if nothing were ever swept. */
  lemma LivelyIsNeverSwept(s: State, evs: seq<Event>, uuid: U32)
    requires Lively(Lookup(s.table, uuid), evs, uuid)
    ensures Lookup(FullState(s, evs).table, uuid) == Lookup(RunTable(s.table, evs), uuid)
    ensures About(FullLog(s, evs), uuid) == About(RunLog(s.table, evs), uuid)
    ensures Delivered(FullLog(s, evs), uuid) == Delivered(RunLog(s.table, evs), uuid)
  {
    ViewOfRun(s.table, evs, uuid);
    FullView(s, evs, uuid);
  }

  /** And so does a frame whose own messages keep coming. */
  lemma SteadyIsNeverSwept(s: State, evs: seq<Event>, uuid: U32, from: Time)
    requires Timed(from, evs) && Steady(Lookup(s.table, uuid), evs, uuid, EndTime(from, evs))
    ensures Lookup(FullState(s, evs).table, uuid) == Lookup(RunTable(s.table, evs), uuid)
    ensures About(FullLog(s, evs), uuid) == About(RunLog(s.table, evs), uuid)
    ensures Delivered(FullLog(s, evs), uuid) == Delivered(RunLog(s.table, evs), uuid)
  {
    SteadyIsLively(Lookup(s.table, uuid), evs, uuid, from);
    hide *;
    LivelyIsNeverSwept(s, evs, uuid);
  }

  lemma {:induction false} FullView(s: State, evs: seq<Event>, uuid: U32)
    requires Lively(Lookup(s.table, uuid), evs, uuid)
    ensures Lookup(FullState(s, evs).table, uuid) == OneEntry(Lookup(s.table, uuid), evs, uuid)
    ensures About(FullLog(s, evs), uuid) == About(OneLog(Lookup(s.table, uuid), evs, uuid), uuid)
    ensures Delivered(FullLog(s, evs), uuid) == Delivered(OneLog(Lookup(s.table, uuid), evs, uuid), uuid)
    decreases |evs|
  {
    hide Handle, StepOne, Sweep, Classify;
    if evs != [] {
      HandleView(s.table, evs[0], uuid);
      SweepView(Handle(s.table, evs[0]).0, evs[0].now, uuid);
      var s', o' := Step(s, evs[0]).0, StepOne(Lookup(s.table, uuid), evs[0], uuid).0;
      FullView(s', evs[1..], uuid);
      LogCons(Step(s, evs[0]).1, FullLog(s', evs[1..]), uuid);
      LogCons(StepOne(Lookup(s.table, uuid), evs[0], uuid).1, OneLog(o', evs[1..], uuid), uuid);
    }
  }

  /** The reassembly theorem on a live connection, sweeps included. */
  lemma DeliveredDespiteSweeps(
    s: State, start: Event, evs: seq<Event>, h: ChunkHeader, block: seq<Byte>, pieces: seq<seq<Byte>>)
    requires Classify(start.msg) == Start(h, block) && h.frameUuid !in s.table
    requires h.totalChunks == |pieces| > 0 && h.totalSize == |Flatten(pieces)|
    requires Solid(pieces) && Feeds(evs, h.frameUuid, pieces, {})
    requires Timed(start.now, evs)
    requires Steady(Some(Stage(h, block, start.recycled, start.now)), evs, h.frameUuid, EndTime(start.now, evs))
    ensures Delivered(FullLog(s, [start] + evs), h.frameUuid)
            == if AllArrived(Arrived(evs, h.frameUuid, |pieces|), |pieces|)
               then [Frame(MetaOf(h, block), Flatten(pieces))] else []
  {
    var uuid, all := h.frameUuid, [start] + evs;
    LookupAbsent(s.table, uuid);
    SteadyFromStart(start, evs, h, block);
    hide *;
    assert all[0] == start && all != [];
    SteadyIsNeverSwept(s, all, uuid, start.now);
    DeliveredOnceWhole(s.table, start, evs, h, block, pieces);
  }

  lemma SteadyFromStart(start: Event, evs: seq<Event>, h: ChunkHeader, block: seq<Byte>)
    requires Classify(start.msg) == Start(h, block) && h.totalChunks > 0
    requires Timed(start.now, evs)
    requires Steady(Some(Stage(h, block, start.recycled, start.now)), evs, h.frameUuid, EndTime(start.now, evs))
    ensures var all := [start] + evs;
            Timed(start.now, all) && Steady(None, all, h.frameUuid, EndTime(start.now, all))
  {
    var all, end := [start] + evs, EndTime(start.now, evs);
    assert all[0] == start && all[1..] == evs;
    assert StepOne(None, start, h.frameUuid) == (Some(Stage(h, block, start.recycled, start.now)), Opened(h.frameUuid));
    hide StepOne, Classify, Stage;
    assert EndTime(start.now, all) == end;
  }

  lemma LookupAbsent(t: Table, uuid: U32)
    requires uuid !in t
    ensures Lookup(t, uuid) == None
  {
  }

  /** A message that triggers a sweep leaves exactly the entries that made
      progress within the timeout. */
  lemma SweepTakesExactlyTheIdle(s: State, ev: Event, uuid: U32)
    requires SweepDue(s, ev)
    ensures uuid in Step(s, ev).0.table
            <==> uuid in Handle(s.table, ev).0 && !IsStale(Handle(s.table, ev).0[uuid], ev.now)
  {
  }

  /** An entry idle for longer than the timeout is gone after the next message
      of another frame that triggers a sweep. */
  lemma IdleIsSwept(s: State, ev: Event, uuid: U32)
    requires uuid in s.table && ev.now - s.table[uuid].lastChunk > STALE_AFTER
    requires SweepDue(s, ev) && !Concerns(Classify(ev.msg), uuid)
    ensures uuid !in Step(s, ev).0.table
  {
    HandleView(s.table, ev, uuid);
    SweepTakesExactlyTheIdle(s, ev, uuid);
    hide Handle, Classify, Step;
  }

  /** At the last sweep, no entry had been idle for longer than the timeout. */
  ghost predicate RecentAtSweep(s: State) {
    forall u | u in s.table :: s.lastSweep - s.table[u].lastChunk <= STALE_AFTER
  }

  /** A message only touches the entry it names, and dates it then. */
  lemma HandleDates(t: Table, ev: Event, u: U32)
    requires u in Handle(t, ev).0
    ensures Handle(t, ev).0[u].lastChunk == ev.now || (u in t && Handle(t, ev).0[u] == t[u])
  {
    hide Classify, Flatten, MetaOf;
  }

  lemma StepKeepsRecent(s: State, ev: Event)
    requires RecentAtSweep(s) && s.lastSweep <= ev.now
    ensures var t := Step(s, ev).0;
            && RecentAtSweep(t) && s.lastSweep <= t.lastSweep <= ev.now
            && (!Classify(ev.msg).Short? ==> ev.now - t.lastSweep <= SWEEP_PERIOD)
  {
    var h := Handle(s.table, ev).0;
    forall u | u in h ensures h[u].lastChunk == ev.now || (u in s.table && h[u] == s.table[u]) {
      HandleDates(s.table, ev, u);
    }
    hide Handle, Classify;
  }

  lemma {:induction false} RunKeepsRecent(s: State, evs: seq<Event>, from: Time)
    requires RecentAtSweep(s) && s.lastSweep <= from && Timed(from, evs)
    ensures RecentAtSweep(FullState(s, evs)) && FullState(s, evs).lastSweep <= EndTime(from, evs)
    decreases |evs|
  {
    hide RecentAtSweep, Step, Classify;
    if evs != [] {
      StepKeepsRecent(s, evs[0]);
      RunKeepsRecent(Step(s, evs[0]).0, evs[1..], evs[0].now);
    }
  }

  /** Nothing lingers: after any message of at least 8 bytes, at any point of
      any timed run, no frame in flight has been idle for more than the timeout
      and one sweep period. */
  lemma NoFrameIdlesLong(s: State, evs: seq<Event>, last: Event, u: U32)
    requires s.table == map[] && Timed(s.lastSweep, evs)
    requires EndTime(s.lastSweep, evs) <= last.now && !Classify(last.msg).Short?
    requires u in Step(FullState(s, evs), last).0.table
    ensures last.now - Step(FullState(s, evs), last).0.table[u].lastChunk <= STALE_AFTER + SWEEP_PERIOD
  {
    RunKeepsRecent(s, evs, s.lastSweep);
    StepKeepsRecent(FullState(s, evs), last);
    hide Step, FullState, Classify;
  }

  // ---- What every staged entry keeps ----

  ghost function FilledSlots(st: Staged): set<nat> {
    set i: nat | i < |st.chunks| && st.chunks[i] != []
  }

  ghost predicate EntryInv(st: Staged) {
    && |st.chunks| == st.totalChunks
    && (st.received < st.totalChunks || st.totalChunks == 0)
    && |FilledSlots(st)| <= st.received
  }

  /** An entry none of whose accepted chunks was empty. */
  ghost predicate Exact(st: Staged) {
    EntryInv(st) && st.received == |FilledSlots(st)|
  }

  lemma StoreFills(st: Staged, index: U32, bytes: seq<Byte>, now: Time)
    requires index < |st.chunks| && st.chunks[index] == []
    ensures FilledSlots(StoreChunk(st, index, bytes, now)) == FilledSlots(st) +
            (if bytes != [] then {index as nat} else {})
    ensures index as nat !in FilledSlots(st)
  {
  }

  lemma StageIsEmpty(h: ChunkHeader, block: seq<Byte>, recycled: seq<Byte>, now: Time)
    ensures FilledSlots(Stage(h, block, recycled, now)) == {}
  {
  }

  lemma EntryKept(o: Option<Staged>, m: Incoming, recycled: seq<Byte>, now: Time)
    requires m.Start? || m.Chunk?
    requires o.Some? ==> EntryInv(o.value)
    ensures var r := HandleOne(o, m, recycled, now);
            && (r.0.Some? ==> EntryInv(r.0.value))
            && (r.0.Some? && (o.Some? ==> Exact(o.value)) && (m.Chunk? ==> m.bytes != []) ==> Exact(r.0.value))
  {
    hide MetaOf, Assemble;
    if m.Start? {
      StageIsEmpty(m.hdr, m.block, recycled, now);
    } else if o.Some? && m.index < |o.value.chunks| && o.value.chunks[m.index] == [] {
      StoreFills(o.value, m.index, m.bytes, now);
    }
    hide FilledSlots;
  }

  ghost predicate TableInv(t: Table) {
    forall u | u in t :: EntryInv(t[u])
  }

  ghost predicate TableExact(t: Table) {
    forall u | u in t :: Exact(t[u])
  }

  predicate NoEmptyChunk(ev: Event) {
    Classify(ev.msg).Chunk? ==> Classify(ev.msg).bytes != []
  }

  lemma HandleKeepsEntries(t: Table, ev: Event)
    requires TableInv(t)
    ensures TableInv(Handle(t, ev).0)
    ensures TableExact(t) && NoEmptyChunk(ev) ==> TableExact(Handle(t, ev).0)
  {
    hide HandleOne, EntryInv, Exact, Classify;
    var m := Classify(ev.msg);
    if m.Start? || m.Chunk? {
      EntryKept(Lookup(t, UuidOf(m)), m, ev.recycled, ev.now);
    }
  }

  lemma StepKeepsEntries(s: State, ev: Event)
    requires TableInv(s.table)
    ensures TableInv(Step(s, ev).0.table)
    ensures TableExact(s.table) && NoEmptyChunk(ev) ==> TableExact(Step(s, ev).0.table)
  {
    hide Handle, EntryInv, Exact, Classify, IsStale;
    HandleKeepsEntries(s.table, ev);
  }

  /** On every run from an empty table: a staged entry has one slot per
      announced chunk, is short of complete, and has counted at least its
      filled slots -- exactly those when no chunk message is empty. */
  lemma {:induction false} StagedEntriesKept(s: State, evs: seq<Event>)
    requires TableInv(s.table)
    ensures TableInv(FullState(s, evs).table)
    ensures TableExact(s.table) && (forall e | e in evs :: NoEmptyChunk(e)) ==> TableExact(FullState(s, evs).table)
    decreases |evs|
  {
    if evs != [] {
      hide TableInv, TableExact, Step, NoEmptyChunk;
      StepKeepsEntries(s, evs[0]);
      StagedEntriesKept(Step(s, evs[0]).0, evs[1..]);
    }
  }

  // ---- No accepted start is lost without account ----

  datatype Op = Message(ev: Event) | Reset

  /** How many starts were accepted, and what became of them. */
  datatype Tally = Tally(starts: nat, headerOnly: nat, repeated: nat, completed: nat, overflowed: nat, swept: nat,
    reset: nat)

  function CountOutcome(a: Tally, x: Outcome): Tally {
    match x
    case HeaderOnly(_, _) => a.(starts := a.starts + 1, headerOnly := a.headerOnly + 1)
    case Opened(_) => a.(starts := a.starts + 1)
    case Repeated(_) => a.(starts := a.starts + 1, repeated := a.repeated + 1)
    case Completed(_, _) => a.(completed := a.completed + 1)
    case Overflowed(_) => a.(overflowed := a.overflowed + 1)
    case Rejected => a
    case Stored(_) => a
  }

  ghost function StaleKeys(t: Table, now: Time): set<U32> {
    set u | u in t && IsStale(t[u], now)
  }

  ghost function SweptBy(s: State, ev: Event): nat {
    if SweepDue(s, ev) then |StaleKeys(Handle(s.table, ev).0, ev.now)| else 0
  }

  ghost function Account(s: State, a: Tally, op: Op): (State, Tally) {
    match op
    case Message(ev) =>
      var r := Step(s, ev);
      (r.0, CountOutcome(a, r.1).(swept := a.swept + SweptBy(s, ev)))
    case Reset => (State(map[], s.lastSweep), a.(reset := a.reset + |s.table|))
  }

  ghost function AccountAll(s: State, a: Tally, ops: seq<Op>): (State, Tally)
    decreases |ops|
  {
    if ops == [] then (s, a)
    else var r := Account(s, a, ops[0]); AccountAll(r.0, r.1, ops[1..])
  }

  /** What a message adds to each account: a start counts when it is delivered
      at once, staged or ignored as a repeat; a frame counts as completed when it
      is handed out, as overflowed when it is dropped for its size, and as swept
      when the message leaves it staged and the sweep takes it. */
  lemma MessageAccounts(s: State, a: Tally, ev: Event)
    ensures var r, x := Account(s, a, Message(ev)), Step(s, ev).1;
            && r.0 == Step(s, ev).0
            && r.1.starts == a.starts + (if x.HeaderOnly? || x.Opened? || x.Repeated? then 1 else 0)
            && r.1.headerOnly == a.headerOnly + (if x.HeaderOnly? then 1 else 0)
            && r.1.repeated == a.repeated + (if x.Repeated? then 1 else 0)
            && r.1.completed == a.completed + (if x.Completed? then 1 else 0)
            && r.1.overflowed == a.overflowed + (if x.Overflowed? then 1 else 0)
            && r.1.swept == a.swept + |Handle(s.table, ev).0| - |r.0.table|
            && r.1.reset == a.reset
  {
    SweepSize(Handle(s.table, ev).0, ev.now);
    hide Handle, Classify, Sweep, StaleKeys;
  }

  /** Every accepted start is in exactly one place. */
  ghost predicate Balanced(s: State, a: Tally) {
    a.starts == a.headerOnly + a.repeated + a.completed + a.overflowed + a.swept + a.reset + |s.table|
  }

  lemma PutSize(t: Table, uuid: U32, o: Option<Staged>)
    ensures |Put(t, uuid, o)| == |t| - (if uuid in t then 1 else 0) + (if o.Some? then 1 else 0)
  {
    var keys := Put(t, uuid, o).Keys;
    assert keys == if o.Some? then t.Keys + {uuid} else t.Keys - {uuid};
    KeyCount(t.Keys, uuid);
    assert |Put(t, uuid, o)| == |keys| && |t| == |t.Keys|;
    hide Put;
  }

  lemma KeyCount(keys: set<U32>, u: U32)
    ensures |keys + {u}| == |keys| + if u in keys then 0 else 1
    ensures |keys - {u}| == |keys| - if u in keys then 1 else 0
  {
    if u in keys {
      assert keys + {u} == keys;
    }
  }

  lemma HandleSize(t: Table, ev: Event)
    ensures var r := Handle(t, ev);
            |r.0| == |t| + (if r.1.Opened? then 1 else 0) - (if r.1.Completed? || r.1.Overflowed? then 1 else 0)
  {
    var m := Classify(ev.msg);
    if m.Start? || m.Chunk? {
      var o := HandleOne(Lookup(t, UuidOf(m)), m, ev.recycled, ev.now).0;
      PutSize(t, UuidOf(m), o);
    }
    hide Classify, MetaOf, Flatten, Put;
  }

  lemma SweepSize(t: Table, now: Time)
    ensures |Sweep(t, now)| + |StaleKeys(t, now)| == |t|
  {
    var gone := StaleKeys(t, now);
    assert Sweep(t, now).Keys == t.Keys - gone;
    assert |Sweep(t, now)| == |t.Keys - gone|;
    assert t.Keys == (t.Keys - gone) + gone;
  }

  lemma AccountKeepsBalance(s: State, a: Tally, op: Op)
    requires Balanced(s, a)
    ensures Balanced(Account(s, a, op).0, Account(s, a, op).1)
  {
    hide Handle, Classify, Sweep, StaleKeys;
    if op.Message? {
      HandleSize(s.table, op.ev);
      SweepSize(Handle(s.table, op.ev).0, op.ev.now);
    }
  }

  /** Over any run, resets included, each accepted start was delivered at once,
      ignored as a repeated uuid, completed, dropped on overflow, swept, reset
      -- or is still in flight. */
  lemma {:induction false} StartsAreConserved(s: State, a: Tally, ops: seq<Op>)
    requires Balanced(s, a)
    ensures Balanced(AccountAll(s, a, ops).0, AccountAll(s, a, ops).1)
    decreases |ops|
  {
    if ops != [] {
      hide Balanced, Account;
      AccountKeepsBalance(s, a, ops[0]);
      var r := Account(s, a, ops[0]);
      StartsAreConserved(r.0, r.1, ops[1..]);
    }
  }

  // ---- What a recycled buffer leaks ----

  /** A completed frame is independent of what its recycled buffer held exactly
      when the chunks add up to the announced size. */
  lemma RecycledBytesLeakExactly(uuid: U32, st: Staged)
    requires |Flatten(st.chunks)| <= st.totalSize
    ensures (forall b: seq<Byte> :: Assemble(uuid, st.(stale := b)) == Assemble(uuid, st)) <==>
            |Flatten(st.chunks)| == st.totalSize
  {
    var flat := Flatten(st.chunks);
    hide Flatten;
    if |flat| == st.totalSize {
      forall b: seq<Byte> ensures Assemble(uuid, st.(stale := b)) == Assemble(uuid, st) {
        assert Resize(b, st.totalSize)[|flat|..] == [] == Resize(st.stale, st.totalSize)[|flat|..];
      }
    } else {
      var ones := seq(st.totalSize, _ => 1 as Byte);
      var twos := seq(st.totalSize, _ => 2 as Byte);
      var x, y := Assemble(uuid, st.(stale := ones)), Assemble(uuid, st.(stale := twos));
      assert Resize(ones, st.totalSize) == ones && Resize(twos, st.totalSize) == twos;
      assert x.frame.data[|flat|] == ones[|flat|] && y.frame.data[|flat|] == twos[|flat|];
      assert x != y;
    }
  }

  /** A header-only frame carries the recycled buffer's bytes: it is empty only
      if that buffer was. */
  lemma HeaderOnlyDataIsRecycled(t: Table, ev: Event, h: ChunkHeader, block: seq<Byte>)
    requires Classify(ev.msg) == Start(h, block) && h.totalChunks == 0 && h.totalSize == 0
    ensures Handle(t, ev).1.HeaderOnly? && Handle(t, ev).1.frame.meta.headerOnly
    ensures Handle(t, ev).1.frame.data == [] <==> ev.recycled == []
  {
    hide Classify;
  }
}
