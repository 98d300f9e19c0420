/**
 How the server's frame rate is recovered from capture timestamps although
 frames are dropped on the way (src/data/CameraStore.cpp:127-163). Doubles are
 modelled as reals.
 */
module FrameRate {
  import opened Bytes
  import opened Options
  import Seqs

  const WINDOW := 10
  const TICKS := 0x1_0000_0000_0000_0000

  /** What of a published frame the rate depends on, and when it arrives. */
  datatype Arrival = Arrival(id: U32, stamp: U64, declared: U32, now: int)

  /** `lastId` is negative before the first frame; times are milliseconds. */
  datatype Rate = Rate(durations: seq<real>, lastStamp: U64, lastId: int, wall: int, fps: real)

  function NewRate(now: int): Rate {
    Rate([], 0, -1, now, 0.0)
  }

  /** Difference of two unsigned 64-bit timestamps. */
  function Elapsed(later: U64, earlier: U64): U64 {
    (later - earlier) % TICKS
  }

  /** The duration of one frame as this arrival shows it, if it shows any. */
  function DurationSeen(r: Rate, a: Arrival): Option<real> {
    if a.stamp > 0 && r.lastStamp > 0 && r.lastId >= 0 then
      var gap := a.id - r.lastId;
      var elapsed := Elapsed(a.stamp, r.lastStamp);
      if gap > 0 && elapsed > 0 then Some(elapsed as real / gap as real) else None
    else if a.stamp == 0 && a.declared > 0 then Some(a.declared as real)
    else None
  }

  function Slid(ds: seq<real>, d: real): seq<real> {
    var grown := ds + [d];
    if |grown| > WINDOW then grown[1..] else grown
  }

  function Sum(ds: seq<real>): real {
    if ds == [] then 0.0 else Sum(ds[..|ds| - 1]) + ds[|ds| - 1]
  }

  function Average(ds: seq<real>): real
    requires ds != []
  {
    Sum(ds) / |ds| as real
  }

  function Noted(r: Rate, a: Arrival): Rate {
    var d := DurationSeen(r, a);
    r.(durations := if d.Some? then Slid(r.durations, d.value) else r.durations,
       lastStamp := if a.stamp > 0 then a.stamp else r.lastStamp,
       lastId := a.id)
  }

  /** The published rate is refreshed at most once a second. */
  function Refreshed(r: Rate, now: int): Rate {
    if now - r.wall >= 1000 && r.durations != [] then
      var mean := Average(r.durations);
      r.(fps := if mean > 0.0 then 1000000.0 / mean else r.fps, wall := now)
    else r
  }

  function Recorded(r: Rate, a: Arrival): Rate {
    Refreshed(Noted(r, a), a.now)
  }

  function RecordedAll(r: Rate, arrivals: seq<Arrival>): Rate
    decreases |arrivals|
  {
    if arrivals == [] then r else RecordedAll(Recorded(r, arrivals[0]), arrivals[1..])
  }

  // ---- Recovery under drops ----

  /** The camera's true capture times by frame id: consecutive frames lie
      between `low` and `high` microseconds apart. */
  ghost predicate Cadence(stamps: seq<U64>, low: int, high: int) {
    && 0 < low
    && (forall i | 0 <= i < |stamps| :: stamps[i] > 0)
    && forall i | 0 < i < |stamps| :: low <= stamps[i] - stamps[i - 1] <= high
  }

  /** Every delivered frame carries its true capture time. Which frames are
      delivered, how often and in what order is free. */
  ghost predicate Stamped(stamps: seq<U64>, arrivals: seq<Arrival>) {
    forall i | 0 <= i < |arrivals| :: TrulyStamped(stamps, arrivals[i])
  }

  ghost predicate TrulyStamped(stamps: seq<U64>, a: Arrival) {
    a.id < |stamps| && a.stamp == stamps[a.id]
  }

  ghost predicate Within(ds: seq<real>, low: int, high: int) {
    forall i | 0 <= i < |ds| :: low as real <= ds[i] <= high as real
  }

  /** The published rate, in frames a second: none yet, or one that some
      duration within the bounds yields. */
  ghost predicate RateWithin(fps: real, low: int, high: int) {
    fps != 0.0 ==> low as real * fps <= 1000000.0 <= high as real * fps
  }

  ghost predicate RateInv(r: Rate, stamps: seq<U64>, low: int, high: int) {
    && |r.durations| <= WINDOW
    && Within(r.durations, low, high)
    && (if r.lastId < 0 then r.lastStamp == 0 else r.lastId < |stamps| && r.lastStamp == stamps[r.lastId])
    && RateWithin(r.fps, low, high)
  }

  lemma {:induction false} SpanOfCadence(stamps: seq<U64>, low: int, high: int, i: nat, j: nat)
    requires Cadence(stamps, low, high) && i < j < |stamps|
    ensures 0 < low * (j - i) <= stamps[j] - stamps[i] <= high * (j - i)
    decreases j
  {
    if j > i + 1 {
      SpanOfCadence(stamps, low, high, i, j - 1);
      assert low * (j - i) == low * (j - 1 - i) + low && high * (j - i) == high * (j - 1 - i) + high;
    }
  }

  lemma Scaled(x: real, y: real, n: real)
    requires n > 0.0
    ensures x < y <==> x * n < y * n
  {
  }

  lemma QuotientBounds(x: real, n: real, low: int, high: int)
    requires n > 0.0 && low as real * n <= x <= high as real * n
    ensures low as real <= x / n <= high as real
  {
    assert x / n * n == x;
    Scaled(x / n, low as real, n);
    Scaled(high as real, x / n, n);
  }

  lemma {:induction false} SumBounds(ds: seq<real>, low: int, high: int)
    requires Within(ds, low, high)
    ensures low as real * |ds| as real <= Sum(ds) <= high as real * |ds| as real
  {
    if ds != [] {
      SumBounds(ds[..|ds| - 1], low, high);
      var n := |ds| as real;
      assert low as real * n == low as real * (n - 1.0) + low as real;
      assert high as real * n == high as real * (n - 1.0) + high as real;
    }
  }

  lemma AverageBounds(ds: seq<real>, low: int, high: int)
    requires Within(ds, low, high) && ds != []
    ensures low as real <= Average(ds) <= high as real
  {
    SumBounds(ds, low, high);
    QuotientBounds(Sum(ds), |ds| as real, low, high);
  }

  ghost predicate DurationWithin(d: Option<real>, low: int, high: int) {
    d.Some? ==> low as real <= d.value <= high as real
  }

  /** One duration is the time between two captures over their id distance,
      however many frames between them were dropped. */
  lemma DurationSeenIs(r: Rate, a: Arrival, stamps: seq<U64>, low: int, high: int)
    requires Cadence(stamps, low, high) && RateInv(r, stamps, low, high) && TrulyStamped(stamps, a)
    ensures DurationSeen(r, a).Some? <==> 0 <= r.lastId < a.id
    ensures DurationSeen(r, a).Some? ==>
              DurationSeen(r, a).value * (a.id - r.lastId) as real == (a.stamp - r.lastStamp) as real
    ensures DurationWithin(DurationSeen(r, a), low, high)
  {
    hide RateWithin, Within, Elapsed;
    if 0 <= r.lastId < a.id {
      SpanOfCadence(stamps, low, high, r.lastId, a.id);
      ElapsedIs(a.stamp, r.lastStamp);
      hide Cadence;
      GapBounds(a.stamp - r.lastStamp, a.id - r.lastId, low, high);
    }
  }

  lemma GapBounds(x: int, n: int, low: int, high: int)
    requires n > 0 && low * n <= x <= high * n
    ensures DurationWithin(Some(x as real / n as real), low, high)
    ensures x as real / n as real * n as real == x as real
  {
    assert (low * n) as real == low as real * n as real && (high * n) as real == high as real * n as real;
    QuotientBounds(x as real, n as real, low, high);
  }

  lemma InverseBounds(m: real, low: int, high: int)
    requires 0 < low && low as real <= m <= high as real
    ensures low as real * (1000000.0 / m) <= 1000000.0 <= high as real * (1000000.0 / m)
  {
    var f := 1000000.0 / m;
    assert f * m == 1000000.0;
    assert f > 0.0;
    assert low as real * f <= m * f <= high as real * f;
  }

  lemma RecordedKeeps(r: Rate, a: Arrival, stamps: seq<U64>, low: int, high: int)
    requires Cadence(stamps, low, high) && RateInv(r, stamps, low, high) && TrulyStamped(stamps, a)
    ensures RateInv(Recorded(r, a), stamps, low, high)
  {
    DurationSeenIs(r, a, stamps, low, high);
    var n := Noted(r, a);
    SlidKeeps(r.durations, DurationSeen(r, a), low, high);
    RefreshedKeeps(n, a.now, stamps, low, high);
    hide DurationSeen, DurationWithin, Average, Refreshed, Slid, Within, Cadence, RateWithin;
  }

  lemma SlidKeeps(ds: seq<real>, d: Option<real>, low: int, high: int)
    requires |ds| <= WINDOW && Within(ds, low, high)
    ensures d.Some? && DurationWithin(d, low, high) ==>
              |Slid(ds, d.value)| <= WINDOW && Within(Slid(ds, d.value), low, high)
  {
  }

  lemma RefreshedKeeps(r: Rate, now: int, stamps: seq<U64>, low: int, high: int)
    requires 0 < low
    ensures RateInv(r, stamps, low, high) ==> RateInv(Refreshed(r, now), stamps, low, high)
  {
    if r.durations != [] && Within(r.durations, low, high) {
      AverageBounds(r.durations, low, high);
      hide Average, Within;
      InverseBounds(Average(r.durations), low, high);
    }
  }

  lemma {:induction false} RecordedAllKeeps(r: Rate, arrivals: seq<Arrival>, stamps: seq<U64>, low: int, high: int)
    requires Cadence(stamps, low, high) && RateInv(r, stamps, low, high) && Stamped(stamps, arrivals)
    ensures RateInv(RecordedAll(r, arrivals), stamps, low, high)
    decreases |arrivals|
  {
    hide RateInv, Cadence, Recorded;
    if arrivals != [] {
      RecordedKeeps(r, arrivals[0], stamps, low, high);
      RecordedAllKeeps(Recorded(r, arrivals[0]), arrivals[1..], stamps, low, high);
    }
  }

  /** Whatever frames are dropped, repeated or delivered out of order, every
      duration in the window, their average and the published rate agree with
      the camera's true cadence. */
  lemma FrameRateRecovery(arrivals: seq<Arrival>, stamps: seq<U64>, low: int, high: int, start: int)
    requires Cadence(stamps, low, high) && Stamped(stamps, arrivals)
    ensures var r := RecordedAll(NewRate(start), arrivals);
            && |r.durations| <= WINDOW
            && Within(r.durations, low, high)
            && (r.durations != [] ==> low as real <= Average(r.durations) <= high as real)
            && RateWithin(r.fps, low, high)
  {
    RecordedAllKeeps(NewRate(start), arrivals, stamps, low, high);
    var r := RecordedAll(NewRate(start), arrivals);
    if r.durations != [] {
      AverageBounds(r.durations, low, high);
    }
  }

  /** A constant cadence is recovered exactly. */
  lemma ConstantCadenceIsExact(arrivals: seq<Arrival>, stamps: seq<U64>, period: int, start: int)
    requires Cadence(stamps, period, period) && Stamped(stamps, arrivals)
    ensures var r := RecordedAll(NewRate(start), arrivals);
            && (forall i | 0 <= i < |r.durations| :: r.durations[i] == period as real)
            && (r.fps == 0.0 || r.fps == 1000000.0 / period as real)
  {
    FrameRateRecovery(arrivals, stamps, period, period, start);
    OnlyRate(RecordedAll(NewRate(start), arrivals).fps, period);
    hide RateWithin, RecordedAll, Average;
  }

  lemma OnlyRate(fps: real, period: int)
    requires period > 0 && RateWithin(fps, period, period)
    ensures fps == 0.0 || fps == 1000000.0 / period as real
  {
  }

  // ---- What is recorded ----

  /** The durations a stream of frames shows, read off neighbouring arrivals
      alone: wherever the id rises, the time between the two captures over the
      rise. */
  function Rises(arrivals: seq<Arrival>): seq<real> {
    if |arrivals| < 2 then []
    else Rises(arrivals[..|arrivals| - 1]) + RiseOf(arrivals[|arrivals| - 2], arrivals[|arrivals| - 1])
  }

  function RiseOf(a: Arrival, b: Arrival): seq<real> {
    if b.id > a.id then [(b.stamp - a.stamp) as real / (b.id - a.id) as real] else []
  }

  lemma {:induction false} SeenSoFar(r: Rate, arrivals: seq<Arrival>, a: Arrival)
    ensures RecordedAll(r, arrivals + [a]) == Recorded(RecordedAll(r, arrivals), a)
    ensures var d := DurationSeen(RecordedAll(r, arrivals), a);
            AllSeen(r, arrivals + [a]) == AllSeen(r, arrivals) + if d.Some? then [d.value] else []
    decreases |arrivals|
  {
    hide DurationSeen, Recorded;
    if arrivals == [] {
      assert arrivals + [a] == [a] && [a][1..] == [];
      assert RecordedAll(Recorded(r, a), []) == Recorded(r, a) && AllSeen(Recorded(r, a), []) == [];
    } else {
      assert (arrivals + [a])[1..] == arrivals[1..] + [a] && (arrivals + [a])[0] == arrivals[0];
      SeenSoFar(Recorded(r, arrivals[0]), arrivals[1..], a);
    }
  }

  /** What is held after an arrival: its id, and its stamp if it has one. */
  lemma RecordedHolds(r: Rate, a: Arrival)
    ensures Recorded(r, a).lastId == a.id
    ensures Recorded(r, a).lastStamp == if a.stamp > 0 then a.stamp else r.lastStamp
  {
    hide DurationSeen, Average, Slid;
  }

  /** A duration seen is the newest of the window; without one the window stays. */
  lemma NewestIsSeen(r: Rate, a: Arrival)
    ensures var d, ds := DurationSeen(r, a), Recorded(r, a).durations;
            if d.Some? then ds != [] && ds[|ds| - 1] == d.value else ds == r.durations
  {
    hide DurationSeen, Average;
  }

  lemma RefreshTime(r: Rate, a: Arrival)
    ensures var n := Recorded(r, a);
            n.wall == if n.durations != [] && a.now - r.wall >= 1000 then a.now else r.wall
  {
    hide DurationSeen, Average, Slid;
  }

  /** For stamped frames the durations recorded are exactly those rises: every
      rise of the id is recorded once, and nothing else is. */
  lemma {:induction false} RisesAreRecorded(arrivals: seq<Arrival>, stamps: seq<U64>, low: int, high: int, start: int)
    requires Cadence(stamps, low, high) && Stamped(stamps, arrivals)
    ensures AllSeen(NewRate(start), arrivals) == Rises(arrivals)
    ensures arrivals != [] ==>
              var r, a := RecordedAll(NewRate(start), arrivals), arrivals[|arrivals| - 1];
              r.lastId == a.id && r.lastStamp == a.stamp
  {
    if arrivals != [] {
      var front, a := arrivals[..|arrivals| - 1], arrivals[|arrivals| - 1];
      var r := RecordedAll(NewRate(start), front);
      assert arrivals == front + [a];
      assert TrulyStamped(stamps, arrivals[|arrivals| - 1]);
      assert front != [] ==> TrulyStamped(stamps, arrivals[|front| - 1]);
      assert forall i | 0 <= i < |front| :: front[i] == arrivals[i];
      RisesAreRecorded(front, stamps, low, high, start);
      hide RecordedAll, Recorded, DurationSeen, Cadence, AllSeen, Stamped, RiseOf, TrulyStamped;
      SeenSoFar(NewRate(start), front, a);
      RecordedHolds(r, a);
      if front != [] {
        RiseIs(r, a, front[|front| - 1], stamps, low, high);
      } else {
        UnstampedIsDeclared(NewRate(start), a);
        StampedIsNonZero(stamps, a, low, high);
        assert front == [] && [] + [a] == [a];
        NothingYet(start);
      }
    } else {
      NothingYet(start);
    }
  }

  lemma NothingYet(start: int)
    ensures RecordedAll(NewRate(start), []) == NewRate(start) && AllSeen(NewRate(start), []) == []
  {
  }

  lemma StampedIsNonZero(stamps: seq<U64>, a: Arrival, low: int, high: int)
    requires Cadence(stamps, low, high) && TrulyStamped(stamps, a)
    ensures a.stamp > 0
  {
  }

  lemma RiseIs(r: Rate, a: Arrival, last: Arrival, stamps: seq<U64>, low: int, high: int)
    requires Cadence(stamps, low, high) && TrulyStamped(stamps, a) && TrulyStamped(stamps, last)
    requires r.lastId == last.id && r.lastStamp == last.stamp
    ensures var d := DurationSeen(r, a); RiseOf(last, a) == if d.Some? then [d.value] else []
    ensures DurationSeen(r, a).Some? <==> a.id > last.id
  {
    if a.id > last.id {
      SpanOfCadence(stamps, low, high, last.id, a.id);
      ElapsedIs(a.stamp, last.stamp);
    }
    hide Elapsed;
  }

  /** Without a timestamp the declared duration is recorded, if there is one;
      with a first timestamp nothing is. */
  lemma UnstampedIsDeclared(r: Rate, a: Arrival)
    ensures a.stamp == 0 ==> DurationSeen(r, a) == if a.declared > 0 then Some(a.declared as real) else None
    ensures a.stamp > 0 && (r.lastStamp == 0 || r.lastId < 0) ==> DurationSeen(r, a) == None
  {
  }

  // ---- What is published ----

  /** The sum the average is taken of is a sum. */
  lemma {:induction false} SumIsAdditive(ds: seq<real>, es: seq<real>, d: real)
    ensures Sum([]) == 0.0 && Sum([d]) == d && Sum(ds + es) == Sum(ds) + Sum(es)
    decreases |es|
  {
    assert [d][..0] == [];
    assert Sum([d]) == Sum([]) + d;
    if es == [] {
      assert ds + es == ds;
    } else {
      var all := ds + es;
      assert all[..|all| - 1] == ds + es[..|es| - 1];
      SumIsAdditive(ds, es[..|es| - 1], d);
    }
  }

  ghost predicate Positive(ds: seq<real>) {
    forall i | 0 <= i < |ds| :: ds[i] > 0.0
  }

  lemma {:induction false} SumIsPositive(ds: seq<real>)
    requires Positive(ds)
    ensures Sum(ds) >= 0.0 && (ds != [] ==> Sum(ds) > 0.0)
  {
    if ds != [] {
      SumIsPositive(ds[..|ds| - 1]);
    }
  }

  lemma DurationsArePositive(r: Rate, a: Arrival)
    requires Positive(r.durations)
    ensures Positive(Recorded(r, a).durations)
  {
    hide Average;
    var d := DurationSeen(r, a);
    if d.Some? && a.stamp > 0 {
      PositiveRatio(Elapsed(a.stamp, r.lastStamp), a.id - r.lastId);
    }
  }

  lemma PositiveRatio(x: int, n: int)
    requires x > 0 && n > 0
    ensures x as real / n as real > 0.0
  {
  }

  lemma {:induction false} WindowIsPositive(r: Rate, arrivals: seq<Arrival>)
    requires Positive(r.durations)
    ensures Positive(RecordedAll(r, arrivals).durations)
    decreases |arrivals|
  {
    if arrivals != [] {
      DurationsArePositive(r, arrivals[0]);
      hide Recorded, Positive;
      WindowIsPositive(Recorded(r, arrivals[0]), arrivals[1..]);
    }
  }

  /** The rate, in frames a second, of frames that take these durations, in
      microseconds: as many frames as there are in the time they take. */
  ghost predicate RateOf(fps: real, ds: seq<real>) {
    fps * Sum(ds) == 1000000.0 * |ds| as real
  }

  /** When a rate is published, and which: once the window is not empty and a
      second has gone since the last time, the rate of the window's durations;
      and otherwise nothing changes. */
  lemma PublishedExactly(r: Rate, a: Arrival)
    requires Positive(r.durations)
    ensures var n := Recorded(r, a);
            if n.durations != [] && a.now - r.wall >= 1000 then
              n.wall == a.now && RateOf(n.fps, n.durations)
            else n.wall == r.wall && n.fps == r.fps
  {
    DurationsArePositive(r, a);
    RefreshedIs(Noted(r, a), a.now);
    hide DurationSeen, Sum, Slid, Refreshed, Positive, RateOf;
  }

  lemma RefreshedIs(r: Rate, now: int)
    ensures var n := Refreshed(r, now);
            && n.durations == r.durations && n.lastId == r.lastId && n.lastStamp == r.lastStamp
            && if Positive(r.durations) && r.durations != [] && now - r.wall >= 1000 then
                 n.wall == now && RateOf(n.fps, r.durations)
               else r.durations == [] || now - r.wall < 1000 ==> n == r
  {
    if Positive(r.durations) && r.durations != [] {
      SumIsPositive(r.durations);
      hide Sum, Positive;
      MeanIs(Sum(r.durations), |r.durations| as real);
    }
  }

  lemma MeanIs(sum: real, n: real)
    requires sum > 0.0 && n > 0.0
    ensures sum / n > 0.0 && 1000000.0 / (sum / n) * sum == 1000000.0 * n
  {
    var m := sum / n;
    assert m * n == sum;
    assert 1000000.0 / m * m == 1000000.0;
    assert 1000000.0 / m * (m * n) == 1000000.0 / m * m * n;
  }

  /** A constant cadence is published: after any frames of it, a frame with a
      higher id than the last, a second or more after the last publication, sets
      the rate to what the period makes it. */
  lemma ConstantCadenceIsPublished(arrivals: seq<Arrival>, a: Arrival, stamps: seq<U64>, period: int, start: int)
    requires Cadence(stamps, period, period) && Stamped(stamps, arrivals) && TrulyStamped(stamps, a)
    requires arrivals != [] && a.id > arrivals[|arrivals| - 1].id
    requires a.now - RecordedAll(NewRate(start), arrivals).wall >= 1000
    ensures RecordedAll(NewRate(start), arrivals + [a]).fps == 1000000.0 / period as real
    ensures RecordedAll(NewRate(start), arrivals + [a]).wall == a.now
  {
    var r, all := RecordedAll(NewRate(start), arrivals), arrivals + [a];
    assert Stamped(stamps, all) by {
      forall i | 0 <= i < |all| ensures TrulyStamped(stamps, all[i]) {
        assert i < |arrivals| ==> TrulyStamped(stamps, arrivals[i]);
      }
    }
    assert TrulyStamped(stamps, arrivals[|arrivals| - 1]);
    hide *;
    SeenSoFar(NewRate(start), arrivals, a);
    ConstantCadenceIsExact(all, stamps, period, start);
    RisesAreRecorded(arrivals, stamps, period, period, start);
    RiseIsShown(r, a, arrivals[|arrivals| - 1], stamps, period);
    NewIsPositive(start);
    WindowIsPositive(NewRate(start), arrivals);
    PublishedExactly(r, a);
    NotZero(Recorded(r, a).fps, Recorded(r, a).durations);
  }

  lemma NewIsPositive(start: int)
    ensures Positive(NewRate(start).durations)
  {
  }

  lemma RiseIsShown(r: Rate, a: Arrival, last: Arrival, stamps: seq<U64>, period: int)
    requires Cadence(stamps, period, period) && TrulyStamped(stamps, a) && TrulyStamped(stamps, last)
    requires r.lastId == last.id && r.lastStamp == last.stamp && a.id > last.id
    ensures Recorded(r, a).durations != []
  {
    RiseIs(r, a, last, stamps, period, period);
    RefreshedIs(Noted(r, a), a.now);
    hide DurationSeen, Refreshed, Cadence, Sum;
  }

  lemma NotZero(fps: real, ds: seq<real>)
    requires RateOf(fps, ds) && ds != []
    ensures fps != 0.0
  {
  }

  // ---- The window ----

  /** Every duration that a run of arrivals shows, in order. */
  function AllSeen(r: Rate, arrivals: seq<Arrival>): seq<real>
    decreases |arrivals|
  {
    if arrivals == [] then []
    else
      var d := DurationSeen(r, arrivals[0]);
      (if d.Some? then [d.value] else []) + AllSeen(Recorded(r, arrivals[0]), arrivals[1..])
  }

  function Newest(ds: seq<real>): seq<real> {
    if |ds| <= WINDOW then ds else ds[|ds| - WINDOW..]
  }

  lemma DropOne(ds: seq<real>)
    requires |ds| > WINDOW
    ensures Newest(ds[1..]) == Newest(ds)
  {
  }

  lemma NewestOfMore(ds: seq<real>, rest: seq<real>)
    requires |ds| <= WINDOW + 1
    ensures Newest(Newest(ds) + rest) == Newest(ds + rest)
  {
    if |ds| > WINDOW {
      assert Newest(ds) == ds[1..];
      assert ds[1..] + rest == (ds + rest)[1..];
      DropOne(ds + rest);
      hide Newest;
    }
  }

  /** The window holds the ten newest durations seen, in order. */
  lemma {:induction false} WindowIsNewest(r: Rate, arrivals: seq<Arrival>)
    requires |r.durations| <= WINDOW
    ensures RecordedAll(r, arrivals).durations == Newest(r.durations + AllSeen(r, arrivals))
    decreases |arrivals|
  {
    if arrivals != [] {
      var d := DurationSeen(r, arrivals[0]);
      var next := Recorded(r, arrivals[0]);
      var first := if d.Some? then [d.value] else [];
      assert next.durations == Newest(r.durations + first) by {
        hide DurationSeen;
        assert d.None? ==> r.durations + first == r.durations;
      }
      hide DurationSeen, Recorded;
      WindowIsNewest(next, arrivals[1..]);
      hide Newest;
      NewestOfMore(r.durations + first, AllSeen(next, arrivals[1..]));
      Seqs.Regroup(r.durations, first, AllSeen(next, arrivals[1..]));
    } else {
      assert r.durations + [] == r.durations;
    }
  }

  // ---- Frames without a timestamp ----

  lemma {:induction false} ConstantSpan(stamps: seq<U64>, period: int, i: nat)
    requires Cadence(stamps, period, period) && i < |stamps|
    ensures stamps[i] == stamps[0] + period * i
  {
    if i > 0 {
      ConstantSpan(stamps, period, i - 1);
      assert period * i == period * (i - 1) + period;
    }
  }

  /** A frame without a timestamp moves the last id but not the last stamp.
      When the stamp held is that of frame `m` and the last id is `l`, the next
      stamped frame `k` shows the true period exactly when `m` is `l`: also for
      `m > k`, where the difference wraps. */
  lemma DurationExactIff(r: Rate, a: Arrival, stamps: seq<U64>, period: int, m: nat, l: nat)
    requires Cadence(stamps, period, period) && TrulyStamped(stamps, a)
    requires m < |stamps| && l < a.id
    requires r.lastStamp == stamps[m] && r.lastId == l
    ensures DurationSeen(r, a) == Some(period as real) <==> m == l
  {
    var k := a.id;
    ConstantSpan(stamps, period, m);
    ConstantSpan(stamps, period, l);
    ConstantSpan(stamps, period, k);
    Product(period, m, l);
    Product(period, m, k);
    Product(period, k, l);
    ElapsedIs(stamps[k], stamps[m]);
    hide Elapsed, Cadence;
    QuotientIs(Elapsed(stamps[k], stamps[m]), k - l, period);
  }

  lemma Product(p: int, i: int, j: int)
    requires p > 0
    ensures p * (i - j) == p * i - p * j
    ensures p * i < p * j <==> i < j
    ensures p * i == p * j <==> i == j
  {
    if i < j {
      assert p * (j - i) > 0;
    } else if i > j {
      assert p * (i - j) > 0;
    }
  }

  lemma ElapsedIs(later: U64, earlier: U64)
    ensures Elapsed(later, earlier) == if earlier <= later then later - earlier else later - earlier + TICKS
  {
  }

  lemma QuotientIs(x: int, n: int, p: int)
    requires n > 0
    ensures x as real / n as real == p as real <==> x == p * n
  {
    assert x as real / n as real * n as real == x as real;
    assert (p * n) as real == p as real * n as real;
  }

  /** Frames 1, 2 and 3 at a 100 us period, the second without its timestamp
      and duration: the third shows 200 us. */
  lemma ZeroTimestampSkews()
    ensures var arrivals := [Arrival(1, 1100, 0, 0), Arrival(2, 0, 0, 0), Arrival(3, 1300, 0, 0)];
            RecordedAll(NewRate(0), arrivals).durations == [200.0]
  {
    var a, b, c := Arrival(1, 1100, 0, 0), Arrival(2, 0, 0, 0), Arrival(3, 1300, 0, 0);
    var r1 := Recorded(NewRate(0), a);
    var r2 := Recorded(r1, b);
    assert r2 == Rate([], 1100, 2, 0, 0.0);
    assert Recorded(r2, c).durations == [200.0];
    assert RecordedAll(r2, [c]) == Recorded(r2, c);
    assert [b, c][1..] == [c] && [a, b, c][1..] == [b, c];
  }
}
