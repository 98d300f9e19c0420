/**
 Who may hold a pooled buffer, over every interleaving of the network threads,
 the display thread and the capture holders. A buffer's reference count is the
 number of places that hold it. `release` is split as in the source: the
 use_count test without the lock, then the locked push (or the drop).
 */
module BufferOwnership {
  import opened PoolPolicy

  type Buf = nat

  /** A shared_ptr somewhere in the program. */
  datatype Loc =
    | NetLocal(net: nat)             // the buffer a network thread is filling or delivering
    | InFlight(net: nat, uuid: nat)  // staged by that thread's reassembler
    | Evicted(net: nat)              // the slot's previous frame, inside publishFrame
    | Slot(cam: nat)                 // a camera's latest frame
    | Consumer(id: nat)              // a consumeIfNew copy
    | CaptureRef(id: nat)            // a stored or queued capture

  /** `free` is the pool; `passed` and `failed` are the locations inside
      release whose test saw one reference, or more than one. */
  datatype State = State(free: seq<Buf>, held: map<Loc, Buf>, passed: set<Loc>, failed: set<Loc>, next: Buf)

  const INIT := State([], map[], {}, {}, 0)

  function Holders(s: State, b: Buf): set<Loc> {
    set l | l in s.held && s.held[l] == b
  }

  function InPool(s: State, b: Buf): set<nat> {
    set i: nat | i < |s.free| && s.free[i] == b
  }

  function UseCount(s: State, b: Buf): nat {
    |Holders(s, b)| + |InPool(s, b)|
  }

  predicate Idle(s: State, l: Loc) {
    l in s.held && l !in s.passed && l !in s.failed
  }

  predicate Releasable(l: Loc) {
    l.NetLocal? || l.Evicted? || l.Consumer?
  }

  // ---- Elementary changes ----

  function Move(s: State, from: Loc, to: Loc): State
    requires from in s.held
  {
    s.(held := (s.held - {from})[to := s.held[from]])
  }

  function Copy(s: State, from: Loc, to: Loc): State
    requires from in s.held
  {
    s.(held := s.held[to := s.held[from]])
  }

  function Forget(s: State, ls: set<Loc>): State {
    s.(held := s.held - ls)
  }

  function TakeFree(s: State, to: Loc): State {
    if s.free != [] then s.(free := s.free[..|s.free| - 1], held := s.held[to := s.free[|s.free| - 1]])
    else s.(held := s.held[to := s.next], next := s.next + 1)
  }

  // ---- The steps of the program ----

  datatype Step =
    | Acquire(net: nat)
    | Stage(net: nat, uuid: nat)
    | DropRepeat(net: nat)
    | Complete(net: nat, uuid: nat)
    | DropOverflow(net: nat, uuid: nat)
    | Publish(net: nat, cam: nat)
    | StoreCapture(net: nat, id: nat)
    | CopyCapture(id: nat, id2: nat)
    | DropCapture(id: nat)
    | Consume(id: nat, cam: nat)
    | DropConsumer(id: nat)
    | ClearSlots
    | TestRelease(loc: Loc)
    | FinishRelease(loc: Loc)

  predicate Enabled(s: State, st: Step) {
    match st
    case Acquire(n) => NetLocal(n) !in s.held
    case Stage(n, u) => Idle(s, NetLocal(n)) && InFlight(n, u) !in s.held
    case DropRepeat(n) => Idle(s, NetLocal(n))
    // Also how sweep and reset take an entry out before releasing its buffer.
    case Complete(n, u) => InFlight(n, u) in s.held && NetLocal(n) !in s.held
    case DropOverflow(n, u) => InFlight(n, u) in s.held
    case Publish(n, c) => Idle(s, NetLocal(n)) && Evicted(n) !in s.held
    case StoreCapture(n, k) => Idle(s, NetLocal(n)) && CaptureRef(k) !in s.held
    case CopyCapture(k, k2) => CaptureRef(k) in s.held && CaptureRef(k2) !in s.held
    case DropCapture(k) => CaptureRef(k) in s.held
    case Consume(i, c) => Slot(c) in s.held && Consumer(i) !in s.held
    case DropConsumer(i) => Idle(s, Consumer(i))
    case ClearSlots => true
    case TestRelease(l) => Idle(s, l) && Releasable(l)
    case FinishRelease(l) => l in s.held && (l in s.passed || l in s.failed)
  }

  function Slots(s: State): set<Loc> {
    set l | l in s.held && l.Slot?
  }

  function Apply(s: State, st: Step): State
    requires Enabled(s, st)
  {
    match st
    case Acquire(n) => TakeFree(s, NetLocal(n))
    case Stage(n, u) => Move(s, NetLocal(n), InFlight(n, u))
    case DropRepeat(n) => Forget(s, {NetLocal(n)})
    case Complete(n, u) => Move(s, InFlight(n, u), NetLocal(n))
    case DropOverflow(n, u) => Forget(s, {InFlight(n, u)})
    case Publish(n, c) => Move(EvictSlot(s, n, c), NetLocal(n), Slot(c))
    case StoreCapture(n, k) => Move(s, NetLocal(n), CaptureRef(k))
    case CopyCapture(k, k2) => Copy(s, CaptureRef(k), CaptureRef(k2))
    case DropCapture(k) => Forget(s, {CaptureRef(k)})
    case Consume(i, c) => Copy(s, Slot(c), Consumer(i))
    case DropConsumer(i) => Forget(s, {Consumer(i)})
    case ClearSlots => Forget(s, Slots(s))
    case TestRelease(l) =>
      if UseCount(s, s.held[l]) > 1 then s.(failed := s.failed + {l}) else s.(passed := s.passed + {l})
    case FinishRelease(l) =>
      Forget(s, {l}).(free := if l in s.passed then Pushed(s.free, s.held[l]) else s.free,
                      passed := s.passed - {l}, failed := s.failed - {l})
  }

  function EvictSlot(s: State, net: nat, cam: nat): (r: State)
    ensures forall l | l in s.held && l != Slot(cam) && l != Evicted(net) :: l in r.held && r.held[l] == s.held[l]
  {
    if Slot(cam) in s.held then Move(s, Slot(cam), Evicted(net)) else s
  }

  // ---- The invariant ----

  /** `l` is the only reference to the buffer it holds. */
  ghost predicate Sole(s: State, l: Loc) {
    && l in s.held
    && (forall l2 | l2 in s.held && s.held[l2] == s.held[l] :: l2 == l)
    && s.held[l] !in s.free
  }

  /** Locations whose buffer is written, or about to enter the pool. */
  ghost predicate Exclusive(s: State, l: Loc) {
    l.NetLocal? || l.InFlight? || l in s.passed
  }

  ghost predicate Inv(s: State) {
    && |s.free| <= POOL_CAP
    && (forall i, j | 0 <= i < j < |s.free| :: s.free[i] != s.free[j])
    && (forall l | l in s.held :: s.held[l] !in s.free && s.held[l] < s.next)
    && (forall b | b in s.free :: b < s.next)
    && (forall l | l in s.held && Exclusive(s, l) :: Sole(s, l))
    && (forall l | l in s.passed + s.failed :: l in s.held && Releasable(l))
  }

  lemma MoveKeeps(s: State, from: Loc, to: Loc)
    requires Inv(s) && Idle(s, from) && to !in s.held
    requires Exclusive(s, to) ==> Exclusive(s, from)
    ensures Inv(Move(s, from, to))
  {
    var r := Move(s, from, to);
    forall l | l in r.held && Exclusive(r, l)
      ensures Sole(r, l)
    {
      assert Sole(s, if l == to then from else l);
    }
  }

  lemma CopyKeeps(s: State, from: Loc, to: Loc)
    requires Inv(s) && from in s.held && to !in s.held && !Exclusive(s, from) && !Exclusive(s, to)
    ensures Inv(Copy(s, from, to))
  {
    var r := Copy(s, from, to);
    forall l | l in r.held && Exclusive(r, l)
      ensures Sole(r, l)
    {
      assert Sole(s, l);
    }
  }

  lemma ForgetKeeps(s: State, ls: set<Loc>)
    requires Inv(s) && ls !! (s.passed + s.failed)
    ensures Inv(Forget(s, ls))
  {
    var r := Forget(s, ls);
    forall l | l in r.held && Exclusive(r, l)
      ensures Sole(r, l)
    {
      assert Sole(s, l);
    }
  }

  lemma TakeFreeKeeps(s: State, to: Loc)
    requires Inv(s) && to !in s.held && to.NetLocal?
    ensures Inv(TakeFree(s, to)) && Sole(TakeFree(s, to), to)
  {
    var r := TakeFree(s, to);
    var b := r.held[to];
    if s.free != [] {
      assert b in s.free && forall x | x in r.free :: x in s.free;
    }
    assert b !in r.free;
    forall l | l in r.held && l != to
      ensures r.held[l] !in r.free && r.held[l] < r.next && r.held[l] != b
      ensures Exclusive(r, l) ==> Sole(r, l)
    {
      assert Exclusive(s, l) ==> Sole(s, l);
      assert s.held[l] !in s.free && s.held[l] < s.next;
    }
  }

  lemma AtMostOne<T>(xs: set<T>, x: T)
    requires x in xs
    ensures |xs| <= 1 <==> xs == {x}
  {
    assert xs == {x} + (xs - {x});
  }

  /** One reference counted means no other holder, in the pool or out of it. */
  lemma CountedOnce(s: State, l: Loc)
    requires Inv(s) && l in s.held
    ensures UseCount(s, s.held[l]) <= 1 <==> Sole(s, l)
  {
    var b := s.held[l];
    assert InPool(s, b) == {};
    AtMostOne(Holders(s, b), l);
    assert Holders(s, b) == {l} <==> Sole(s, l) by {
      assert forall l2 :: l2 in Holders(s, b) <==> l2 in s.held && s.held[l2] == b;
    }
  }

  lemma TestKeeps(s: State, l: Loc)
    requires Inv(s) && Enabled(s, TestRelease(l))
    ensures Inv(Apply(s, TestRelease(l)))
  {
    CountedOnce(s, l);
    hide UseCount;
    var r := Apply(s, TestRelease(l));
    forall l2 | l2 in r.held && Exclusive(r, l2)
      ensures Sole(r, l2)
    {
      assert Sole(s, l2);
    }
  }

  lemma FinishKeeps(s: State, l: Loc)
    requires Inv(s) && Enabled(s, FinishRelease(l))
    ensures Inv(Apply(s, FinishRelease(l)))
  {
    var r := Apply(s, FinishRelease(l));
    var b := s.held[l];
    if l in s.passed {
      assert Sole(s, l);
      assert forall x | x in r.free :: x in s.free || x == b;
    }
    forall l2 | l2 in r.held
      ensures r.held[l2] !in r.free && r.held[l2] < r.next
      ensures Exclusive(r, l2) ==> Sole(r, l2)
    {
      assert Exclusive(s, l2) ==> Sole(s, l2);
    }
  }

  lemma PublishKeeps(s: State, n: nat, c: nat)
    requires Inv(s) && Enabled(s, Publish(n, c))
    ensures Inv(Apply(s, Publish(n, c)))
  {
    if Slot(c) in s.held {
      MoveKeeps(s, Slot(c), Evicted(n));
    }
    MoveKeeps(EvictSlot(s, n, c), NetLocal(n), Slot(c));
  }

  lemma StepKeeps(s: State, st: Step)
    requires Inv(s) && Enabled(s, st)
    ensures Inv(Apply(s, st))
  {
    match st
    case Acquire(n) => TakeFreeKeeps(s, NetLocal(n));
    case Stage(n, u) => MoveKeeps(s, NetLocal(n), InFlight(n, u));
    case DropRepeat(n) => ForgetKeeps(s, {NetLocal(n)});
    case Complete(n, u) => MoveKeeps(s, InFlight(n, u), NetLocal(n));
    case DropOverflow(n, u) => ForgetKeeps(s, {InFlight(n, u)});
    case Publish(n, c) => PublishKeeps(s, n, c);
    case StoreCapture(n, k) => MoveKeeps(s, NetLocal(n), CaptureRef(k));
    case CopyCapture(k, k2) => CopyKeeps(s, CaptureRef(k), CaptureRef(k2));
    case DropCapture(k) => ForgetKeeps(s, {CaptureRef(k)});
    case Consume(i, c) => CopyKeeps(s, Slot(c), Consumer(i));
    case DropConsumer(i) => ForgetKeeps(s, {Consumer(i)});
    case ClearSlots => ForgetKeeps(s, Slots(s));
    case TestRelease(l) => TestKeeps(s, l);
    case FinishRelease(l) => FinishKeeps(s, l);
  }

  // ---- Every interleaving ----

  ghost predicate IsRun(s: State, steps: seq<Step>)
    decreases |steps|
  {
    steps == [] || (Enabled(s, steps[0]) && IsRun(Apply(s, steps[0]), steps[1..]))
  }

  ghost function Final(s: State, steps: seq<Step>): State
    requires IsRun(s, steps)
    decreases |steps|
  {
    if steps == [] then s else Final(Apply(s, steps[0]), steps[1..])
  }

  lemma {:induction false} RunKeeps(s: State, steps: seq<Step>)
    requires Inv(s) && IsRun(s, steps)
    ensures Inv(Final(s, steps))
    decreases |steps|
  {
    hide Inv, Enabled, Apply;
    if steps != [] {
      StepKeeps(s, steps[0]);
      RunKeeps(Apply(s, steps[0]), steps[1..]);
    }
  }

  /** After any interleaving the pool holds at most sixteen distinct buffers
      that nothing else refers to; whatever a network thread writes to, staged
      or in its hands, nobody else holds; and a release that saw a single
      reference still sees one when it pushes. */
  lemma OwnershipIsSafe(steps: seq<Step>)
    requires IsRun(INIT, steps)
    ensures var s := Final(INIT, steps);
            && |s.free| <= POOL_CAP
            && (forall i, j | 0 <= i < j < |s.free| :: s.free[i] != s.free[j])
            && (forall l | l in s.held :: s.held[l] !in s.free)
            && forall l, l2 | l in s.held && l2 in s.held && l != l2 && (l.NetLocal? || l.InFlight? || l in s.passed) ::
                 s.held[l] != s.held[l2]
  {
    RunKeeps(INIT, steps);
    var s := Final(INIT, steps);
    forall l, l2 | l in s.held && l2 in s.held && l != l2 && (l.NetLocal? || l.InFlight? || l in s.passed)
      ensures s.held[l] != s.held[l2]
    {
      assert Exclusive(s, l) && Sole(s, l);
    }
  }

  /** In particular, acquire hands out a buffer no one is reading. */
  lemma AcquireIsExclusive(steps: seq<Step>, n: nat)
    requires IsRun(INIT, steps) && Enabled(Final(INIT, steps), Acquire(n))
    ensures var s := Final(INIT, steps);
            var b := Apply(s, Acquire(n)).held[NetLocal(n)];
            UseCount(s, b) == (if s.free == [] then 0 else 1) && Holders(s, b) == {}
  {
    RunKeeps(INIT, steps);
    var s := Final(INIT, steps);
    var b := Apply(s, Acquire(n)).held[NetLocal(n)];
    if s.free != [] {
      assert InPool(s, b) == {|s.free| - 1};
    } else {
      assert InPool(s, b) == {};
    }
    assert Holders(s, b) == {};
  }

  // ---- When a release recycles ----

  /** No step but its own end takes a tested release out of its place, its
      buffer or its verdict. */
  lemma StepLeavesTested(s: State, l: Loc, st: Step)
    requires Inv(s) && Enabled(s, st) && st != FinishRelease(l) && l in s.passed + s.failed
    ensures var t := Apply(s, st);
            && l in t.held && t.held[l] == s.held[l]
            && (l in t.passed <==> l in s.passed) && (l in t.failed <==> l in s.failed)
  {
    hide UseCount;
  }

  lemma {:induction false} RunLeavesTested(s: State, l: Loc, steps: seq<Step>)
    requires Inv(s) && IsRun(s, steps) && FinishRelease(l) !in steps && l in s.passed + s.failed
    ensures var t := Final(s, steps);
            && Inv(t) && l in t.held && t.held[l] == s.held[l]
            && (l in t.passed <==> l in s.passed) && (l in t.failed <==> l in s.failed)
    decreases |steps|
  {
    if steps != [] {
      assert steps[0] in steps && forall st | st in steps[1..] :: st in steps;
      StepLeavesTested(s, l, steps[0]);
      StepKeeps(s, steps[0]);
      hide Inv, Enabled, Apply;
      RunLeavesTested(Apply(s, steps[0]), l, steps[1..]);
    }
  }

  /** What a release comes to, whatever the other threads do between its test
      and its end: the buffer is recycled exactly when the test saw the last
      reference and the pool then has room. */
  lemma ReleaseRecyclesExactly(s: State, l: Loc, steps: seq<Step>)
    requires Inv(s) && Enabled(s, TestRelease(l))
    requires IsRun(Apply(s, TestRelease(l)), steps) && FinishRelease(l) !in steps
    ensures var t := Final(Apply(s, TestRelease(l)), steps);
            && Enabled(t, FinishRelease(l)) && t.held[l] == s.held[l]
            && (s.held[l] in Apply(t, FinishRelease(l)).free <==> UseCount(s, s.held[l]) == 1 && |t.free| < POOL_CAP)
  {
    StepKeeps(s, TestRelease(l));
    RunLeavesTested(Apply(s, TestRelease(l)), l, steps);
    SomeReference(s, l);
    EndOfRelease(Final(Apply(s, TestRelease(l)), steps), l);
    hide Inv, IsRun, Final, UseCount;
  }

  lemma SomeReference(s: State, l: Loc)
    requires l in s.held
    ensures UseCount(s, s.held[l]) >= 1
  {
    assert l in Holders(s, s.held[l]);
  }

  lemma EndOfRelease(t: State, l: Loc)
    requires Inv(t) && l in t.held && l in t.passed + t.failed
    ensures Enabled(t, FinishRelease(l))
    ensures t.held[l] in Apply(t, FinishRelease(l)).free <==> l in t.passed && |t.free| < POOL_CAP
  {
  }

  /** In particular when nothing happens in between. */
  lemma UninterruptedReleaseRecyclesExactly(s: State, l: Loc)
    requires Inv(s) && Enabled(s, TestRelease(l))
    ensures var t := Apply(s, TestRelease(l));
            Enabled(t, FinishRelease(l))
            && (s.held[l] in Apply(t, FinishRelease(l)).free <==> UseCount(s, s.held[l]) == 1 && |s.free| < POOL_CAP)
  {
    ReleaseRecyclesExactly(s, l, []);
    hide UseCount, Inv;
  }

  /** Two releases of one buffer that overlap -- `second` tests after `first`
      has tested and before it has ended -- never recycle it, in whichever order
      they end and whatever else goes on: each ends, at `t1` and `t2`, without
      the buffer in the pool. */
  lemma OverlapNeverRecycles(s: State, first: Loc, second: Loc, between: seq<Step>, to1: seq<Step>, to2: seq<Step>)
    requires Inv(s) && first != second && Enabled(s, TestRelease(first))
    requires IsRun(Apply(s, TestRelease(first)), between) && FinishRelease(first) !in between
    requires var t := Final(Apply(s, TestRelease(first)), between);
             && Enabled(t, TestRelease(second)) && t.held[second] == s.held[first]
             && IsRun(Apply(t, TestRelease(second)), to1) && FinishRelease(first) !in to1
             && IsRun(Apply(t, TestRelease(second)), to2) && FinishRelease(second) !in to2
    ensures var t := Apply(Final(Apply(s, TestRelease(first)), between), TestRelease(second));
            var t1, t2 := Final(t, to1), Final(t, to2);
            && Enabled(t1, FinishRelease(first)) && s.held[first] !in Apply(t1, FinishRelease(first)).free
            && Enabled(t2, FinishRelease(second)) && s.held[first] !in Apply(t2, FinishRelease(second)).free
  {
    var t := Final(Apply(s, TestRelease(first)), between);
    StepKeeps(s, TestRelease(first));
    RunLeavesTested(Apply(s, TestRelease(first)), first, between);
    TwoReferences(t, first, second);
    StepLeavesTested(t, first, TestRelease(second));
    StepKeeps(t, TestRelease(second));
    RunLeavesTested(Apply(t, TestRelease(second)), first, to1);
    RunLeavesTested(Apply(t, TestRelease(second)), second, to2);
    EndOfRelease(Final(Apply(t, TestRelease(second)), to1), first);
    EndOfRelease(Final(Apply(t, TestRelease(second)), to2), second);
    hide Inv, IsRun, Final, UseCount;
  }

  lemma TwoReferences(s: State, a: Loc, b: Loc)
    requires Inv(s) && a != b && a in s.held && b in s.held && s.held[a] == s.held[b]
    ensures UseCount(s, s.held[a]) > 1 && a !in s.passed && b !in s.passed
  {
    var hs := Holders(s, s.held[a]);
    assert hs == {a, b} + (hs - {a, b});
    assert a in s.passed ==> Exclusive(s, a) && Sole(s, a);
    assert b in s.passed ==> Exclusive(s, b) && Sole(s, b);
  }

  /** Two releases of the last two references, say an eviction's and a
      consumer's, when `second` tests before `first` has dropped: both see two
      references and the buffer is freed, whichever ends first. It does not
      always return to the pool "on whichever release later observes the final
      reference". */
  lemma OverlappingReleasesLoseTheBuffer(s: State, first: Loc, second: Loc)
    requires Inv(s) && first != second && Idle(s, first) && Idle(s, second) && Releasable(first) && Releasable(second)
    requires s.held[first] == s.held[second] && UseCount(s, s.held[first]) == 2
    ensures var t := Apply(Apply(s, TestRelease(first)), TestRelease(second));
            var u := Apply(Apply(t, FinishRelease(first)), FinishRelease(second));
            var v := Apply(Apply(t, FinishRelease(second)), FinishRelease(first));
            u == v && Holders(u, s.held[first]) == {} && s.held[first] !in u.free
  {
    hide Apply, Enabled, UseCount, InPool;
    var b := s.held[first];
    TwoHolders(s, first, second);
    var s1 := s.(failed := s.failed + {first});
    var s2 := s1.(failed := s1.failed + {second});
    CountIgnoresTests(s, s1.failed, b);
    FailedTest(s, first);
    FailedTest(s1, second);
    DropEffect(s2, first);
    DropEffect(Apply(s2, FinishRelease(first)), second);
    DropEffect(s2, second);
    DropEffect(Apply(s2, FinishRelease(second)), first);
    var u := Apply(Apply(s2, FinishRelease(first)), FinishRelease(second));
    assert u.held == s.held - {first, second} && u.failed == s2.failed - {first, second};
    var v := Apply(Apply(s2, FinishRelease(second)), FinishRelease(first));
    assert v.held == s.held - {first, second} && v.failed == s2.failed - {first, second};
    forall l | l in u.held
      ensures u.held[l] != b
    {
      assert l !in Holders(s, b);
    }
    assert Holders(u, b) == {};
  }

  lemma FailedTest(s: State, l: Loc)
    requires Idle(s, l) && Releasable(l) && UseCount(s, s.held[l]) > 1
    ensures Enabled(s, TestRelease(l)) && Apply(s, TestRelease(l)) == s.(failed := s.failed + {l})
  {
    hide UseCount;
  }

  lemma DropEffect(s: State, l: Loc)
    requires l in s.held && l in s.failed && l !in s.passed
    ensures Enabled(s, FinishRelease(l))
    ensures Apply(s, FinishRelease(l)) == s.(held := s.held - {l}, failed := s.failed - {l})
  {
    assert s.passed - {l} == s.passed;
  }

  lemma CountIgnoresTests(s: State, failed: set<Loc>, b: Buf)
    ensures UseCount(s.(failed := failed), b) == UseCount(s, b)
  {
    assert Holders(s.(failed := failed), b) == Holders(s, b);
    assert InPool(s.(failed := failed), b) == InPool(s, b);
  }

  /** The same two releases one after the other recycle it. */
  lemma SeparateReleasesRecycle(s: State, first: Loc, second: Loc)
    requires Inv(s) && first != second && Idle(s, first) && Idle(s, second) && Releasable(first) && Releasable(second)
    requires s.held[first] == s.held[second] && UseCount(s, s.held[first]) == 2 && |s.free| < POOL_CAP
    ensures var s1 := Apply(s, TestRelease(first));
            var s2 := Apply(s1, FinishRelease(first));
            var s3 := Apply(s2, TestRelease(second));
            var s4 := Apply(s3, FinishRelease(second));
            s4.free == s.free + [s.held[first]]
  {
    var b := s.held[first];
    TwoHolders(s, first, second);
    hide Apply, Enabled;
    FailedTest(s, first);
    var s1 := s.(failed := s.failed + {first});
    DropEffect(s1, first);
    var s2 := s1.(held := s.held - {first}, failed := s1.failed - {first});
    assert Holders(s2, b) == Holders(s, b) - {first} == {second};
    assert InPool(s2, b) == InPool(s, b) == {};
    PassedTest(s2, second);
    PushEffect(s2.(passed := s2.passed + {second}), second);
    hide InPool, Holders, UseCount;
  }

  lemma PassedTest(s: State, l: Loc)
    requires Idle(s, l) && Releasable(l) && UseCount(s, s.held[l]) <= 1
    ensures Enabled(s, TestRelease(l)) && Apply(s, TestRelease(l)) == s.(passed := s.passed + {l})
  {
    hide UseCount;
  }

  lemma PushEffect(s: State, l: Loc)
    requires l in s.held && l in s.passed && |s.free| < POOL_CAP
    ensures Enabled(s, FinishRelease(l)) && Apply(s, FinishRelease(l)).free == s.free + [s.held[l]]
  {
  }

  lemma TwoHolders(s: State, a: Loc, b: Loc)
    requires Inv(s) && a != b && a in s.held && b in s.held && s.held[a] == s.held[b]
    requires UseCount(s, s.held[a]) == 2
    ensures Holders(s, s.held[a]) == {a, b} && InPool(s, s.held[a]) == {}
  {
    var hs := Holders(s, s.held[a]);
    assert InPool(s, s.held[a]) == {};
    assert hs == {a, b} + (hs - {a, b});
  }

  /** Such a pair of references does arise: publish, consume, publish again. */
  lemma SharedEvictionArises()
    ensures var steps := [Acquire(0), Publish(0, 0), Consume(0, 0), Acquire(0), Publish(0, 0)];
            IsRun(INIT, steps) && Final(INIT, steps).held == map[Evicted(0) := 0, Slot(0) := 1, Consumer(0) := 0]
  {
    var s1 := State([], map[NetLocal(0) := 0], {}, {}, 1);
    var s2 := State([], map[Slot(0) := 0], {}, {}, 1);
    var s3 := State([], map[Slot(0) := 0, Consumer(0) := 0], {}, {}, 1);
    var s4 := State([], map[Slot(0) := 0, Consumer(0) := 0, NetLocal(0) := 1], {}, {}, 2);
    assert Apply(s1, Publish(0, 0)).held == s2.held;
    assert Apply(s4, Publish(0, 0)).held == map[Evicted(0) := 0, Slot(0) := 1, Consumer(0) := 0];
    Unroll(s4, Publish(0, 0), []);
    hide IsRun, Final;
    Unroll(s3, Acquire(0), [Publish(0, 0)]);
    Unroll(s2, Consume(0, 0), [Acquire(0), Publish(0, 0)]);
    Unroll(s1, Publish(0, 0), [Consume(0, 0), Acquire(0), Publish(0, 0)]);
    Unroll(INIT, Acquire(0), [Publish(0, 0), Consume(0, 0), Acquire(0), Publish(0, 0)]);
  }

  lemma Unroll(s: State, st: Step, rest: seq<Step>)
    requires Enabled(s, st) && IsRun(Apply(s, st), rest)
    ensures IsRun(s, [st] + rest) && Final(s, [st] + rest) == Final(Apply(s, st), rest)
  {
    assert ([st] + rest)[1..] == rest;
  }
}
