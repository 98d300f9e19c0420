/**
 The client's capture rendezvous, as functions on its value
 (src/client/Client.cpp:177-291): results, refusals and frames, reported by
 several connections in any interleaving, are collected per armed server.
 */
module Rendezvous {
  import opened Bytes
  import opened Options
  import opened Protocol
  import opened CaptureBooks

  datatype Pending = Pending(
    done: bool, acked: bool, id: U32, expected: nat, refusal: string,
    captures: seq<Entry>, frames: seq<CapturedFrame>)

  const NEW_PENDING := Pending(false, false, 0, 0, "", [], [])

  datatype Waiting = Waiting(active: bool, kind: CaptureKind, pending: map<nat, Pending>)

  /** A report of one connection. */
  datatype Arrival = From(server: nat, report: Report)

  // ---- One armed server ----

  function HeardResult(
    p: Pending, kind: CaptureKind, k: CaptureKind, id: U32, expected: nat, captures: seq<Entry>): Pending {
    if k != kind || p.acked then p
    else p.(acked := true, id := id, expected := expected, captures := captures, done := expected == 0)
  }

  function HeardRefusal(p: Pending, kind: CaptureKind, k: CaptureKind, message: string): Pending {
    if k != kind || p.acked then p else p.(refusal := message, done := true)
  }

  /** Whether a frame is taken up as one of this server's. */
  predicate Takes(p: Pending, kind: CaptureKind, f: CapturedFrame) {
    KindOf(f) == kind && p.acked && !p.done && f.captureId == Low16(p.id)
  }

  function HeardFrame(p: Pending, kind: CaptureKind, f: CapturedFrame): Pending {
    if Takes(p, kind, f) then p.(frames := p.frames + [f], done := |p.frames| + 1 >= p.expected) else p
  }

  function Heard(p: Pending, kind: CaptureKind, r: Report): Pending {
    match r
    case Result(k, id, captures) => HeardResult(p, kind, k, id, |Announced(k, captures)|, captures)
    case Refused(k, message) => HeardRefusal(p, kind, k, message)
    case FrameIn(f, _, _) => HeardFrame(p, kind, f)
  }

  function HeardAll(p: Pending, kind: CaptureKind, rs: seq<Report>): Pending {
    if rs == [] then p else Heard(HeardAll(p, kind, rs[..|rs| - 1]), kind, rs[|rs| - 1])
  }

  // ---- All of them ----

  function Hear(c: Waiting, a: Arrival): Waiting {
    if c.active && a.server in c.pending then
      c.(pending := c.pending[a.server := Heard(c.pending[a.server], c.kind, a.report)])
    else c
  }

  function HearAll(c: Waiting, arrivals: seq<Arrival>): Waiting {
    if arrivals == [] then c else Hear(HearAll(c, arrivals[..|arrivals| - 1]), arrivals[|arrivals| - 1])
  }

  function Armed(kind: CaptureKind, connected: seq<bool>): Waiting {
    Waiting(true, kind, map s: nat | s < |connected| && connected[s] :: NEW_PENDING)
  }

  function Pruned(c: Waiting, sent: seq<nat>): Waiting {
    c.(pending := map s | s in c.pending && s in sent :: c.pending[s])
  }

  predicate AllDone(pending: map<nat, Pending>) {
    forall s | s in pending :: pending[s].done
  }

  // ---- What a server's part keeps ----

  /** What a connection reports: a refusal says something, and frames routed
      to the rendezvous are capture frames. */
  ghost predicate WellFormed(r: Report) {
    && (r.Refused? ==> r.message != "")
    && (r.FrameIn? ==> IsCaptureFrameKind(r.frame.frameKind))
  }

  lemma ReportsAreWellFormed(b: Books, m: Message)
    ensures Receive(b, m).1.Some? ==> WellFormed(Receive(b, m).1.value)
  {
    if m.Error? && LooksLikeCaptureRefusal(m.message) {
      RecognisedRefusalIsNotEmpty(m.message);
    }
  }

  /** A frame of a capture of this kind whose id ends in these 16 bits. */
  ghost predicate Belongs(f: CapturedFrame, kind: CaptureKind, id: U32) {
    f.frameKind == (if kind.Stack? then 1 else 2) && f.captureId == id % 0x1_0000
  }

  ghost predicate PendingInv(p: Pending, kind: CaptureKind) {
    && |p.frames| <= p.expected
    && (forall i | 0 <= i < |p.frames| :: Belongs(p.frames[i], kind, p.id))
    && (p.acked ==> p.expected == |Announced(kind, p.captures)| && (p.done <==> |p.frames| == p.expected))
    && (!p.acked ==> p.expected == 0 && (p.done <==> p.refusal != ""))
  }

  /** The server answered with a result, never refused, and every frame it
      announced has arrived: of the kind asked for, under the id it gave. */
  ghost predicate Fulfilled(p: Pending, kind: CaptureKind) {
    && p.acked && p.refusal == ""
    && |p.frames| == p.expected == |Announced(kind, p.captures)|
    && forall i | 0 <= i < |p.frames| :: Belongs(p.frames[i], kind, p.id)
  }

  lemma HeardKeeps(p: Pending, kind: CaptureKind, r: Report)
    requires PendingInv(p, kind) && WellFormed(r)
    ensures PendingInv(Heard(p, kind, r), kind)
  {
  }

  ghost predicate AllWellFormed(rs: seq<Report>) {
    forall i | 0 <= i < |rs| :: WellFormed(rs[i])
  }

  lemma {:induction false} HeardAllKeeps(kind: CaptureKind, rs: seq<Report>)
    requires AllWellFormed(rs)
    ensures PendingInv(HeardAll(NEW_PENDING, kind, rs), kind)
  {
    hide PendingInv, Heard;
    if rs != [] {
      HeardAllKeeps(kind, rs[..|rs| - 1]);
      HeardKeeps(HeardAll(NEW_PENDING, kind, rs[..|rs| - 1]), kind, rs[|rs| - 1]);
    } else {
      assert PendingInv(NEW_PENDING, kind) by {
        NewIsFine(kind);
      }
    }
  }

  lemma NewIsFine(kind: CaptureKind)
    ensures PendingInv(NEW_PENDING, kind)
  {
  }

  /** Done without a refusal is exactly fulfilled -- for reports in any order,
      also results after refusals and frames that nobody announced. */
  lemma DoneIsFulfilled(kind: CaptureKind, rs: seq<Report>)
    requires AllWellFormed(rs)
    ensures var p := HeardAll(NEW_PENDING, kind, rs);
            p.done && p.refusal == "" <==> Fulfilled(p, kind)
  {
    HeardAllKeeps(kind, rs);
  }

  /** What is fulfilled stays as it is, whatever else is reported. */
  lemma FulfilledIsFinal(p: Pending, kind: CaptureKind, r: Report)
    requires PendingInv(p, kind) && Fulfilled(p, kind)
    ensures Heard(p, kind, r) == p
  {
  }

  /** This rests on refusals saying something: a refusal without text would
      pass for success. */
  lemma SilentRefusalFools(kind: CaptureKind, message: string)
    ensures var p := Heard(NEW_PENDING, kind, Refused(kind, message));
            && !Fulfilled(p, kind)
            && (p.done && p.refusal == "" <==> message == "")
  {
  }

  // ---- What a list of reports comes to, read from its start ----

  /** How a server's reports read: up to the first result of the kind asked for
      only whether it refused counts, and after it the first so many frames of
      that capture. */
  datatype Reading =
    | Unanswered(refused: bool)
    | Answered(refused: bool, id: U32, captures: seq<Entry>, frames: seq<CapturedFrame>)

  /** The frames of one capture among some reports, in order. */
  function FramesAmong(rs: seq<Report>, kind: CaptureKind, id: U32): seq<CapturedFrame> {
    if rs == [] then []
    else if rs[0].FrameIn? && rs[0].frame.frameKind == (if kind.Stack? then 1 else 2)
            && rs[0].frame.captureId == id % 0x1_0000
      then [rs[0].frame] + FramesAmong(rs[1..], kind, id)
    else FramesAmong(rs[1..], kind, id)
  }

  function UpTo<T>(s: seq<T>, n: nat): seq<T> {
    if |s| <= n then s else s[..n]
  }

  function Read(rs: seq<Report>, kind: CaptureKind, refused: bool): Reading {
    if rs == [] then Unanswered(refused)
    else
      match rs[0]
      case Result(k, id, captures) =>
        if k == kind then
          Answered(refused, id, captures, UpTo(FramesAmong(rs[1..], kind, id), |Announced(kind, captures)|))
        else Read(rs[1..], kind, refused)
      case Refused(k, _) => Read(rs[1..], kind, refused || k == kind)
      case FrameIn(_, _, _) => Read(rs[1..], kind, refused)
  }

  lemma {:induction false} HeardFromStart(p: Pending, kind: CaptureKind, rs: seq<Report>)
    requires rs != []
    ensures HeardAll(p, kind, rs) == HeardAll(Heard(p, kind, rs[0]), kind, rs[1..])
    decreases |rs|
  {
    hide Heard;
    var front, last := rs[..|rs| - 1], rs[|rs| - 1];
    if |rs| == 1 {
      assert front == [] && rs[1..] == [];
    } else {
      HeardFromStart(p, kind, front);
      assert rs[1..][..|rs| - 2] == front[1..] && rs[1..][|rs| - 2] == last;
    }
  }

  /** Once acked, a server's frames fill up to the number announced. */
  lemma {:induction false} AckedFillsUp(p: Pending, kind: CaptureKind, rs: seq<Report>)
    requires AllWellFormed(rs) && PendingInv(p, kind) && p.acked
    ensures HeardAll(p, kind, rs) == p.(frames := UpTo(p.frames + FramesAmong(rs, kind, p.id), p.expected),
                                        done := HeardAll(p, kind, rs).done)
    decreases |rs|
  {
    if rs == [] {
      assert p.frames + [] == p.frames;
    } else {
      var q := Heard(p, kind, rs[0]);
      HeardFromStart(p, kind, rs);
      HeardKeeps(p, kind, rs[0]);
      AckedFillsUp(q, kind, rs[1..]);
      FrameTaken(p, kind, rs[0], FramesAmong(rs[1..], kind, p.id));
      hide HeardAll, PendingInv, Heard;
    }
  }

  lemma FrameTaken(p: Pending, kind: CaptureKind, r: Report, rest: seq<CapturedFrame>)
    requires WellFormed(r) && PendingInv(p, kind) && p.acked
    ensures var q := Heard(p, kind, r);
            var kindCode := if kind.Stack? then 1 else 2;
            var f := if r.FrameIn? && r.frame.frameKind == kindCode && r.frame.captureId == p.id % 0x1_0000
                     then [r.frame] else [];
            && q == p.(frames := q.frames, done := q.done)
            && UpTo(q.frames + rest, p.expected) == UpTo(p.frames + (f + rest), p.expected)
  {
    hide Announced;
    var q := Heard(p, kind, r);
    if q.frames != p.frames {
      assert q.frames + rest == p.frames + ([r.frame] + rest);
    } else if r.FrameIn? && Belongs(r.frame, kind, p.id) {
      assert |p.frames| == p.expected;
      assert (p.frames + rest)[..p.expected] == p.frames == (p.frames + ([r.frame] + rest))[..p.expected];
    } else {
      assert [] + rest == rest;
    }
  }

  /** What is collected is what the reading says, from any unanswered state. */
  lemma {:induction false} HeardAsRead(p: Pending, kind: CaptureKind, rs: seq<Report>)
    requires AllWellFormed(rs) && PendingInv(p, kind) && !p.acked
    ensures var q := HeardAll(p, kind, rs);
            match Read(rs, kind, p.refusal != "")
            case Unanswered(refused) => !q.acked && q.frames == [] && (q.refusal != "" <==> refused)
            case Answered(refused, id, captures, frames) =>
              q.acked && q.id == id && q.captures == captures && q.frames == frames && (q.refusal != "" <==> refused)
    decreases |rs|
  {
    if rs != [] {
      var r, rest := rs[0], rs[1..];
      HeardFromStart(p, kind, rs);
      HeardKeeps(p, kind, r);
      if r.Result? && r.kind == kind {
        AckedFillsUp(Heard(p, kind, r), kind, rest);
        assert Heard(p, kind, r).frames == [] && [] + FramesAmong(rest, kind, r.id) == FramesAmong(rest, kind, r.id);
      } else {
        HeardAsRead(Heard(p, kind, r), kind, rest);
      }
      hide HeardAll, Announced, UpTo, FramesAmong;
    }
  }

  /** When exactly a server counts as having done its part, in terms of its
      reports alone: it gave a result of the kind asked for, had not refused
      before the first such result, and of the frames that followed at least as
      many belong to that result as it announced. The client then holds the first
      that many of them, in order. `es` lists what the result announces. */
  lemma FulfilledExactly(kind: CaptureKind, rs: seq<Report>, es: seq<Entry>)
    requires AllWellFormed(rs)
    requires Read(rs, kind, false).Answered? ==> FramesToCome(es, kind, Read(rs, kind, false).captures)
    ensures var p, r := HeardAll(NEW_PENDING, kind, rs), Read(rs, kind, false);
            && (p.acked <==> r.Answered?)
            && (p.acked ==> p.id == r.id && p.expected == |es| && p.frames == r.frames)
            && (Fulfilled(p, kind) <==> r.Answered? && !r.refused && |r.frames| == |es|)
  {
    NewIsFine(kind);
    HeardAsRead(NEW_PENDING, kind, rs);
    HeardAllKeeps(kind, rs);
    var r := Read(rs, kind, false);
    if r.Answered? {
      AnnouncedIs(kind, r.captures);
      SameCount(es, Announced(kind, r.captures), kind, r.captures);
    }
    hide HeardAll, Read, Announced, FramesToCome;
  }

  /** What hearing a result does to an armed server: it is acked under the
      result's id and expects one frame for each that the result announces. */
  lemma ResultIsHeard(p: Pending, kind: CaptureKind, id: U32, captures: seq<Entry>, es: seq<Entry>)
    requires !p.acked && FramesToCome(es, kind, captures)
    ensures var q := Heard(p, kind, Result(kind, id, captures));
            q == p.(acked := true, id := id, expected := |es|, captures := captures, done := es == [])
  {
    AnnouncedIs(kind, captures);
    SameCount(es, Announced(kind, captures), kind, captures);
    hide Announced, FramesToCome;
  }

  // ---- Servers do not interfere ----

  function ReportsOf(server: nat, arrivals: seq<Arrival>): (rs: seq<Report>)
    ensures |rs| <= |arrivals|
  {
    if arrivals == [] then []
    else
      var front, a := ReportsOf(server, arrivals[..|arrivals| - 1]), arrivals[|arrivals| - 1];
      if a.server == server then front + [a.report] else front
  }

  /** What is collected for a server depends on that server's reports alone. */
  lemma {:induction false} ServersDoNotInterfere(c: Waiting, arrivals: seq<Arrival>)
    requires c.active
    ensures var d := HearAll(c, arrivals);
            && d.active && d.kind == c.kind && d.pending.Keys == c.pending.Keys
            && forall s | s in d.pending :: d.pending[s] == HeardAll(c.pending[s], c.kind, ReportsOf(s, arrivals))
  {
    if arrivals != [] {
      var front, a := arrivals[..|arrivals| - 1], arrivals[|arrivals| - 1];
      ServersDoNotInterfere(c, front);
      hide Heard;
      var d := HearAll(c, arrivals);
      forall s | s in d.pending
        ensures d.pending[s] == HeardAll(c.pending[s], c.kind, ReportsOf(s, arrivals))
      {
        var rs := ReportsOf(s, arrivals);
        if s == a.server {
          assert rs[..|rs| - 1] == ReportsOf(s, front);
        }
      }
    }
  }

  /** Pruning servers early or late makes no difference to the others. */
  lemma {:induction false} PruneCommutes(c: Waiting, arrivals: seq<Arrival>, sent: seq<nat>)
    requires c.active
    ensures Pruned(HearAll(c, arrivals), sent) == HearAll(Pruned(c, sent), arrivals)
  {
    if arrivals != [] {
      var front := arrivals[..|arrivals| - 1];
      ServersDoNotInterfere(c, front);
      PruneCommutes(c, front, sent);
      PruneThenHear(HearAll(c, front), arrivals[|arrivals| - 1], sent);
      hide Hear, Pruned;
    }
  }

  lemma PruneThenHear(c: Waiting, a: Arrival, sent: seq<nat>)
    requires c.active
    ensures Pruned(Hear(c, a), sent) == Hear(Pruned(c, sent), a)
  {
    hide Heard;
    assert Pruned(Hear(c, a), sent).pending == Hear(Pruned(c, sent), a).pending;
  }

  lemma {:induction false} HearAllAppend(c: Waiting, xs: seq<Arrival>, ys: seq<Arrival>)
    ensures HearAll(c, xs + ys) == HearAll(HearAll(c, xs), ys)
    decreases |ys|
  {
    if ys == [] {
      assert xs + ys == xs;
    } else {
      var zs := xs + ys;
      assert zs[..|zs| - 1] == xs + ys[..|ys| - 1];
      HearAllAppend(c, xs, ys[..|ys| - 1]);
      hide Hear;
    }
  }

  lemma {:induction false} ReportsOfWellFormed(server: nat, arrivals: seq<Arrival>)
    requires forall i | 0 <= i < |arrivals| :: WellFormed(arrivals[i].report)
    ensures AllWellFormed(ReportsOf(server, arrivals))
  {
    if arrivals != [] {
      ReportsOfWellFormed(server, arrivals[..|arrivals| - 1]);
      hide WellFormed;
    }
  }
}
