/**
 The client's capture calls (src/client/Client.cpp:17-41, 177-343). The receive
 threads' callbacks run between the steps of runCapture; a run is given the
 reports that arrive at each point, and a timeout is a run whose reports end
 before every server is done.
 */
module Clients {
  import opened Bytes
  import opened Options
  import opened Protocol
  import opened CaptureBooks
  import opened Rendezvous
  import Decimal

  function RefusalText(server: nat, message: string): string {
    "server " + Decimal.ToString(server) + ": " + message
  }

  /** The refusals reported are exactly those of the servers in `out`. */
  ghost predicate ListsRefusals(refusals: seq<string>, out: map<nat, Pending>) {
    && (forall s | s in out && out[s].refusal != "" :: RefusalText(s, out[s].refusal) in refusals)
    && (forall r | r in refusals :: exists s :: s in out && out[s].refusal != "" && r == RefusalText(s, out[s].refusal))
  }

  ghost predicate AllFulfilled(out: map<nat, Pending>, kind: CaptureKind) {
    forall s | s in out :: Fulfilled(out[s], kind)
  }

  ghost predicate ReportsWellFormed(arrivals: seq<Arrival>) {
    forall i | 0 <= i < |arrivals| :: WellFormed(arrivals[i].report)
  }

  function Concat(batches: seq<seq<Arrival>>): seq<Arrival> {
    if batches == [] then [] else Concat(batches[..|batches| - 1]) + batches[|batches| - 1]
  }

  /** All that was reported during the send, and some of the later batches. */
  ghost predicate ReportedBy(heard: seq<Arrival>, during: seq<Arrival>, later: seq<seq<Arrival>>) {
    exists n :: 0 <= n <= |later| && heard == during + Concat(later[..n])
  }

  /** `out` holds, for each server armed and sent to, what its own reports
      among `heard` make of it. */
  ghost predicate Collects(
    out: map<nat, Pending>, kind: CaptureKind, connected: seq<bool>, sent: seq<nat>, heard: seq<Arrival>) {
    && (forall s: nat :: s in out <==> s < |connected| && connected[s] && s in sent)
    && forall s | s in out :: out[s] == HeardAll(NEW_PENDING, kind, ReportsOf(s, heard))
  }

  lemma {:induction false} ConcatWellFormed(batches: seq<seq<Arrival>>)
    requires forall i | 0 <= i < |batches| :: ReportsWellFormed(batches[i])
    ensures ReportsWellFormed(Concat(batches))
  {
    if batches != [] {
      ConcatWellFormed(batches[..|batches| - 1]);
    }
  }

  lemma ReportedWellFormed(heard: seq<Arrival>, during: seq<Arrival>, later: seq<seq<Arrival>>)
    requires ReportsWellFormed(during) && forall i | 0 <= i < |later| :: ReportsWellFormed(later[i])
    requires ReportedBy(heard, during, later)
    ensures ReportsWellFormed(heard)
  {
    var n :| 0 <= n <= |later| && heard == during + Concat(later[..n]);
    ConcatWellFormed(later[..n]);
  }

  lemma OnlyDuring(during: seq<Arrival>, later: seq<seq<Arrival>>)
    ensures ReportedBy(during, during, later)
  {
    assert during == during + Concat(later[..0]);
  }

  lemma Collected(out: map<nat, Pending>, kind: CaptureKind, connected: seq<bool>, sent: seq<nat>, heard: seq<Arrival>)
    requires Waiting(true, kind, out) == HearAll(Pruned(Armed(kind, connected), sent), heard)
    ensures Collects(out, kind, connected, sent, heard)
  {
    ServersDoNotInterfere(Pruned(Armed(kind, connected), sent), heard);
    hide HearAll, HeardAll, ReportsOf;
  }

  lemma FinishedIsFulfilled(
    out: map<nat, Pending>, kind: CaptureKind, connected: seq<bool>, sent: seq<nat>, heard: seq<Arrival>)
    requires Collects(out, kind, connected, sent, heard) && ReportsWellFormed(heard)
    ensures forall s | s in out :: PendingInv(out[s], kind)
    ensures AllFulfilled(out, kind) <==> AllDone(out) && forall s | s in out :: out[s].refusal == ""
  {
    forall s | s in out
      ensures PendingInv(out[s], kind)
      ensures Fulfilled(out[s], kind) <==> out[s].done && out[s].refusal == ""
    {
      ReportsOfWellFormed(s, heard);
      HeardAllKeeps(kind, ReportsOf(s, heard));
      DoneIsFulfilled(kind, ReportsOf(s, heard));
    }
    hide Fulfilled, PendingInv;
  }

  lemma StaysArmed(kind: CaptureKind, connected: seq<bool>, sent: seq<nat>, heard: seq<Arrival>)
    ensures var start := Pruned(Armed(kind, connected), sent);
            && start.active
            && HearAll(start, heard).active && HearAll(start, heard).kind == kind
            && (HearAll(start, heard).pending == map[] <==> start.pending == map[])
            && Pruned(HearAll(Armed(kind, connected), heard), sent) == HearAll(start, heard)
  {
    PruneCommutes(Armed(kind, connected), heard, sent);
    var start := Pruned(Armed(kind, connected), sent);
    ServersDoNotInterfere(start, heard);
    assert HearAll(start, heard).pending.Keys == {} <==> start.pending.Keys == {};
  }

  lemma NoneSent(out: map<nat, Pending>, kind: CaptureKind, connected: seq<bool>, heard: seq<Arrival>)
    requires Collects(out, kind, connected, [], heard)
    ensures out == map[]
  {
    assert forall s: nat :: s !in out;
  }

  lemma NoRefusals(refusals: seq<string>, out: map<nat, Pending>)
    requires ListsRefusals(refusals, out)
    ensures refusals == [] <==> forall s | s in out :: out[s].refusal == ""
  {
    if refusals != [] {
      assert refusals[0] in refusals;
    }
  }

  method Refusals(out: map<nat, Pending>) returns (refusals: seq<string>)
    ensures ListsRefusals(refusals, out)
  {
    refusals := [];
    var left := out.Keys;
    while left != {}
      invariant forall s | s in left :: s in out
      invariant forall s | s in out && s !in left && out[s].refusal != "" :: RefusalText(s, out[s].refusal) in refusals
      invariant forall r | r in refusals ::
                  exists s :: s in out && out[s].refusal != "" && r == RefusalText(s, out[s].refusal)
      decreases left
    {
      var s :| s in left;
      if out[s].refusal != "" {
        refusals := refusals + [RefusalText(s, out[s].refusal)];
      }
      left := left - {s};
    }
  }

  class Client {
    var captureActive: bool
    var captureKind: CaptureKind
    var capturePending: map<nat, Pending>

    function View(): Waiting
      reads this
    {
      Waiting(captureActive, captureKind, capturePending)
    }

    constructor ()
      ensures View() == Waiting(false, Trigger, map[])
    {
      captureActive, captureKind, capturePending := false, Trigger, map[];
    }

    method OnCaptureResult(server: nat, kind: CaptureKind, id: U32, expected: nat, captures: seq<Entry>)
      requires expected == |Announced(kind, captures)|
      modifies this`capturePending
      ensures View() == Hear(old(View()), From(server, Result(kind, id, captures)))
    {
      if !captureActive || kind != captureKind || server !in capturePending || capturePending[server].acked {
        assert server in capturePending ==> capturePending[server := capturePending[server]] == capturePending;
        return;
      }
      var p := capturePending[server];
      p := p.(acked := true, id := id, expected := expected, captures := captures);
      p := p.(done := expected == 0);
      capturePending := capturePending[server := p];
    }

    /** The hook on stack results counts the images that will follow. */
    method OnStackResult(server: nat, id: U32, captures: seq<Entry>)
      modifies this`capturePending
      ensures View() == Hear(old(View()), From(server, Result(Stack, id, captures)))
    {
      var images := 0;
      for i := 0 to |captures|
        invariant images == |WithoutErrors(captures[..i])|
      {
        assert captures[..i + 1][..i] == captures[..i];
        if captures[i].error == "" {
          images := images + 1;
        }
      }
      assert captures[..|captures|] == captures;
      OnCaptureResult(server, Stack, id, images, captures);
    }

    method OnCaptureRefused(server: nat, kind: CaptureKind, message: string)
      modifies this`capturePending
      ensures View() == Hear(old(View()), From(server, Refused(kind, message)))
    {
      if !captureActive || kind != captureKind || server !in capturePending || capturePending[server].acked {
        assert server in capturePending ==> capturePending[server := capturePending[server]] == capturePending;
        return;
      }
      capturePending := capturePending[server := capturePending[server].(refusal := message, done := true)];
    }

    method OnCaptureFrame(server: nat, f: CapturedFrame, matched: bool, entry: Option<Entry>)
      modifies this`capturePending
      ensures View() == Hear(old(View()), From(server, FrameIn(f, matched, entry)))
    {
      var kind := if f.frameKind == FRAME_STACK then Stack else Trigger;
      if !captureActive || kind != captureKind || server !in capturePending
         || !capturePending[server].acked || capturePending[server].done {
        assert server in capturePending ==> capturePending[server := capturePending[server]] == capturePending;
        return;
      }
      var p := capturePending[server];
      if f.captureId != p.id % 0x1_0000 {
        assert capturePending[server := p] == capturePending;
        return;
      }
      p := p.(frames := p.frames + [f]);
      p := p.(done := |p.frames| >= p.expected);
      capturePending := capturePending[server := p];
    }

    /** The hooks set by the constructor. */
    method OnReport(a: Arrival)
      modifies this`capturePending
      ensures View() == Hear(old(View()), a)
    {
      match a.report {
        case Result(k, id, captures) =>
          if k == Trigger {
            OnCaptureResult(a.server, Trigger, id, |captures|, captures);
          } else {
            OnStackResult(a.server, id, captures);
          }
        case Refused(k, message) => OnCaptureRefused(a.server, k, message);
        case FrameIn(f, matched, entry) => OnCaptureFrame(a.server, f, matched, entry);
      }
    }

    /** The receive threads at work between two steps of runCapture. */
    method Callbacks(arrivals: seq<Arrival>)
      modifies this`capturePending
      ensures View() == HearAll(old(View()), arrivals)
    {
      for i := 0 to |arrivals|
        invariant View() == HearAll(old(View()), arrivals[..i])
      {
        assert arrivals[..i + 1][..i] == arrivals[..i];
        OnReport(arrivals[i]);
      }
      assert arrivals[..|arrivals|] == arrivals;
    }

    method Arm(kind: CaptureKind, connected: seq<bool>)
      modifies this
      ensures View() == Armed(kind, connected)
    {
      capturePending := map[];
      for i := 0 to |connected|
        invariant forall s: nat :: s in capturePending <==> s < i && connected[s]
        invariant forall s | s in capturePending :: capturePending[s] == NEW_PENDING
      {
        if connected[i] {
          capturePending := capturePending[i := NEW_PENDING];
        }
      }
      captureKind := kind;
      captureActive := true;
    }

    /** Forgets the servers the request did not reach. */
    method Prune(sent: seq<nat>)
      modifies this`capturePending
      ensures View() == Pruned(old(View()), sent)
    {
      var left := capturePending.Keys;
      while left != {}
        invariant forall s :: s in capturePending <==> s in old(capturePending) && (s in left || s in sent)
        invariant forall s | s in capturePending :: capturePending[s] == old(capturePending)[s]
        invariant forall s | s in left :: s in old(capturePending)
        decreases left
      {
        var s :| s in left;
        left := left - {s};
        if s !in sent {
          capturePending := capturePending - {s};
        }
      }
    }

    method EveryoneIsDone() returns (r: bool)
      ensures r == AllDone(capturePending)
    {
      var left := capturePending.Keys;
      while left != {}
        invariant forall s | s in capturePending && s !in left :: capturePending[s].done
        decreases left
      {
        var s :| s in left;
        if s in capturePending && !capturePending[s].done {
          return false;
        }
        left := left - {s};
      }
      return true;
    }

    /** The wait for the last server, or for the time to run out. */
    method WaitForAll(ghost start: Waiting, ghost during: seq<Arrival>, later: seq<seq<Arrival>>)
      returns (finished: bool, ghost heard: seq<Arrival>)
      requires start.active && View() == HearAll(start, during)
      modifies this`capturePending
      ensures View() == HearAll(start, heard)
      ensures ReportedBy(heard, during, later)
      ensures finished == AllDone(capturePending)
    {
      heard := during;
      finished := EveryoneIsDone();
      var i := 0;
      assert during + [] == during;
      while !finished && i < |later|
        invariant i <= |later|
        invariant View() == HearAll(start, heard)
        invariant heard == during + Concat(later[..i])
        invariant finished == AllDone(capturePending)
      {
        HearAllAppend(start, heard, later[i]);
        assert later[..i + 1][..i] == later[..i];
        assert during + (Concat(later[..i]) + later[i]) == heard + later[i];
        Callbacks(later[i]);
        heard := heard + later[i];
        i := i + 1;
        finished := EveryoneIsDone();
      }
    }

    /** One capture. `gateOpen` is whether the wait for earlier captures ended
        in time; `during` is reported while the request is being sent, and each
        batch of `later` between two looks at the condition. `heard` is what
        had been reported when the call ended. */
    method RunCapture(kind: CaptureKind, gateOpen: bool, connected: seq<bool>, sent: seq<nat>,
                      during: seq<Arrival>, later: seq<seq<Arrival>>)
      returns (complete: bool, out: map<nat, Pending>, refusals: seq<string>, ghost heard: seq<Arrival>)
      requires ReportsWellFormed(during) && forall i | 0 <= i < |later| :: ReportsWellFormed(later[i])
      modifies this
      ensures ReportedBy(heard, during, later)
      ensures !gateOpen ==> !complete && out == map[] && View() == old(View())
      ensures gateOpen ==> Collects(out, kind, connected, sent, heard) && !captureActive && capturePending == map[]
      ensures forall s | s in out :: PendingInv(out[s], kind)
      ensures complete <==> gateOpen && out != map[] && AllFulfilled(out, kind)
      ensures gateOpen && sent != [] ==> ListsRefusals(refusals, out)
      ensures !gateOpen || sent == [] ==> |refusals| == 1
    {
      hide HearAll, Armed, Pruned, Concat, ReportedBy, ReportsWellFormed, Collects, PendingInv, Fulfilled,
           ListsRefusals;
      refusals := [];
      heard := during;
      OnlyDuring(during, later);
      if !gateOpen {
        return false, map[], ["an earlier capture is still in progress"], heard;
      }
      Arm(kind, connected);
      Callbacks(during);
      Prune(sent);
      ghost var start := Pruned(Armed(kind, connected), sent);
      StaysArmed(kind, connected, sent, during);
      var finished := false;
      if capturePending != map[] {
        finished, heard := WaitForAll(start, during, later);
      }
      StaysArmed(kind, connected, sent, heard);
      out := capturePending;
      capturePending := map[];
      captureActive := false;
      ReportedWellFormed(heard, during, later);
      Collected(out, kind, connected, sent, heard);
      FinishedIsFulfilled(out, kind, connected, sent, heard);
      if sent == [] {
        NoneSent(out, kind, connected, heard);
        return false, out, ["the request reached no connected server"], heard;
      }
      refusals := Refusals(out);
      NoRefusals(refusals, out);
      complete := finished && refusals == [];
    }
  }
}
