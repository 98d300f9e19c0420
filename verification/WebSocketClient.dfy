/**
 The capture side of one connection (src/net/WebSocketClient.cpp), in place,
 proved against the functions of module CaptureBooks. Each method is one
 critical section of meta_mu_; callbacks are what the methods return.
 */
module WebSocketClients {
  import opened Bytes
  import opened Options
  import opened Protocol
  import opened CaptureBooks

  /** What a UI reads of a connection's capture. While a request waits and no
      frames are arriving it shows the oldest request; otherwise the acked
      capture, if there is one. */
  ghost predicate Shows(p: Progress, b: Books) {
    && p.inProgress == InProgress(b)
    && (InProgress(b) && !Receiving(b) ==> !p.acked && p.kind == b.requests[0] && p.expected == p.received == 0)
    && (!(InProgress(b) && !Receiving(b)) ==> p.acked == b.acked)
    && (p.acked ==> p.kind == b.kind && p.id == b.id && p.expected == |b.entries| && p.received == b.received)
  }

  method LooksLikeRefusal(m: string) returns (r: bool)
    ensures r == LooksLikeCaptureRefusal(m)
  {
    for i := 0 to |REFUSAL_WORDS|
      invariant ContainsAny(m, REFUSAL_WORDS) == ContainsAny(m, REFUSAL_WORDS[i..])
    {
      if Contains(m, REFUSAL_WORDS[i]) {
        return true;
      }
    }
    return false;
  }

  class WebSocketClient {
    const serverIndex: nat
    var connected: bool
    var captureRequests: seq<CaptureKind>
    var captureAcked: bool
    var captureKind: CaptureKind
    var captureId: U32
    var captureEntries: seq<Entry>
    var captureReceived: nat
    var lastCaptureRefusal: string

    function View(): Books
      reads this
    {
      Books(captureRequests, captureAcked, captureKind, captureId, captureEntries, captureReceived, lastCaptureRefusal)
    }

    constructor (serverIndex: nat)
      ensures this.serverIndex == serverIndex && !connected && View() == NEW_BOOKS
    {
      this.serverIndex := serverIndex;
      connected, captureRequests, captureAcked, captureKind := false, [], false, Trigger;
      captureId, captureEntries, captureReceived, lastCaptureRefusal := 0, [], 0, "";
    }

    method NoteCaptureRequested(kind: CaptureKind)
      modifies this`captureRequests
      ensures View() == Requested(old(View()), kind)
    {
      captureRequests := captureRequests + [kind];
    }

    method NoteCaptureAcked(kind: CaptureKind, id: U32, entries: seq<Entry>)
      modifies this`captureRequests, this`captureAcked, this`captureKind, this`captureId, this`captureEntries,
               this`captureReceived
      ensures View() == Acked(old(View()), kind, id, entries)
    {
      var i := 0;
      while i < |captureRequests| && captureRequests[i] != kind
        invariant i <= |captureRequests|
        invariant forall j | 0 <= j < i :: captureRequests[j] != kind
      {
        i := i + 1;
      }
      assert i == Oldest(captureRequests, kind);
      if i < |captureRequests| {
        captureRequests := captureRequests[..i] + captureRequests[i + 1..];
      }
      captureAcked, captureKind, captureId, captureEntries, captureReceived := true, kind, id, entries, 0;
    }

    method ResetCaptures()
      modifies this`captureRequests, this`captureAcked, this`captureEntries, this`captureReceived
      ensures View() == Reset(old(View()))
    {
      captureRequests, captureAcked, captureEntries, captureReceived := [], false, [], 0;
    }

    method OnOpen()
      modifies this
      ensures connected && View() == Reset(old(View()))
    {
      connected := true;
      ResetCaptures();
    }

    method OnClose()
      modifies this
      ensures !connected && View() == Reset(old(View()))
    {
      connected := false;
      ResetCaptures();
    }

    method WithdrawRequest(kind: CaptureKind)
      modifies this`captureRequests
      ensures View() == Withdrawn(old(View()), kind)
    {
      var i := |captureRequests| - 1;
      while i >= 0 && captureRequests[i] != kind
        invariant -1 <= i < |captureRequests|
        invariant forall j | i < j < |captureRequests| :: captureRequests[j] != kind
      {
        i := i - 1;
      }
      assert i == Newest(captureRequests, kind);
      if i >= 0 {
        captureRequests := captureRequests[..i] + captureRequests[i + 1..];
      }
    }

    /** Records the request, then sends it; `sendOk` is whether the socket
        takes it. The record of a failed send is withdrawn. */
    method SendCaptureRequest(kind: CaptureKind, sendOk: bool) returns (sent: bool)
      modifies this`captureRequests
      ensures sent == (connected && sendOk)
      ensures View() == if sent then Requested(old(View()), kind) else old(View())
    {
      NoteCaptureRequested(kind);
      if connected && sendOk {
        return true;
      }
      EraseLastUndoes(old(captureRequests), kind);
      WithdrawRequest(kind);
      return false;
    }

    method OnStackResult(id: U32, captures: seq<Entry>) returns (report: Report)
      modifies this
      ensures connected == old(connected)
      ensures (View(), Some(report)) == Receive(old(View()), StackResult(id, captures))
    {
      var entries := [];
      for i := 0 to |captures|
        invariant entries == WithoutErrors(captures[..i])
      {
        assert captures[..i + 1][..i] == captures[..i];
        if captures[i].error == "" {
          entries := entries + [captures[i]];
        }
      }
      assert captures[..|captures|] == captures;
      NoteCaptureAcked(Stack, id, entries);
      report := Result(Stack, id, captures);
    }

    method OnError(code: string, message: string) returns (report: Option<Report>)
      modifies this
      ensures connected == old(connected)
      ensures (View(), report) == Receive(old(View()), Error(code, message))
    {
      report := None;
      if code == "" {
        var refusal := LooksLikeRefusal(message);
        if refusal && captureRequests != [] {
          report := Some(Refused(captureRequests[0], message));
          captureRequests := captureRequests[1..];
          lastCaptureRefusal := message;
        }
      }
    }

    /** A reassembled frame: a capture frame is matched to the capture whose
        frames are arriving, by kind, by the id's low 16 bits, then by camera. */
    method OnAssembled(f: CapturedFrame) returns (report: Option<Report>)
      modifies this`captureReceived
      ensures (View(), report) == Receive(old(View()), CaptureFrame(f))
    {
      if !IsCaptureFrameKind(f.frameKind) {
        return None;
      }
      var kind := if f.frameKind == FRAME_STACK then Stack else Trigger;
      var matched, entry := false, None;
      if captureAcked && kind == captureKind && f.captureId == captureId % 0x1_0000
          && captureReceived < |captureEntries| {
        for i := 0 to |captureEntries|
          invariant EntryFor(captureEntries, f.camera) == EntryFor(captureEntries[i..], f.camera)
          invariant entry == None
        {
          if captureEntries[i].camera == f.camera {
            entry := Some(captureEntries[i]);
            break;
          }
        }
        matched := true;
        captureReceived := captureReceived + 1;
      }
      report := Some(FrameIn(f, matched, entry));
    }

    method OnMessage(m: Message) returns (report: Option<Report>)
      modifies this
      ensures connected == old(connected)
      ensures (View(), report) == Receive(old(View()), m)
    {
      match m {
        case TriggerResult(id, captures) =>
          NoteCaptureAcked(Trigger, id, captures);
          report := Some(Result(Trigger, id, captures));
        case StackResult(id, captures) =>
          var r := OnStackResult(id, captures);
          report := Some(r);
        case Error(code, message) => report := OnError(code, message);
        case CaptureFrame(f) => report := OnAssembled(f);
        case Other => report := None;
      }
    }

    method CaptureProgress() returns (p: Progress)
      ensures Shows(p, View())
    {
      var receiving := captureAcked && captureReceived < |captureEntries|;
      if captureRequests != [] && !receiving {
        return Progress(true, false, captureRequests[0], 0, 0, 0);
      }
      p := Progress(receiving || captureRequests != [], false, Trigger, 0, 0, 0);
      if captureAcked {
        p := p.(acked := true, kind := captureKind, id := captureId, expected := |captureEntries|,
          received := captureReceived);
      }
    }

    method CaptureInProgress() returns (r: bool)
      ensures r == InProgress(View())
    {
      var p := CaptureProgress();
      r := p.inProgress;
    }
  }
}
