/**
 One connection between this client's capture bookkeeping and a server: two
 FIFO channels, and a server that runs one capture at a time, answers every
 request once -- by a refusal at once or by a result when it is done -- and
 sends its frames after the result
 (src/net/WebSocketClient.hpp:66-69, 150-152, 210-212 and 328-331,
 src/net/Protocol.hpp:38-40, src/net/WebSocketClient.cpp:65-69 and 177-208).
 */
module CaptureLink {
  import opened Bytes
  import opened Options
  import opened Protocol
  import opened CaptureBooks

  datatype Server =
    | Idle
    | Busy(kind: CaptureKind)
    | Sending(kind: CaptureKind, id: U32, left: nat)

  /** `noted` is a request recorded but not yet sent. The rest is history: the
      kind last asked for, the frames the server has sent for its last result,
      and those the client has matched since the last result it heard. */
  datatype Link = Link(
    connected: bool, books: Books, noted: Option<CaptureKind>, toServer: seq<CaptureKind>,
    server: Server, toClient: seq<Message>, mode: CaptureKind, shipped: seq<CapturedFrame>, got: seq<CapturedFrame>)

  const NEW_LINK := Link(false, NEW_BOOKS, None, [], Idle, [], Trigger, [], [])

  datatype Step =
    | Note(kind: CaptureKind)                       // the record before a send
    | Send(ok: bool)                                // the send, or its withdrawal
    | Accept                                        // the server takes a request
    | Refuse(message: string)                       // or refuses it
    | Finish(id: U32, captures: seq<Entry>)         // the capture is done: its result
    | Ship(camera: U32, frameId: U32)               // one of its frames
    | Chatter(msg: Message)                         // anything else the server says
    | Recv                                          // the receive thread handles a message
    | Close
    | Open

  predicate IsRefusal(m: Message) {
    m.Error? && m.code == "" && LooksLikeCaptureRefusal(m.message)
  }

  predicate IsResult(m: Message) {
    m.TriggerResult? || m.StackResult?
  }

  predicate IsAnswer(m: Message) {
    IsResult(m) || IsRefusal(m)
  }

  predicate IsFrame(m: Message) {
    m.CaptureFrame? && IsCaptureFrameKind(m.frame.frameKind)
  }

  function ResultMessage(k: CaptureKind, id: U32, captures: seq<Entry>): Message {
    if k.Trigger? then TriggerResult(id, captures) else StackResult(id, captures)
  }

  function FrameMessage(k: CaptureKind, id: U32, camera: U32, frameId: U32): Message {
    CaptureFrame(CapturedFrame(if k.Trigger? then FRAME_TRIGGER else FRAME_STACK, Low16(id), camera, frameId))
  }

  predicate Enabled(l: Link, st: Step) {
    match st
    case Note(_) => l.noted.None?
    case Send(ok) => l.noted.Some? && (ok ==> l.connected)
    case Accept => l.connected && l.toServer != [] && l.server.Idle?
    case Refuse(m) => l.connected && l.toServer != [] && LooksLikeCaptureRefusal(m)
    case Finish(_, _) => l.connected && l.server.Busy?
    case Ship(_, _) => l.connected && l.server.Sending? && l.server.left > 0
    case Chatter(m) => l.connected && (m.Other? || m.Error?)
    case Recv => l.toClient != []
    case Close => l.connected
    case Open => !l.connected
  }

  /** A result starts a capture's frames anew. */
  function Gotten(got: seq<CapturedFrame>, m: Message): seq<CapturedFrame> {
    if IsResult(m) then [] else if IsFrame(m) then got + [m.frame] else got
  }

  function After(kind: CaptureKind, id: U32, left: nat): Server {
    if left == 0 then Idle else Sending(kind, id, left)
  }

  function Apply(l: Link, st: Step): Link
    requires Enabled(l, st)
  {
    match st
    case Note(k) => l.(books := Requested(l.books, k), noted := Some(k), mode := k)
    case Send(ok) =>
      if ok then l.(noted := None, toServer := l.toServer + [l.noted.value])
      else l.(noted := None, books := Withdrawn(l.books, l.noted.value))
    case Accept => l.(toServer := l.toServer[1..], server := Busy(l.toServer[0]))
    case Refuse(m) => l.(toServer := l.toServer[1..], toClient := l.toClient + [Error("", m)])
    case Finish(id, captures) =>
      var k := l.server.kind;
      l.(server := After(k, id, |Announced(k, captures)|), toClient := l.toClient + [ResultMessage(k, id, captures)],
        shipped := [])
    case Ship(camera, frameId) =>
      var s := l.server;
      var m := FrameMessage(s.kind, s.id, camera, frameId);
      l.(server := After(s.kind, s.id, s.left - 1), toClient := l.toClient + [m], shipped := l.shipped + [m.frame])
    case Chatter(m) => l.(toClient := l.toClient + [m])
    case Recv =>
      var m := l.toClient[0];
      l.(toClient := l.toClient[1..], books := Receive(l.books, m).0, got := Gotten(l.got, m))
    case Close => l.(connected := false, books := Reset(l.books), toServer := [], server := Idle, toClient := [],
        shipped := [], got := [])
    case Open => l.(connected := true, books := Reset(l.books), shipped := [], got := [])
  }

  /** What a run is assumed to keep to: requests outstanding together share
      one kind; an error that answers no capture request does not use the
      refusal wording; no connection opens between a note and its send. */
  predicate Calm(l: Link, st: Step) {
    match st
    case Note(k) => l.books.requests == [] || k == l.mode
    case Chatter(m) => !IsRefusal(m)
    case Open => l.noted.None?
    case _ => true
  }

  /** A server that finishes has one frame to send for each that its result
      announces, of its kind and under the id it gives. */
  lemma FinishAnnounces(l: Link, id: U32, captures: seq<Entry>, es: seq<Entry>)
    requires Enabled(l, Finish(id, captures)) && FramesToCome(es, l.server.kind, captures)
    ensures Apply(l, Finish(id, captures)).server
            == if es == [] then Idle else Sending(l.server.kind, id, |es|)
  {
    AnnouncedIs(l.server.kind, captures);
    SameCount(es, Announced(l.server.kind, captures), l.server.kind, captures);
    hide Announced, FramesToCome;
  }

  // ---- The invariant ----

  /** The books without their requests: what frames are matched against. */
  function Bare(b: Books): Books {
    b.(requests := [], lastRefusal := "")
  }

  function ReceiveAll(b: Books, ms: seq<Message>): Books
    decreases |ms|
  {
    if ms == [] then b else ReceiveAll(Receive(b, ms[0]).0, ms[1..])
  }

  function Answers(ms: seq<Message>): (n: nat)
    ensures n <= |ms|
  {
    if ms == [] then 0 else (if IsAnswer(ms[0]) then 1 else 0) + Answers(ms[1..])
  }

  /** Every capture frame among `ms` matches when its turn comes. */
  ghost predicate AllMatch(b: Books, ms: seq<Message>)
    decreases |ms|
  {
    ms == [] || ((IsFrame(ms[0]) ==> Matches(b, ms[0].frame)) && AllMatch(Receive(b, ms[0]).0, ms[1..]))
  }

  function IfAny<T>(o: Option<T>): nat {
    if o.Some? then 1 else 0
  }

  /** One recorded request for each that is being sent, on its way, being
      served, or answered but not yet heard of. */
  ghost predicate Counted(l: Link) {
    if l.connected then
      |l.books.requests| == |l.toServer| + (if l.server.Busy? then 1 else 0) + IfAny(l.noted) + Answers(l.toClient)
    else
      |l.books.requests| <= IfAny(l.noted) && l.toServer == [] && l.server.Idle? && l.toClient == []
  }

  ghost predicate Uniform(ks: seq<CaptureKind>, k: CaptureKind) {
    forall i | 0 <= i < |ks| :: ks[i] == k
  }

  ghost predicate OfKind(ms: seq<Message>, k: CaptureKind) {
    forall i | 0 <= i < |ms| && IsResult(ms[i]) :: ms[i] == ResultMessage(k, ms[i].id, ms[i].captures)
  }

  ghost predicate SameKind(l: Link) {
    && Uniform(l.books.requests, l.mode)
    && Uniform(l.toServer, l.mode)
    && (l.server.Busy? ==> l.server.kind == l.mode)
    && (l.noted.Some? ==> l.noted.value == l.mode)
    && OfKind(l.toClient, l.mode)
  }

  /** What the client, having heard everything, still expects is what the
      server still has to send. */
  ghost predicate Expects(b: Books, server: Server) {
    if server.Sending? then
      server.left > 0 && b.acked && b.kind == server.kind && b.id == server.id
        && |b.entries| == b.received + server.left
    else !Receiving(b)
  }

  ghost predicate Expecting(l: Link) {
    Expects(ReceiveAll(Bare(l.books), l.toClient), l.server)
  }

  function GottenAll(got: seq<CapturedFrame>, ms: seq<Message>): seq<CapturedFrame>
    decreases |ms|
  {
    if ms == [] then got else GottenAll(Gotten(got, ms[0]), ms[1..])
  }

  /** With what is on its way, the client has exactly the frames sent. */
  ghost predicate Delivering(l: Link) {
    GottenAll(l.got, l.toClient) == l.shipped && |l.got| == l.books.received
  }

  ghost predicate Inv(l: Link) {
    Counted(l) && SameKind(l) && Expecting(l) && AllMatch(Bare(l.books), l.toClient) && Delivering(l)
  }

  // ---- Lemmas on queues ----

  lemma {:induction false} ReceiveAllAppend(b: Books, ms: seq<Message>, m: Message)
    ensures ReceiveAll(b, ms + [m]) == Receive(ReceiveAll(b, ms), m).0
    ensures AllMatch(b, ms + [m]) <==> AllMatch(b, ms) && (IsFrame(m) ==> Matches(ReceiveAll(b, ms), m.frame))
    decreases |ms|
  {
    hide Receive, Matches;
    if ms != [] {
      assert (ms + [m])[1..] == ms[1..] + [m] && (ms + [m])[0] == ms[0];
      ReceiveAllAppend(Receive(b, ms[0]).0, ms[1..], m);
    } else {
      assert ms + [m] == [m] && [m][1..] == [];
      assert ReceiveAll(b, [m]) == ReceiveAll(Receive(b, m).0, []);
      assert AllMatch(Receive(b, m).0, []);
    }
  }

  lemma {:induction false} GottenAppend(got: seq<CapturedFrame>, ms: seq<Message>, m: Message)
    ensures GottenAll(got, ms + [m]) == Gotten(GottenAll(got, ms), m)
    decreases |ms|
  {
    hide Gotten;
    if ms != [] {
      assert (ms + [m])[1..] == ms[1..] + [m] && (ms + [m])[0] == ms[0];
      GottenAppend(Gotten(got, ms[0]), ms[1..], m);
    } else {
      assert ms + [m] == [m] && [m][1..] == [];
      assert GottenAll(got, [m]) == GottenAll(Gotten(got, m), []);
    }
  }

  lemma {:induction false} AnswersAppend(ms: seq<Message>, m: Message)
    ensures Answers(ms + [m]) == Answers(ms) + if IsAnswer(m) then 1 else 0
  {
    hide IsAnswer;
    if ms != [] {
      assert (ms + [m])[1..] == ms[1..] + [m] && (ms + [m])[0] == ms[0];
      AnswersAppend(ms[1..], m);
    } else {
      assert ms + [m] == [m] && [m][1..] == [];
      assert Answers([]) == 0;
    }
  }

  lemma {:induction false} NoAnswersMeans(ms: seq<Message>, m: Message)
    requires Answers(ms) == 0 && m in ms
    ensures !IsAnswer(m)
  {
    if m != ms[0] {
      NoAnswersMeans(ms[1..], m);
    }
  }

  lemma BareReceive(b: Books, m: Message)
    ensures Bare(Receive(b, m).0) == Receive(Bare(b), m).0
  {
  }

  /** With nothing to receive and no result on its way, nothing becomes
      receivable, and no capture frame is on its way either. */
  lemma {:induction false} NothingComes(b: Books, ms: seq<Message>)
    requires !Receiving(b) && Answers(ms) == 0 && AllMatch(b, ms)
    ensures !Receiving(ReceiveAll(b, ms))
    ensures forall m | m in ms :: !IsFrame(m)
    decreases |ms|
  {
    if ms != [] {
      assert Receive(b, ms[0]).0
             == b.(requests := Receive(b, ms[0]).0.requests, lastRefusal := Receive(b, ms[0]).0.lastRefusal);
      NothingComes(Receive(b, ms[0]).0, ms[1..]);
      assert forall m | m in ms :: m == ms[0] || m in ms[1..];
    }
  }

  // ---- Every step keeps the invariant ----

  lemma AllSameErase(ks: seq<CaptureKind>, k: CaptureKind)
    requires Uniform(ks, k)
    ensures Uniform(EraseFirst(ks, k), k) && Uniform(EraseLast(ks, k), k)
    ensures |EraseFirst(ks, k)| == |EraseLast(ks, k)| == if ks == [] then 0 else |ks| - 1
  {
    if ks != [] {
      assert ks[0] in ks;
    }
  }

  lemma ServerSpeaks(l: Link, m: Message, server: Server, toServer: seq<CaptureKind>)
    requires Inv(l) && l.connected
    requires Uniform(toServer, l.mode)
    requires |toServer| + (if server.Busy? then 1 else 0) + (if IsAnswer(m) then 1 else 0)
             == |l.toServer| + (if l.server.Busy? then 1 else 0)
    requires server.Busy? ==> server.kind == l.mode
    requires IsResult(m) ==> m == ResultMessage(l.mode, m.id, m.captures)
    requires var b := ReceiveAll(Bare(l.books), l.toClient);
             && (IsFrame(m) ==> Matches(b, m.frame))
             && Expects(Receive(b, m).0, server)
    ensures Inv(l.(server := server, toServer := toServer, toClient := l.toClient + [m],
            shipped := Gotten(l.shipped, m)))
  {
    var l2 := l.(server := server, toServer := toServer, toClient := l.toClient + [m], shipped := Gotten(l.shipped, m));
    hide Receive, AllMatch, IsAnswer, Matches, Gotten;
    GottenAppend(l.got, l.toClient, m);
    AnswersAppend(l.toClient, m);
    ReceiveAllAppend(Bare(l.books), l.toClient, m);
    assert OfKind(l2.toClient, l.mode);
  }

  lemma FinishKeeps(l: Link, id: U32, captures: seq<Entry>)
    requires Inv(l) && Enabled(l, Finish(id, captures))
    ensures Inv(Apply(l, Finish(id, captures)))
  {
    var k, n := l.server.kind, |Announced(l.server.kind, captures)|;
    hide Announced;
    ServerSpeaks(l, ResultMessage(k, id, captures), After(k, id, n), l.toServer);
  }

  lemma ShipKeeps(l: Link, camera: U32, frameId: U32)
    requires Inv(l) && Enabled(l, Ship(camera, frameId))
    ensures Inv(Apply(l, Ship(camera, frameId)))
  {
    var s := l.server;
    ServerSpeaks(l, FrameMessage(s.kind, s.id, camera, frameId), After(s.kind, s.id, s.left - 1), l.toServer);
  }

  lemma RefuseKeeps(l: Link, message: string)
    requires Inv(l) && Enabled(l, Refuse(message))
    ensures Inv(Apply(l, Refuse(message)))
  {
    SilentRefusal(ReceiveAll(Bare(l.books), l.toClient), message);
    hide LooksLikeCaptureRefusal;
    ServerSpeaks(l, Error("", message), l.server, l.toServer[1..]);
  }

  lemma SilentRefusal(b: Books, message: string)
    ensures Receive(b, Error("", message)).0 == b.(requests := Receive(b, Error("", message)).0.requests,
                                                   lastRefusal := Receive(b, Error("", message)).0.lastRefusal)
  {
  }

  lemma ChatterKeeps(l: Link, m: Message)
    requires Inv(l) && Enabled(l, Chatter(m)) && Calm(l, Chatter(m))
    ensures Inv(Apply(l, Chatter(m)))
  {
    hide LooksLikeCaptureRefusal;
    ServerSpeaks(l, m, l.server, l.toServer);
  }

  /** An answer of the right kind resolves one request; nothing else does. */
  lemma AnswerResolvesOne(b: Books, m: Message, k: CaptureKind)
    requires Uniform(b.requests, k) && OfKind([m], k)
    requires IsAnswer(m) ==> b.requests != []
    ensures Uniform(Receive(b, m).0.requests, k)
    ensures |Receive(b, m).0.requests| == |b.requests| - if IsAnswer(m) then 1 else 0
  {
    AllSameErase(b.requests, k);
    RecvRequests(b, m);
    hide LooksLikeCaptureRefusal, Receive, EraseFirst, EraseLast;
    assert IsResult(m) ==> m == [m][0] == ResultMessage(k, m.id, m.captures);
  }

  lemma RecvKeepsCount(l: Link)
    requires Counted(l) && SameKind(l) && l.toClient != []
    ensures Counted(Apply(l, Recv)) && SameKind(Apply(l, Recv))
  {
    var m, rest := l.toClient[0], l.toClient[1..];
    assert OfKind([m], l.mode) && OfKind(rest, l.mode);
    hide LooksLikeCaptureRefusal, Receive, Uniform, OfKind;
    AnswerResolvesOne(l.books, m, l.mode);
  }

  lemma RecvKeeps(l: Link)
    requires Inv(l) && l.toClient != []
    ensures Inv(Apply(l, Recv))
  {
    RecvKeepsCount(l);
    BareReceive(l.books, l.toClient[0]);
    ReceivedIs(l.books, l.toClient[0]);
    hide Counted, SameKind, Receive, Expects;
  }

  lemma ReceivedIs(b: Books, m: Message)
    requires IsFrame(m) ==> Matches(Bare(b), m.frame)
    ensures Receive(b, m).0.received == if IsResult(m) then 0 else if IsFrame(m) then b.received + 1 else b.received
  {
    hide LooksLikeCaptureRefusal;
  }

  lemma RecvRequests(b: Books, m: Message)
    ensures var r := Receive(b, m).0.requests;
            if m.TriggerResult? then r == EraseFirst(b.requests, Trigger)
            else if m.StackResult? then r == EraseFirst(b.requests, Stack)
            else if IsRefusal(m) && b.requests != [] then r == b.requests[1..]
            else r == b.requests
  {
  }

  lemma SendKeeps(l: Link, ok: bool)
    requires Inv(l) && Enabled(l, Send(ok))
    ensures Inv(Apply(l, Send(ok)))
  {
    AllSameErase(l.books.requests, l.mode);
    assert Bare(Withdrawn(l.books, l.noted.value)) == Bare(l.books);
    hide ReceiveAll, AllMatch, Answers;
  }

  lemma NoteKeeps(l: Link, k: CaptureKind)
    requires Inv(l) && Enabled(l, Note(k)) && Calm(l, Note(k))
    ensures Inv(Apply(l, Note(k)))
  {
    assert Bare(Requested(l.books, k)) == Bare(l.books);
    if l.books.requests == [] {
      forall m | m in l.toClient ensures !IsResult(m) {
        NoAnswersMeans(l.toClient, m);
      }
    }
    hide ReceiveAll, AllMatch, Answers;
  }

  lemma StepKeeps(l: Link, st: Step)
    requires Inv(l) && Enabled(l, st) && Calm(l, st)
    ensures Inv(Apply(l, st))
  {
    match st
    case Note(k) => NoteKeeps(l, k);
    case Send(ok) => SendKeeps(l, ok);
    case Refuse(m) => RefuseKeeps(l, m);
    case Finish(id, captures) => FinishKeeps(l, id, captures);
    case Ship(camera, frameId) => ShipKeeps(l, camera, frameId);
    case Chatter(m) => ChatterKeeps(l, m);
    case Recv => RecvKeeps(l);
    case Accept => hide ReceiveAll, AllMatch, Answers;
    case Close => hide LooksLikeCaptureRefusal;
    case Open => hide LooksLikeCaptureRefusal;
  }

  // ---- Runs, and the gate ----

  function Run(l: Link, steps: seq<Step>): Link
    requires Runs(l, steps)
    decreases |steps|
  {
    if steps == [] then l else Run(Apply(l, steps[0]), steps[1..])
  }

  ghost predicate Runs(l: Link, steps: seq<Step>)
    decreases |steps|
  {
    steps == [] || (Enabled(l, steps[0]) && Runs(Apply(l, steps[0]), steps[1..]))
  }

  ghost predicate AllCalm(l: Link, steps: seq<Step>)
    requires Runs(l, steps)
    decreases |steps|
  {
    steps == [] || (Calm(l, steps[0]) && AllCalm(Apply(l, steps[0]), steps[1..]))
  }

  lemma {:induction false} RunKeeps(l: Link, steps: seq<Step>)
    requires Inv(l) && Runs(l, steps) && AllCalm(l, steps)
    ensures Inv(Run(l, steps))
    decreases |steps|
  {
    hide Inv, Enabled, Apply, Calm;
    if steps != [] {
      StepKeeps(l, steps[0]);
      RunKeeps(Apply(l, steps[0]), steps[1..]);
    }
  }

  /** Nothing of a capture is anywhere on the link. */
  ghost predicate Quiet(l: Link) {
    && l.server.Idle?
    && l.toServer == []
    && l.books.requests == []
    && !Receiving(l.books)
    && forall m | m in l.toClient :: !IsAnswer(m) && !IsFrame(m)
  }

  lemma QuietWhenDone(l: Link)
    requires Inv(l) && l.noted.None? && !InProgress(l.books)
    ensures Quiet(l)
  {
    if l.connected {
      assert Answers(l.toClient) == 0;
      NothingComes(Bare(l.books), l.toClient);
      forall m | m in l.toClient ensures !IsAnswer(m) {
        NoAnswersMeans(l.toClient, m);
      }
      hide LooksLikeCaptureRefusal, ReceiveAll, AllMatch;
    }
  }

  /** In every calm run the queue of requests holds one entry for each
      unanswered request, and a connection that reports no capture in progress
      has an idle server and no request, answer or capture frame under way. */
  lemma GateIsSound(steps: seq<Step>)
    requires Runs(NEW_LINK, steps) && AllCalm(NEW_LINK, steps)
    ensures Counted(Run(NEW_LINK, steps))
    ensures var l := Run(NEW_LINK, steps); l.noted.None? && !InProgress(l.books) ==> Quiet(l)
  {
    RunKeeps(NEW_LINK, steps);
    var l := Run(NEW_LINK, steps);
    if l.noted.None? && !InProgress(l.books) {
      QuietWhenDone(l);
    }
  }

  lemma {:induction false} NothingMore(got: seq<CapturedFrame>, ms: seq<Message>)
    requires forall m | m in ms :: !IsAnswer(m) && !IsFrame(m)
    ensures GottenAll(got, ms) == got
    decreases |ms|
  {
    hide LooksLikeCaptureRefusal;
    if ms != [] {
      assert ms[0] in ms && forall m | m in ms[1..] :: m in ms;
      NothingMore(got, ms[1..]);
    }
  }

  /** When the link is quiet, every frame sent for the last result has been
      received and matched: the same frames, in the order they were sent. */
  lemma EveryFrameArrives(l: Link)
    requires Inv(l) && Quiet(l)
    ensures l.got == l.shipped && |l.got| == l.books.received
  {
    NothingMore(l.got, l.toClient);
  }

  /** In every calm run a capture frame, when it arrives, belongs to the
      capture the books are receiving. */
  lemma FramesAlwaysMatch(steps: seq<Step>)
    requires Runs(NEW_LINK, steps) && AllCalm(NEW_LINK, steps)
    ensures var l := Run(NEW_LINK, steps);
            l.toClient != [] && IsFrame(l.toClient[0]) ==> Matches(l.books, l.toClient[0].frame)
  {
    RunKeeps(NEW_LINK, steps);
  }

  // ---- Gated runs ----

  /** A request is only made where no capture is in progress. */
  ghost predicate Gated(l: Link, st: Step) {
    Calm(l, st) && (st.Note? ==> !InProgress(l.books))
  }

  ghost predicate AllGated(l: Link, steps: seq<Step>)
    requires Runs(l, steps)
    decreases |steps|
  {
    steps == [] || (Gated(l, steps[0]) && AllGated(Apply(l, steps[0]), steps[1..]))
  }

  /** A request not yet at the server is the only thing of a capture there is. */
  ghost predicate OneAtATime(l: Link) {
    && |l.books.requests| <= 1
    && (l.noted.Some? || l.toServer != [] ==> !Receiving(l.books))
  }

  /** A request that reaches the server finds it idle. */
  lemma FindsServerIdle(l: Link)
    requires Inv(l) && OneAtATime(l) && l.toServer != []
    ensures l.server.Idle? && l.noted.None? && |l.toServer| == 1
  {
    assert Answers(l.toClient) == 0;
    NothingComes(Bare(l.books), l.toClient);
    hide ReceiveAll, AllMatch;
  }

  lemma GatedKeeps(l: Link, st: Step)
    requires Inv(l) && OneAtATime(l) && Enabled(l, st) && Gated(l, st)
    ensures OneAtATime(Apply(l, st))
  {
    if l.toServer != [] {
      FindsServerIdle(l);
    }
    if st.Recv? {
      var m := l.toClient[0];
      if l.connected && (l.noted.Some? || l.toServer != []) {
        assert Answers(l.toClient) == 0;
        NothingComes(Bare(l.books), l.toClient);
      }
      RecvRequests(l.books, m);
      hide LooksLikeCaptureRefusal, ReceiveAll, AllMatch, Answers, Announced, EntryFor;
    } else {
      hide LooksLikeCaptureRefusal, ReceiveAll, AllMatch, Answers;
    }
  }

  lemma {:induction false} GatedRunKeeps(l: Link, steps: seq<Step>)
    requires Inv(l) && OneAtATime(l) && Runs(l, steps) && AllGated(l, steps)
    ensures Inv(Run(l, steps)) && OneAtATime(Run(l, steps))
    decreases |steps|
  {
    if steps != [] {
      GatedKeeps(l, steps[0]);
      StepKeeps(l, steps[0]);
      hide Inv, OneAtATime, Enabled, Apply, Calm;
      GatedRunKeeps(Apply(l, steps[0]), steps[1..]);
    }
  }

  /** In a gated run -- whatever kinds are asked for, one after the other -- a
      request never reaches a server that is still busy with an earlier
      capture: it is never refused as overlapping. */
  lemma GatedRequestsNeverOverlap(steps: seq<Step>)
    requires Runs(NEW_LINK, steps) && AllGated(NEW_LINK, steps)
    ensures var l := Run(NEW_LINK, steps); l.toServer != [] ==> l.server.Idle? && |l.toServer| == 1
  {
    GatedRunKeeps(NEW_LINK, steps);
    var l := Run(NEW_LINK, steps);
    if l.toServer != [] {
      FindsServerIdle(l);
    }
  }

  // ---- Why runs must be calm ----

  /** A connection that opens between a note and its send forgets the note:
      the request then goes out unrecorded. The invariant survives an opening
      exactly when no send is under way. */
  lemma OpeningMidSend(l: Link)
    requires Inv(l) && Enabled(l, Open)
    ensures Inv(Apply(l, Open)) <==> l.noted.None?
    ensures l.noted.Some? ==>
              var sent := Apply(Apply(l, Open), Send(true));
              !InProgress(sent.books) && sent.toServer == [l.noted.value]
  {
    hide LooksLikeCaptureRefusal;
  }

  /** More requests on record than there are answers to come. */
  ghost predicate Surplus(l: Link) {
    |l.books.requests| > |l.toServer| + (if l.server.Busy? then 1 else 0) + IfAny(l.noted) + Answers(l.toClient)
  }

  /** A step on a connection that stays open, without an unrelated error that
      reads like a refusal. Requests of any kind at any time are among them. */
  predicate Ordinary(st: Step) {
    !st.Close? && !st.Open? && (st.Chatter? ==> !IsRefusal(st.msg))
  }

  lemma SurplusStays(l: Link, st: Step)
    requires Surplus(l) && Enabled(l, st) && Ordinary(st)
    ensures Surplus(Apply(l, st))
  {
    match st
    case Recv =>
      RecvRequests(l.books, l.toClient[0]);
      hide LooksLikeCaptureRefusal, Receive, EraseFirst;
    case Finish(id, captures) =>
      AnswersAppend(l.toClient, ResultMessage(l.server.kind, id, captures));
      hide LooksLikeCaptureRefusal, Answers;
    case Ship(camera, frameId) =>
      AnswersAppend(l.toClient, FrameMessage(l.server.kind, l.server.id, camera, frameId));
      hide LooksLikeCaptureRefusal, Answers;
    case Refuse(m) =>
      AnswersAppend(l.toClient, Error("", m));
      hide LooksLikeCaptureRefusal, Answers;
    case Chatter(m) =>
      AnswersAppend(l.toClient, m);
      hide LooksLikeCaptureRefusal, Answers;
    case _ => hide LooksLikeCaptureRefusal, Answers;
  }

  /** A surplus is for good: as long as the connection stays open, whatever is
      asked, answered and sent on it, it reports a capture in progress. */
  lemma {:induction false} SurplusSticks(l: Link, steps: seq<Step>)
    requires Surplus(l) && Runs(l, steps) && forall st | st in steps :: Ordinary(st)
    ensures InProgress(Run(l, steps).books)
    decreases |steps|
  {
    if steps != [] {
      assert steps[0] in steps && forall st | st in steps[1..] :: st in steps;
      SurplusStays(l, steps[0]);
      hide Surplus, Ordinary, Apply, Enabled;
      SurplusSticks(Apply(l, steps[0]), steps[1..]);
    }
  }

  const OVERLAPPING := "capture already running"

  /** The client asks an idle server for `first` and, without waiting, for
      `second`. The server takes the first, refuses the second, and finishes the
      first with any result. */
  function Crossing(first: CaptureKind, second: CaptureKind, id: U32, captures: seq<Entry>): seq<Step> {
    [Open, Note(first), Send(true), Accept, Note(second), Send(true), Refuse(OVERLAPPING), Recv,
     Finish(id, captures), Recv]
  }

  /** The requests on record before step `i` of that run. */
  function Asked(i: nat, first: CaptureKind, second: CaptureKind): seq<CaptureKind> {
    if i < 2 then []
    else if i < 5 then [first]
    else if i < 8 then [first, second]
    else if i < 10 || first != second then [second]
    else []
  }

  /** The link before step `i`. */
  function Crossed(i: nat, first: CaptureKind, second: CaptureKind, id: U32, captures: seq<Entry>): Link {
    var entries, refusal := Announced(first, captures), if i < 8 then "" else OVERLAPPING;
    var books := if i < 10 then Books(Asked(i, first, second), false, Trigger, 0, [], 0, refusal)
                 else Books(Asked(i, first, second), true, first, id, entries, 0, refusal);
    Link(
      i > 0, books, if i == 2 then Some(first) else if i == 5 then Some(second) else None,
      if i == 3 then [first] else if i == 6 then [second] else [],
      if i < 4 then Idle else if i < 9 then Busy(first) else After(first, id, |entries|),
      if i == 7 then [Error("", OVERLAPPING)] else if i == 9 then [ResultMessage(first, id, captures)] else [],
      if i < 2 then Trigger else if i < 5 then first else second, [], [])
  }

  ghost predicate StepsTo(l: Link, st: Step, l2: Link) {
    Enabled(l, st) && Apply(l, st) == l2
  }

  lemma CrossedAsk(i: nat, first: CaptureKind, second: CaptureKind, id: U32, captures: seq<Entry>)
    requires i < 6
    ensures StepsTo(Crossed(i, first, second, id, captures), Crossing(first, second, id, captures)[i],
                    Crossed(i + 1, first, second, id, captures))
  {
    hide LooksLikeCaptureRefusal, Receive, Announced;
  }

  lemma CrossedAnswer(i: nat, first: CaptureKind, second: CaptureKind, id: U32, captures: seq<Entry>)
    requires 6 <= i < 10
    ensures StepsTo(Crossed(i, first, second, id, captures), Crossing(first, second, id, captures)[i],
                    Crossed(i + 1, first, second, id, captures))
  {
    hide LooksLikeCaptureRefusal, Receive, EraseFirst, Announced;
    if i < 8 {
      ThisIsARefusal();
    }
    if i == 7 {
      RefusalPops(Crossed(7, first, second, id, captures));
    } else if i == 9 {
      ResultPops(Crossed(9, first, second, id, captures), first, id, captures);
    }
  }

  lemma ResultPops(l: Link, k: CaptureKind, id: U32, captures: seq<Entry>)
    requires |l.books.requests| == 1 && l.toClient == [ResultMessage(k, id, captures)]
    ensures StepsTo(l, Recv, l.(toClient := [], got := [], books := l.books.(
              requests := if l.books.requests[0] == k then [] else l.books.requests,
              acked := true, kind := k, id := id, entries := Announced(k, captures), received := 0)))
  {
    EraseOnly(k, l.books.requests[0]);
    assert l.books.requests == [l.books.requests[0]];
    assert l.toClient[1..] == [];
    hide EraseFirst, Announced;
  }

  lemma RefusalPops(l: Link)
    requires |l.books.requests| == 2 && l.toClient == [Error("", OVERLAPPING)]
    ensures StepsTo(l, Recv, l.(toClient := [], books := l.books.(
              requests := [l.books.requests[1]], lastRefusal := OVERLAPPING)))
  {
    ThisIsARefusal();
    hide LooksLikeCaptureRefusal;
    assert l.books.requests[1..] == [l.books.requests[1]];
    assert l.toClient[1..] == [];
  }

  lemma ThisIsARefusal()
    ensures LooksLikeCaptureRefusal(OVERLAPPING)
  {
    assert OVERLAPPING[..7] == "capture";
  }

  lemma {:induction false} CrossedRuns(i: nat, first: CaptureKind, second: CaptureKind, id: U32, captures: seq<Entry>)
    requires i <= 10
    ensures var l, left := Crossed(i, first, second, id, captures), Crossing(first, second, id, captures)[i..];
            Runs(l, left) && Run(l, left) == Crossed(10, first, second, id, captures)
    decreases 10 - i
  {
    if i < 10 {
      if i < 6 {
        CrossedAsk(i, first, second, id, captures);
      } else {
        CrossedAnswer(i, first, second, id, captures);
      }
      CrossedRuns(i + 1, first, second, id, captures);
      var steps := Crossing(first, second, id, captures);
      hide Crossed, Crossing, Enabled, Apply;
      assert steps[i..][0] == steps[i] && steps[i..][1..] == steps[i + 1..];
    }
  }

  /** After such a run nothing is on record exactly when both requests were of
      one kind. Otherwise the connection is in progress for good. */
  lemma MixedKindsStick(first: CaptureKind, second: CaptureKind, id: U32, captures: seq<Entry>)
    ensures Runs(NEW_LINK, Crossing(first, second, id, captures))
    ensures var l := Run(NEW_LINK, Crossing(first, second, id, captures));
            && l.toServer == [] && l.toClient == [] && !l.server.Busy?
            && (l.books.requests == [] <==> first == second)
            && (first != second ==>
                forall later | Runs(l, later) && (forall st | st in later :: Ordinary(st)) ::
                  InProgress(Run(l, later).books))
  {
    CrossedRuns(0, first, second, id, captures);
    assert Crossed(0, first, second, id, captures) == NEW_LINK;
    assert Crossing(first, second, id, captures)[0..] == Crossing(first, second, id, captures);
    var l := Crossed(10, first, second, id, captures);
    if first != second {
      assert Surplus(l);
      forall later | Runs(l, later) && (forall st | st in later :: Ordinary(st))
        ensures InProgress(Run(l, later).books)
      {
        SurplusSticks(l, later);
      }
    }
    hide Run, Runs, Announced;
  }
}
