/**
 Several connections, their servers and one client together. A capture is
 booked twice: by the connection, and then -- after the connection's lock is
 released, by a callback under another lock -- by the client
 (src/net/WebSocketClient.cpp:350-358, 375-388, 406-417, 131-157 and
 src/client/Client.cpp:17-41, 177-291). Each critical section is one step.
 */
module CaptureSystem {
  import opened Bytes
  import opened Options
  import opened CaptureBooks
  import opened Rendezvous
  import CL = CaptureLink

  /** A connection, and the callback its receive thread is about to make. */
  datatype Node = Node(link: CL.Link, cb: Option<Report>)

  /** `todo` are the servers a running capture call has not come to yet, `sent`
      those its request reached, and `cut` those whose connection closed or
      opened since the call was armed. */
  datatype System = System(nodes: seq<Node>, waiting: Waiting, todo: set<nat>, sent: set<nat>, cut: set<nat>)

  datatype Step =
    | AtServer(i: nat, st: CL.Step)   // the server, or the network
    | Receive(i: nat)                 // the connection books a message
    | Deliver(i: nat)                 // its callback reaches the client
    | Arm(kind: CaptureKind)          // runCapture, past the gate
    | Ask(i: nat)                     // sendCaptureRequest: the note
    | Send(i: nat, ok: bool)          // and the send
    | Prune
    | Return

  predicate ByItself(st: CL.Step) {
    st.Accept? || st.Refuse? || st.Finish? || st.Ship? || st.Chatter? || st.Close? || st.Open?
  }

  function Connected(nodes: seq<Node>): seq<bool> {
    seq(|nodes|, i requires 0 <= i < |nodes| => nodes[i].link.connected)
  }

  function UpTo(n: nat): (ids: set<nat>)
    ensures forall i: nat :: i in ids <==> i < n
  {
    if n == 0 then {} else UpTo(n - 1) + {n - 1}
  }

  predicate NoneNoted(nodes: seq<Node>) {
    forall i | 0 <= i < |nodes| :: nodes[i].link.noted.None?
  }

  /** anyCaptureInProgress is false. */
  predicate GateOpen(nodes: seq<Node>) {
    forall i | 0 <= i < |nodes| :: nodes[i].link.connected ==> !InProgress(nodes[i].link.books)
  }

  predicate Enabled(s: System, st: Step) {
    match st
    case AtServer(i, ls) =>
      i < |s.nodes| && ByItself(ls) && CL.Enabled(s.nodes[i].link, ls)
        && (ls.Close? || ls.Open? ==> s.nodes[i].cb.None?)
    case Receive(i) => i < |s.nodes| && s.nodes[i].cb.None? && CL.Enabled(s.nodes[i].link, CL.Recv)
    case Deliver(i) => i < |s.nodes| && s.nodes[i].cb.Some?
    case Arm(_) => !s.waiting.active && GateOpen(s.nodes) && NoneNoted(s.nodes)
    case Ask(i) => i < |s.nodes| && s.waiting.active && i in s.todo
        && CL.Enabled(s.nodes[i].link, CL.Note(s.waiting.kind))
    case Send(i, ok) => i < |s.nodes| && CL.Enabled(s.nodes[i].link, CL.Send(ok))
    case Prune => s.waiting.active && NoneNoted(s.nodes)
    case Return => s.waiting.active && s.todo == {} && NoneNoted(s.nodes)
  }

  function Linked(s: System, i: nat, l: CL.Link): System
    requires i < |s.nodes|
  {
    s.(nodes := s.nodes[i := s.nodes[i].(link := l)])
  }

  function Apply(s: System, st: Step): System
    requires Enabled(s, st)
  {
    match st
    case AtServer(i, ls) =>
      var t := Linked(s, i, CL.Apply(s.nodes[i].link, ls));
      if ls.Close? || ls.Open? then t.(cut := t.cut + {i}) else t
    case Receive(i) =>
      var n := s.nodes[i];
      s.(nodes := s.nodes[i :=
        Node(CL.Apply(n.link, CL.Recv), CaptureBooks.Receive(n.link.books, n.link.toClient[0]).1)])
    case Deliver(i) =>
      s.(nodes := s.nodes[i := s.nodes[i].(cb := None)], waiting := Hear(s.waiting, From(i, s.nodes[i].cb.value)))
    case Arm(kind) =>
      s.(waiting := Armed(kind, Connected(s.nodes)), todo := UpTo(|s.nodes|), sent := {}, cut := {})
    case Ask(i) => Linked(s, i, CL.Apply(s.nodes[i].link, CL.Note(s.waiting.kind))).(todo := s.todo - {i})
    case Send(i, ok) =>
      var t := Linked(s, i, CL.Apply(s.nodes[i].link, CL.Send(ok)));
      if ok then t.(sent := t.sent + {i}) else t
    case Prune =>
      s.(waiting := s.waiting.(pending := map i | i in s.waiting.pending && i in s.sent :: s.waiting.pending[i]),
        todo := {})
    case Return => s.(waiting := s.waiting.(active := false, pending := map[]))
  }

  ghost predicate OnlyAFrame(cb: Option<Report>) {
    cb.None? || cb.value.FrameIn?
  }

  /** What a run is assumed to keep to: the server's side of a link is calm,
      and a call is not armed while a connection has booked an answer of an
      earlier capture but not yet told the client. */
  predicate Calm(s: System, st: Step)
    requires Enabled(s, st)
  {
    match st
    case AtServer(i, ls) => CL.Calm(s.nodes[i].link, ls)
    case Arm(_) => forall i | 0 <= i < |s.nodes| :: s.nodes[i].cb.None? || s.nodes[i].cb.value.FrameIn?
    case _ => true
  }

  // ---- The invariant, one connection at a time ----

  ghost predicate Fresh(l: CL.Link) {
    l.noted.None? && !InProgress(l.books)
  }

  /** The connection's books and the client's agree about an acked capture;
      a frame already booked may still be on its way to the client. */
  ghost predicate Agree(l: CL.Link, cb: Option<Report>, p: Pending, kind: CaptureKind) {
    var b := l.books;
    && b.acked && b.kind == kind && b.id == p.id && |b.entries| == p.expected
    && l.got == p.frames + (if cb.Some? && cb.value.FrameIn? && cb.value.matched then [cb.value.frame] else [])
    && b.received == |l.got|
    && (cb.Some? && cb.value.FrameIn? ==> (cb.value.matched <==> Takes(p, kind, cb.value.frame)))
  }

  ghost predicate ResultOf(b: Books, r: Report, kind: CaptureKind) {
    r.Result? && r.kind == kind && b.acked && b.kind == kind && b.id == r.id
      && b.entries == Announced(kind, r.captures) && b.received == 0
  }

  ghost predicate InStep(n: Node, todo: bool, p: Pending, kind: CaptureKind) {
    var b := n.link.books;
    && (todo ==> p == NEW_PENDING && OnlyAFrame(n.cb))
    && (b.requests != [] ==> !p.acked && n.link.mode == kind && OnlyAFrame(n.cb))
    && (!OnlyAFrame(n.cb) ==> !p.acked && (n.cb.value.Result? ==> ResultOf(b, n.cb.value, kind) && n.link.got == []))
    && (p.acked ==> Agree(n.link, n.cb, p, kind))
  }

  ghost predicate NodeInv(n: Node, todo: bool, p: Option<Pending>, kind: CaptureKind, whole: bool) {
    && CL.Inv(n.link) && CL.OneAtATime(n.link)
    && (todo ==> Fresh(n.link))
    && (n.cb.Some? ==> WellFormed(n.cb.value))
    && (p.Some? ==> PendingInv(p.value, kind) && (whole ==> InStep(n, todo, p.value, kind)))
  }

  function PartOf(s: System, i: nat): Option<Pending> {
    if s.waiting.active && i in s.waiting.pending then Some(s.waiting.pending[i]) else None
  }

  ghost predicate Holds(s: System, i: nat)
    requires i < |s.nodes|
  {
    NodeInv(s.nodes[i], i in s.todo, PartOf(s, i), s.waiting.kind, i !in s.cut)
  }

  ghost predicate Inv(s: System) {
    forall i | 0 <= i < |s.nodes| :: Holds(s, i)
  }

  // ---- Steps of one connection ----

  /** On a fresh link nothing arrives that the books or the client would note. */
  lemma FreshHearsNothing(l: CL.Link)
    requires CL.Inv(l) && Fresh(l) && l.toClient != []
    ensures CaptureBooks.Receive(l.books, l.toClient[0]) == (l.books, None)
  {
    CL.QuietWhenDone(l);
    assert l.toClient[0] in l.toClient;
    hide LooksLikeCaptureRefusal;
  }

  lemma LinkKeeps(l: CL.Link, st: CL.Step)
    requires CL.Inv(l) && CL.OneAtATime(l) && CL.Enabled(l, st) && CL.Gated(l, st)
    ensures CL.Inv(CL.Apply(l, st)) && CL.OneAtATime(CL.Apply(l, st))
  {
    CL.StepKeeps(l, st);
    CL.GatedKeeps(l, st);
  }

  lemma AtServerKeeps(n: Node, todo: bool, p: Option<Pending>, kind: CaptureKind, whole: bool, st: CL.Step)
    requires NodeInv(n, todo, p, kind, whole)
    requires ByItself(st) && CL.Enabled(n.link, st) && CL.Calm(n.link, st)
    ensures NodeInv(n.(link := CL.Apply(n.link, st)), todo, p, kind, whole && !st.Close? && !st.Open?)
  {
    LinkKeeps(n.link, st);
    ServerLeavesBooks(n.link, st);
    hide CL.Inv, CL.Enabled, CL.Calm, CL.Apply, CL.OneAtATime, WellFormed, PendingInv;
  }

  /** What the server does leaves the books alone. */
  lemma ServerLeavesBooks(l: CL.Link, st: CL.Step)
    requires ByItself(st) && CL.Enabled(l, st)
    ensures var r := CL.Apply(l, st);
            && r.mode == l.mode
            && (!st.Close? && !st.Open? ==> r.books == l.books && r.got == l.got)
            && (Fresh(l) ==> Fresh(r))
  {
  }

  lemma AskKeeps(n: Node, p: Option<Pending>, kind: CaptureKind, whole: bool)
    requires NodeInv(n, true, p, kind, whole) && CL.Enabled(n.link, CL.Note(kind))
    ensures NodeInv(n.(link := CL.Apply(n.link, CL.Note(kind))), false, p, kind, whole)
  {
    LinkKeeps(n.link, CL.Note(kind));
    hide CL.Inv, CL.OneAtATime, WellFormed, PendingInv;
  }

  lemma SendKeeps(n: Node, todo: bool, p: Option<Pending>, kind: CaptureKind, whole: bool, ok: bool)
    requires NodeInv(n, todo, p, kind, whole) && CL.Enabled(n.link, CL.Send(ok))
    ensures NodeInv(n.(link := CL.Apply(n.link, CL.Send(ok))), todo, p, kind, whole)
  {
    LinkKeeps(n.link, CL.Send(ok));
    assert !ok ==> CL.Apply(n.link, CL.Send(ok)).books == Withdrawn(n.link.books, n.link.noted.value);
    hide CL.Inv, CL.OneAtATime, WellFormed, PendingInv;
  }

  /** What the connection books: an answer resolves its one request, and the
      callback about to be made says what the books now say. */
  lemma BookingIs(l: CL.Link, m: Message)
    requires CL.Inv(l) && CL.OneAtATime(l) && l.toClient != [] && m == l.toClient[0]
    ensures var r, got := CaptureBooks.Receive(l.books, m), CL.Gotten(l.got, m);
            match r.1
            case None => r.0 == l.books && got == l.got
            case Some(Result(k, id, captures)) =>
              l.books.requests != [] && k == l.mode && r.0.requests == [] && ResultOf(r.0, r.1.value, l.mode)
                && got == []
            case Some(Refused(k, _)) => l.books.requests != [] && k == l.mode && r.0.requests == [] && got == l.got
            case Some(FrameIn(f, matched, _)) =>
              matched && Matches(l.books, f) && r.0 == l.books.(received := l.books.received + 1) && got == l.got + [f]
  {
    CL.AnswerResolvesOne(l.books, m, l.mode);
  }

  function Booked(n: Node): Node
    requires CL.Enabled(n.link, CL.Recv)
  {
    Node(CL.Apply(n.link, CL.Recv), CaptureBooks.Receive(n.link.books, n.link.toClient[0]).1)
  }

  lemma ReceiveInStep(n: Node, p: Pending, kind: CaptureKind)
    requires CL.Inv(n.link) && CL.OneAtATime(n.link) && CL.Enabled(n.link, CL.Recv) && n.cb.None?
    requires PendingInv(p, kind) && InStep(n, false, p, kind)
    ensures InStep(Booked(n), false, p, kind)
  {
    BookingIs(n.link, n.link.toClient[0]);
    hide CL.Inv, CL.OneAtATime, CaptureBooks.Receive, Announced, CL.Gotten;
  }

  lemma ReceiveKeeps(n: Node, todo: bool, p: Option<Pending>, kind: CaptureKind, whole: bool)
    requires NodeInv(n, todo, p, kind, whole) && CL.Enabled(n.link, CL.Recv) && n.cb.None?
    ensures NodeInv(Booked(n), todo, p, kind, whole)
  {
    LinkKeeps(n.link, CL.Recv);
    ReportsAreWellFormed(n.link.books, n.link.toClient[0]);
    if todo {
      FreshHearsNothing(n.link);
    } else if p.Some? && whole {
      ReceiveInStep(n, p.value, kind);
    }
    hide CL.Inv, CL.OneAtATime, WellFormed, PendingInv, CaptureBooks.Receive;
  }

  lemma DeliverKeeps(n: Node, todo: bool, p: Option<Pending>, kind: CaptureKind, whole: bool)
    requires NodeInv(n, todo, p, kind, whole) && n.cb.Some?
    ensures NodeInv(n.(cb := None), todo, if p.Some? then Some(Heard(p.value, kind, n.cb.value)) else None, kind, whole)
  {
    if p.Some? {
      HeardKeeps(p.value, kind, n.cb.value);
    }
    hide CL.Inv, CL.OneAtATime, WellFormed, PendingInv, Announced;
  }

  lemma ArmKeeps(n: Node, p: Option<Pending>, before: CaptureKind, whole: bool, todo: bool, kind: CaptureKind)
    requires NodeInv(n, todo, p, before, whole)
    requires n.link.noted.None? && (n.link.connected ==> !InProgress(n.link.books)) && OnlyAFrame(n.cb)
    ensures NodeInv(n, true, if n.link.connected then Some(NEW_PENDING) else None, kind, true)
  {
    NewIsFine(kind);
    if !n.link.connected {
      assert CL.ReceiveAll(CL.Bare(n.link.books), []) == CL.Bare(n.link.books);
    }
  }

  lemma LessKeeps(n: Node, todo: bool, p: Option<Pending>, kind: CaptureKind, whole: bool)
    requires NodeInv(n, todo, p, kind, whole)
    ensures NodeInv(n, false, p, kind, whole) && NodeInv(n, false, None, kind, whole)
            && NodeInv(n, todo, None, kind, whole)
  {
  }

  // ---- The whole system ----

  lemma OthersKeep(s: System, t: System, i: nat)
    requires Inv(s) && i < |s.nodes| == |t.nodes|
    requires forall j | 0 <= j < |s.nodes| && j != i ::
               t.nodes[j] == s.nodes[j] && (j in t.todo <==> j in s.todo) && PartOf(t, j) == PartOf(s, j)
                 && (j in t.cut <==> j in s.cut)
    requires t.waiting.kind == s.waiting.kind
    requires Holds(t, i)
    ensures Inv(t)
  {
    hide NodeInv, PartOf;
    forall j | 0 <= j < |t.nodes| ensures Holds(t, j) {
      assert j != i ==> Holds(s, j);
    }
  }

  lemma OwnStepKeeps(s: System, st: Step)
    requires Inv(s) && Enabled(s, st) && Calm(s, st)
    requires st.AtServer? || st.Receive? || st.Deliver?
    ensures Inv(Apply(s, st))
  {
    var t, i := Apply(s, st), st.i;
    hide NodeInv, CL.Apply, CL.Enabled, CL.Calm, Heard, GateOpen, CaptureBooks.Receive, Announced,
         LooksLikeCaptureRefusal;
    assert Holds(s, i);
    if st.AtServer? {
      AtServerKeeps(s.nodes[i], i in s.todo, PartOf(s, i), s.waiting.kind, i !in s.cut, st.st);
    } else if st.Receive? {
      ReceiveKeeps(s.nodes[i], i in s.todo, PartOf(s, i), s.waiting.kind, i !in s.cut);
    } else {
      DeliverKeeps(s.nodes[i], i in s.todo, PartOf(s, i), s.waiting.kind, i !in s.cut);
    }
    OthersKeep(s, t, i);
  }

  lemma RequestKeeps(s: System, st: Step)
    requires Inv(s) && Enabled(s, st) && (st.Ask? || st.Send?)
    ensures Inv(Apply(s, st))
  {
    var t, i := Apply(s, st), st.i;
    hide NodeInv, CL.Apply, CL.Enabled;
    assert Holds(s, i);
    if st.Ask? {
      AskKeeps(s.nodes[i], PartOf(s, i), s.waiting.kind, i !in s.cut);
    } else {
      SendKeeps(s.nodes[i], i in s.todo, PartOf(s, i), s.waiting.kind, i !in s.cut, st.ok);
    }
    OthersKeep(s, t, i);
  }

  lemma CallKeeps(s: System, st: Step)
    requires Inv(s) && Enabled(s, st) && Calm(s, st) && (st.Arm? || st.Prune? || st.Return?)
    ensures Inv(Apply(s, st))
  {
    var t := Apply(s, st);
    hide NodeInv;
    forall i | 0 <= i < |t.nodes| ensures Holds(t, i) {
      assert Holds(s, i);
      if st.Arm? {
        ArmKeepsAt(s, i, st.kind);
      } else {
        LessKeeps(s.nodes[i], i in s.todo, PartOf(s, i), s.waiting.kind, i !in s.cut);
      }
    }
  }

  lemma StepKeeps(s: System, st: Step)
    requires Inv(s) && Enabled(s, st) && Calm(s, st)
    ensures Inv(Apply(s, st))
  {
    if st.AtServer? || st.Receive? || st.Deliver? {
      OwnStepKeeps(s, st);
    } else if st.Ask? || st.Send? {
      RequestKeeps(s, st);
    } else {
      CallKeeps(s, st);
    }
    hide Inv, Enabled, Calm, Apply;
  }

  lemma ArmKeepsAt(s: System, i: nat, kind: CaptureKind)
    requires i < |s.nodes| && Holds(s, i) && Enabled(s, Arm(kind)) && Calm(s, Arm(kind))
    ensures Holds(Apply(s, Arm(kind)), i)
  {
    ArmKeeps(s.nodes[i], PartOf(s, i), s.waiting.kind, i !in s.cut, i in s.todo, kind);
    hide NodeInv;
  }

  /** `n` connections, never opened, and an idle client. */
  function Start(n: nat): System {
    System(seq(n, _ => Node(CL.NEW_LINK, None)), Waiting(false, Trigger, map[]), {}, {}, {})
  }

  ghost predicate Runs(s: System, steps: seq<Step>)
    decreases |steps|
  {
    steps == [] || (Enabled(s, steps[0]) && Calm(s, steps[0]) && Runs(Apply(s, steps[0]), steps[1..]))
  }

  function Run(s: System, steps: seq<Step>): System
    requires Runs(s, steps)
    decreases |steps|
  {
    if steps == [] then s else Run(Apply(s, steps[0]), steps[1..])
  }

  lemma {:induction false} RunKeeps(s: System, steps: seq<Step>)
    requires Inv(s) && Runs(s, steps)
    ensures Inv(Run(s, steps))
    decreases |steps|
  {
    hide Inv, Enabled, Calm, Apply;
    if steps != [] {
      StepKeeps(s, steps[0]);
      RunKeeps(Apply(s, steps[0]), steps[1..]);
    }
  }

  lemma StartHolds(n: nat)
    ensures Inv(Start(n))
  {
    assert CL.Inv(CL.NEW_LINK);
  }

  /** Between the last look at the gate and arming, receive threads and servers
      may go on: on a link found without a capture none appears by itself. */
  lemma GateStaysOpen(l: CL.Link, st: CL.Step)
    requires CL.Inv(l) && Fresh(l) && CL.Enabled(l, st) && CL.Calm(l, st) && !st.Note?
    ensures Fresh(CL.Apply(l, st))
  {
    if st.Recv? {
      FreshHearsNothing(l);
    } else {
      ServerLeavesBooks(l, st);
    }
    hide CL.Inv, LooksLikeCaptureRefusal, CaptureBooks.Receive;
  }

  // ---- What holds in every run ----

  lemma Reached(n: nat, steps: seq<Step>, i: nat)
    requires Runs(Start(n), steps) && i < |Run(Start(n), steps).nodes|
    ensures Holds(Run(Start(n), steps), i)
  {
    StartHolds(n);
    RunKeeps(Start(n), steps);
  }

  /** The two bookkeepers agree: on a connection that stayed open since the
      call was armed, once the client has a server's result, both hold the same
      kind, id and number of announced frames. When the client is done with the
      server, its connection is no longer in progress; with no callback under
      way both have received the same number of frames, and the client is done
      exactly when the connection is no longer in progress. */
  lemma BookkeepersAgree(n: nat, steps: seq<Step>, i: nat)
    requires Runs(Start(n), steps)
    ensures var s := Run(Start(n), steps);
            i < |s.nodes| && s.waiting.active && i in s.waiting.pending && i !in s.cut && s.waiting.pending[i].acked ==>
              var p, b := s.waiting.pending[i], s.nodes[i].link.books;
              && b.acked && b.kind == s.waiting.kind && b.id == p.id && |b.entries| == p.expected
              && (p.done ==> !InProgress(b))
              && (s.nodes[i].cb.None? ==> b.received == |p.frames| && (p.done <==> !InProgress(b)))
  {
    var s := Run(Start(n), steps);
    if i < |s.nodes| {
      Reached(n, steps, i);
      hide CL.Inv, CL.OneAtATime, Run, Runs, Announced;
    }
  }

  /** What a finished server's frames are: on a connection that stayed open,
      from the moment the client is done with the server it holds exactly the
      frames the server sent for its result, each once and in the order they
      were sent. */
  lemma ClientHoldsWhatWasSent(n: nat, steps: seq<Step>, i: nat)
    requires Runs(Start(n), steps)
    ensures var s := Run(Start(n), steps);
            i < |s.nodes| && s.waiting.active && i in s.waiting.pending && i !in s.cut
            && s.waiting.pending[i].acked && s.waiting.pending[i].done ==>
              s.waiting.pending[i].frames == s.nodes[i].link.shipped && s.nodes[i].link.server.Idle?
  {
    var s := Run(Start(n), steps);
    if i < |s.nodes| && s.waiting.active && i in s.waiting.pending && i !in s.cut
       && s.waiting.pending[i].acked && s.waiting.pending[i].done {
      Reached(n, steps, i);
      hide Run, Runs;
      FinishedLinkIsQuiet(s.nodes[i], i in s.todo, s.waiting.pending[i], s.waiting.kind);
    }
  }

  lemma FinishedLinkIsQuiet(n: Node, todo: bool, p: Pending, kind: CaptureKind)
    requires CL.Inv(n.link) && InStep(n, todo, p, kind) && PendingInv(p, kind) && p.acked && p.done
    ensures p.frames == n.link.shipped && n.link.server.Idle?
  {
    assert n.link.got == p.frames + [] && !InProgress(n.link.books) by {
      hide CL.Inv;
    }
    QuietAnyway(n.link);
    CL.EveryFrameArrives(n.link);
    hide CL.Inv;
  }

  /** Nothing recorded and nothing to receive: nothing under way. */
  lemma QuietAnyway(l: CL.Link)
    requires CL.Inv(l) && !InProgress(l.books)
    ensures CL.Quiet(l)
  {
    if l.noted.None? {
      CL.QuietWhenDone(l);
    } else {
      hide LooksLikeCaptureRefusal, CL.SameKind, CL.Expecting, CL.AllMatch, CL.Delivering;
    }
  }

  /** A request never reaches a server that is busy with an earlier capture,
      whatever the other servers do and whichever kinds are captured in turn. */
  lemma RequestsNeverOverlap(n: nat, steps: seq<Step>, i: nat)
    requires Runs(Start(n), steps)
    ensures var s := Run(Start(n), steps);
            i < |s.nodes| && s.nodes[i].link.toServer != [] ==>
              s.nodes[i].link.server.Idle? && |s.nodes[i].link.toServer| == 1
  {
    var s := Run(Start(n), steps);
    if i < |s.nodes| && s.nodes[i].link.toServer != [] {
      Reached(n, steps, i);
      CL.FindsServerIdle(s.nodes[i].link);
    }
  }

  /** What the client holds is never more than was announced, and a server it
      is done with and that did not refuse has sent every announced frame. */
  lemma CollectedIsSound(n: nat, steps: seq<Step>, i: nat)
    requires Runs(Start(n), steps)
    ensures var s := Run(Start(n), steps);
            i < |s.nodes| && s.waiting.active && i in s.waiting.pending ==>
              var p := s.waiting.pending[i];
              |p.frames| <= p.expected && (p.done && p.refusal == "" <==> Fulfilled(p, s.waiting.kind))
  {
    var s := Run(Start(n), steps);
    if i < |s.nodes| {
      Reached(n, steps, i);
      hide CL.Inv, CL.OneAtATime, Run, Runs, Announced, InStep;
    }
  }

  // ---- The callback between the two locks ----

  /** A call armed while a connection has booked an answer but not yet told the
      client takes that answer for its own, exactly when it is an answer to a
      capture of the same kind. A frame in that place does no harm. */
  lemma StaleCallbackFoolsExactly(s: System, i: nat, kind: CaptureKind)
    requires Enabled(s, Arm(kind)) && i < |s.nodes| && s.nodes[i].link.connected && s.nodes[i].cb.Some?
    ensures var r, t := s.nodes[i].cb.value, Apply(Apply(s, Arm(kind)), Deliver(i));
            t.waiting.pending[i] == NEW_PENDING <==> r.FrameIn? || r.kind != kind
  {
    var a := Apply(s, Arm(kind));
    assert i in a.waiting.pending && a.waiting.pending[i] == NEW_PENDING;
    hide Announced;
  }

  /** One server; a call asks it for a trigger and gives up waiting; the server
      then finishes with no frame (say, a cancelled trigger). */
  function LateResult(id: U32): seq<Step> {
    [AtServer(0, CL.Open), Arm(Trigger), Ask(0), Send(0, true), Return, AtServer(0, CL.Accept),
      AtServer(0, CL.Finish(id, [])), Receive(0)]
  }

  /** The next call can then be armed and is over before it has asked for
      anything, with the earlier capture's id and no frame. */
  lemma StaleCallbackArises(id: U32)
    ensures Runs(Start(1), LateResult(id))
    ensures var s := Run(Start(1), LateResult(id));
            && Enabled(s, Arm(Trigger))
            && var t := Apply(s, Arm(Trigger));
               && Enabled(t, Deliver(0))
               && var u := Apply(t, Deliver(0));
                  && 0 in u.todo && 0 in u.waiting.pending
                  && u.waiting.pending[0] == NEW_PENDING.(done := true, acked := true, id := id)
  {
    LateRun(0, id);
    var steps := LateResult(id);
    assert steps[0..] == steps;
    assert Late(0, id) == Start(1);
    var t := Apply(Late(8, id), Arm(Trigger));
    assert 0 in t.waiting.pending;
    hide Late, LateResult, Runs, Run, Enabled;
  }

  /** The system before step `i` of that run. */
  function Late(i: nat, id: U32): System {
    var books := Books(if 3 <= i < 8 then [Trigger] else [], i >= 8, Trigger, if i < 8 then 0 else id, [], 0, "");
    var link := CL.Link(i > 0, books, if i == 3 then Some(Trigger) else None, if 4 <= i < 6 then [Trigger] else [],
                        if i == 6 then CL.Busy(Trigger) else CL.Idle,
                        if i == 7 then [TriggerResult(id, [])] else [], Trigger, [], []);
    System([Node(link, if i < 8 then None else Some(Result(Trigger, id, [])))],
           Waiting(2 <= i < 5, Trigger, if 2 <= i < 5 then map[0 := NEW_PENDING] else map[]),
           if i == 2 then {0} else {}, if i < 4 then {} else {0}, if i == 1 then {0} else {})
  }

  lemma {:induction false} LateRun(i: nat, id: U32)
    requires i <= 8
    ensures var left := LateResult(id)[i..]; Runs(Late(i, id), left) && Run(Late(i, id), left) == Late(8, id)
    decreases 8 - i
  {
    if i < 8 {
      if i < 5 {
        LateCall(i, id);
      } else {
        LateAnswer(i, id);
      }
      LateRun(i + 1, id);
      var steps := LateResult(id);
      hide Late, LateResult, Enabled, Apply, Calm;
      assert steps[i..][0] == steps[i] && steps[i..][1..] == steps[i + 1..];
    }
  }

  ghost predicate CalmStep(s: System, st: Step, t: System) {
    Enabled(s, st) && Calm(s, st) && Apply(s, st) == t
  }

  lemma LateCall(i: nat, id: U32)
    requires i < 5
    ensures CalmStep(Late(i, id), LateResult(id)[i], Late(i + 1, id))
  {
    if i == 1 {
      assert UpTo(1) == {0};
      assert Armed(Trigger, Connected(Late(1, id).nodes)).pending == map[0 := NEW_PENDING];
    }
    var s, asked := Late(i, id), [Trigger];
    assert [] + asked == asked;
    assert s.todo - {0} == {} && s.sent + {0} == {0};
    hide UpTo, Armed, CaptureBooks.Receive, LooksLikeCaptureRefusal;
  }

  lemma LateAnswer(i: nat, id: U32)
    requires 5 <= i < 8
    ensures CalmStep(Late(i, id), LateResult(id)[i], Late(i + 1, id))
  {
    EraseOnly(Trigger, Trigger);
    var asked, ack := [Trigger], [TriggerResult(id, [])];
    assert asked[1..] == [] && [] + ack == ack && ack[1..] == [];
    hide UpTo, Armed, EraseFirst, LooksLikeCaptureRefusal;
  }
}
