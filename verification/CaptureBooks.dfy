/**
 One connection's capture bookkeeping, as functions on its value: requests not
 yet answered, and the acked capture whose frames are arriving
 (src/net/WebSocketClient.cpp:114-185, 406-415, 494-505, 597-617).
 */
module CaptureBooks {
  import opened Bytes
  import opened Options
  import opened Protocol

  datatype CaptureKind = Trigger | Stack

  /** A camera's entry of a result, with its error if it failed. */
  datatype Entry = Entry(camera: U32, error: string)

  /** What of a delivered capture frame the bookkeeping looks at. */
  datatype CapturedFrame = CapturedFrame(frameKind: Byte, captureId: U16, camera: U32, frameId: U32)

  /** `requests` is oldest first; `entries` has one entry per frame announced. */
  datatype Books = Books(
    requests: seq<CaptureKind>, acked: bool, kind: CaptureKind, id: U32,
    entries: seq<Entry>, received: nat, lastRefusal: string)

  const NEW_BOOKS := Books([], false, Trigger, 0, [], 0, "")

  /** A message as it arrives on the connection. Everything that does not touch
      the capture bookkeeping -- live frames, replies, states -- is `Other`. */
  datatype Message =
    | TriggerResult(id: U32, captures: seq<Entry>)
    | StackResult(id: U32, captures: seq<Entry>)
    | Error(code: string, message: string)
    | CaptureFrame(frame: CapturedFrame)
    | Other

  /** What the connection's callbacks then report. */
  datatype Report =
    | Result(kind: CaptureKind, id: U32, captures: seq<Entry>)
    | Refused(kind: CaptureKind, message: string)
    | FrameIn(frame: CapturedFrame, matched: bool, entry: Option<Entry>)

  // ---- Refusal wording ----

  const REFUSAL_WORDS: seq<string> := [
    "capture", "stack", "trigger", "running", "exposure_time",
    "skip_frames", "num_frames", "analogue_gain", "send_image", "camera_id"]

  predicate Contains(m: string, word: string) {
    |word| <= |m| && (m[..|word|] == word || (m != [] && Contains(m[1..], word)))
  }

  predicate ContainsAny(m: string, words: seq<string>) {
    words != [] && (Contains(m, words[0]) || ContainsAny(m, words[1..]))
  }

  predicate LooksLikeCaptureRefusal(m: string) {
    ContainsAny(m, REFUSAL_WORDS)
  }

  ghost predicate OccursAt(m: string, word: string, i: nat) {
    i + |word| <= |m| && m[i..i + |word|] == word
  }

  lemma SliceOfTail(m: string, i: nat, n: nat)
    requires m != []
    ensures i + 1 + n <= |m| ==> m[i + 1..i + 1 + n] == m[1..][i..i + n]
  {
    if i + 1 + n <= |m| {
      var a, b := m[i + 1..i + 1 + n], m[1..][i..i + n];
      assert forall j | 0 <= j < n :: a[j] == b[j];
    }
  }

  lemma {:induction false} ContainsIsOccurrence(m: string, word: string)
    ensures Contains(m, word) <==> exists i :: OccursAt(m, word, i)
  {
    assert OccursAt(m, word, 0) <==> |word| <= |m| && m[..|word|] == word;
    if m != [] {
      ContainsIsOccurrence(m[1..], word);
      forall i: nat ensures OccursAt(m, word, i + 1) <==> OccursAt(m[1..], word, i) {
        SliceOfTail(m, i, |word|);
      }
      forall i: nat | OccursAt(m, word, i) && i > 0 ensures OccursAt(m[1..], word, i - 1) {
        assert OccursAt(m, word, i - 1 + 1);
      }
    }
  }

  lemma {:induction false} ShortestOfWords(m: string, words: seq<string>)
    requires ContainsAny(m, words)
    requires forall i | 0 <= i < |words| :: words[i] != []
    ensures m != []
  {
    if !Contains(m, words[0]) {
      ShortestOfWords(m, words[1..]);
    }
  }

  /** A recognised refusal says something, so an empty refusal text can stand
      for no refusal. */
  lemma RecognisedRefusalIsNotEmpty(m: string)
    requires LooksLikeCaptureRefusal(m)
    ensures m != ""
  {
    ShortestOfWords(m, REFUSAL_WORDS);
  }

  // ---- Operations ----

  /** Position of the oldest request of a kind, or the length. */
  function Oldest(ks: seq<CaptureKind>, k: CaptureKind): (i: nat)
    ensures i <= |ks|
    ensures i < |ks| ==> ks[i] == k
    ensures forall j | 0 <= j < i :: ks[j] != k
  {
    if ks == [] || ks[0] == k then 0 else 1 + Oldest(ks[1..], k)
  }

  /** Position of the newest request of a kind, or -1. */
  function Newest(ks: seq<CaptureKind>, k: CaptureKind): (i: int)
    ensures -1 <= i < |ks|
    ensures i >= 0 ==> ks[i] == k
    ensures forall j | i < j < |ks| :: ks[j] != k
  {
    if ks == [] || ks[|ks| - 1] == k then |ks| - 1 else Newest(ks[..|ks| - 1], k)
  }

  function EraseFirst(ks: seq<CaptureKind>, k: CaptureKind): (r: seq<CaptureKind>)
    ensures |r| == if k in ks then |ks| - 1 else |ks|
  {
    var i := Oldest(ks, k);
    if i < |ks| then ks[..i] + ks[i + 1..] else ks
  }

  function EraseLast(ks: seq<CaptureKind>, k: CaptureKind): (r: seq<CaptureKind>)
    ensures |r| == if k in ks then |ks| - 1 else |ks|
  {
    var i := Newest(ks, k);
    if i >= 0 then ks[..i] + ks[i + 1..] else ks
  }

  lemma EraseOnly(k: CaptureKind, x: CaptureKind)
    ensures EraseFirst([x], k) == if k == x then [] else [x]
  {
    assert [x][..0] + [x][1..] == [];
  }

  function Requested(b: Books, k: CaptureKind): Books {
    b.(requests := b.requests + [k])
  }

  function Withdrawn(b: Books, k: CaptureKind): Books {
    b.(requests := EraseLast(b.requests, k))
  }

  function Acked(b: Books, k: CaptureKind, id: U32, entries: seq<Entry>): Books {
    b.(requests := EraseFirst(b.requests, k), acked := true, kind := k, id := id, entries := entries, received := 0)
  }

  function Reset(b: Books): Books {
    b.(requests := [], acked := false, entries := [], received := 0)
  }

  /** The cameras of a stack result that will send an image. */
  function WithoutErrors(captures: seq<Entry>): (r: seq<Entry>)
    ensures |r| <= |captures|
    ensures forall e :: e in r <==> e in captures && e.error == ""
  {
    if captures == [] then []
    else
      var front, c := WithoutErrors(captures[..|captures| - 1]), captures[|captures| - 1];
      if c.error == "" then front + [c] else front
  }

  /** The entries a result announces frames for. */
  function Announced(k: CaptureKind, captures: seq<Entry>): seq<Entry> {
    if k.Trigger? then captures else WithoutErrors(captures)
  }

  function KindOf(f: CapturedFrame): CaptureKind {
    if f.frameKind == FRAME_STACK then Stack else Trigger
  }

  function Low16(id: U32): U16 {
    id % 0x1_0000
  }

  predicate Receiving(b: Books) {
    b.acked && b.received < |b.entries|
  }

  /** Whether a frame belongs to the capture whose frames are arriving. */
  predicate Matches(b: Books, f: CapturedFrame) {
    Receiving(b) && KindOf(f) == b.kind && f.captureId == Low16(b.id)
  }

  /** The first entry of a camera. */
  function EntryFor(entries: seq<Entry>, camera: U32): (r: Option<Entry>)
    ensures r.Some? <==> exists e :: e in entries && e.camera == camera
    ensures r.Some? ==> r.value in entries && r.value.camera == camera
  {
    if entries == [] then None
    else if entries[0].camera == camera then Some(entries[0])
    else EntryFor(entries[1..], camera)
  }

  /** One message: the new books, and what the callbacks report. */
  function Receive(b: Books, m: Message): (Books, Option<Report>) {
    match m
    case TriggerResult(id, captures) => (Acked(b, Trigger, id, Announced(Trigger, captures)),
        Some(Result(Trigger, id, captures)))
    case StackResult(id, captures) => (Acked(b, Stack, id, Announced(Stack, captures)),
        Some(Result(Stack, id, captures)))
    case Error(code, message) =>
      if code == "" && LooksLikeCaptureRefusal(message) && b.requests != [] then
        (b.(requests := b.requests[1..], lastRefusal := message), Some(Refused(b.requests[0], message)))
      else (b, None)
    case CaptureFrame(f) =>
      if !IsCaptureFrameKind(f.frameKind) then (b, None)
      else if Matches(b, f) then
        (b.(received := b.received + 1), Some(FrameIn(f, true, EntryFor(b.entries, f.camera))))
      else (b, Some(FrameIn(f, false, None)))
    case Other => (b, None)
  }

  datatype Progress = Progress(
    inProgress: bool, acked: bool, kind: CaptureKind, id: U32, expected: nat, received: nat)

  predicate InProgress(b: Books) {
    Receiving(b) || b.requests != []
  }

  // ---- What a result announces ----

  ghost predicate IsFirstOf(entries: seq<Entry>, camera: U32, i: nat)
    requires i < |entries|
  {
    entries[i].camera == camera && forall j | 0 <= j < i :: entries[j].camera != camera
  }

  /** A frame is paired with the first entry of its camera. */
  lemma {:induction false} FirstEntryIsTaken(entries: seq<Entry>, camera: U32, i: nat)
    requires i < |entries| && IsFirstOf(entries, camera, i)
    ensures EntryFor(entries, camera) == Some(entries[i])
  {
    if i > 0 {
      var tail := entries[1..];
      assert forall j | 0 <= j < i - 1 :: tail[j].camera == entries[j + 1].camera;
      FirstEntryIsTaken(tail, camera, i - 1);
    }
  }

  /** `es` holds one entry for each frame that a result of this kind announces:
      every entry of a trigger's, and of a stack's those without an error, each
      as often as it is there. */
  ghost predicate FramesToCome(es: seq<Entry>, k: CaptureKind, captures: seq<Entry>) {
    if k.Trigger? then es == captures
    else forall e: Entry :: multiset(es)[e] == if e.error == "" then multiset(captures)[e] else 0
  }

  lemma {:induction false} ImagesAre(captures: seq<Entry>, e: Entry)
    ensures multiset(WithoutErrors(captures))[e] == if e.error == "" then multiset(captures)[e] else 0
  {
    if captures != [] {
      var front, c := captures[..|captures| - 1], captures[|captures| - 1];
      assert captures == front + [c];
      ImagesAre(front, e);
    }
  }

  lemma AnnouncedIs(k: CaptureKind, captures: seq<Entry>)
    ensures FramesToCome(Announced(k, captures), k, captures)
  {
    forall e | k.Stack?
      ensures multiset(WithoutErrors(captures))[e] == if e.error == "" then multiset(captures)[e] else 0
    {
      ImagesAre(captures, e);
    }
  }

  /** How many frames those are does not depend on how they are listed. */
  lemma SameCount(es: seq<Entry>, fs: seq<Entry>, k: CaptureKind, captures: seq<Entry>)
    requires FramesToCome(es, k, captures) && FramesToCome(fs, k, captures)
    ensures |es| == |fs|
  {
    assert multiset(es) == multiset(fs);
    assert |multiset(es)| == |es| && |multiset(fs)| == |fs|;
  }

  /** What a connection books when a result arrives: the capture, none of its
      frames received yet, and one entry for each frame that will come. */
  lemma ResultIsBooked(b: Books, id: U32, captures: seq<Entry>)
    ensures var r := Receive(b, TriggerResult(id, captures)).0;
            && r.acked && r.kind == Trigger && r.id == id && r.received == 0
            && r.entries == captures
    ensures var r := Receive(b, StackResult(id, captures)).0;
            && r.acked && r.kind == Stack && r.id == id && r.received == 0
            && forall e: Entry :: multiset(r.entries)[e] == if e.error == "" then multiset(captures)[e] else 0
  {
    AnnouncedIs(Stack, captures);
  }

  /** A message is taken for a refusal exactly when one of the ten words occurs
      somewhere in it. */
  lemma {:induction false} SomeWordOccurs(m: string, words: seq<string>)
    ensures ContainsAny(m, words) <==> exists i, at :: 0 <= i < |words| && OccursAt(m, words[i], at)
  {
    if words != [] {
      var tail := words[1..];
      SomeWordOccurs(m, tail);
      ContainsIsOccurrence(m, words[0]);
      if i, at :| 0 <= i < |tail| && OccursAt(m, tail[i], at) {
        assert words[i + 1] == tail[i];
      }
      if i, at :| 0 <= i < |words| && OccursAt(m, words[i], at) {
        if i > 0 {
          assert tail[i - 1] == words[i];
        }
      }
    }
  }

  lemma RefusalWordingExactly(m: string)
    ensures LooksLikeCaptureRefusal(m)
            <==> exists i, at :: 0 <= i < |REFUSAL_WORDS| && OccursAt(m, REFUSAL_WORDS[i], at)
  {
    SomeWordOccurs(m, REFUSAL_WORDS);
  }

  // ---- Properties ----

  /** An error that answers no capture request leaves the books alone exactly
      when it is coded, does not use the refusal wording, or nothing waits. */
  lemma UnrelatedErrorHarmlessExactly(b: Books, code: string, message: string)
    ensures Receive(b, Error(code, message)) == (b, None)
            <==> code != "" || !LooksLikeCaptureRefusal(message) || b.requests == []
  {
    if code == "" && LooksLikeCaptureRefusal(message) && b.requests != [] {
      assert Receive(b, Error(code, message)).1 == Some(Refused(b.requests[0], message));
    }
  }

  // ---- A send that fails ----

  /** A message that only answers requests of `b` itself. */
  ghost predicate AnswersOwn(b: Books, m: Message) {
    match m
    case TriggerResult(_, _) => Trigger in b.requests
    case StackResult(_, _) => Stack in b.requests
    case Error(_, _) => b.requests != []
    case _ => true
  }

  /** What the receive thread may do while a request is being sent. */
  datatype Interruption = Got(msg: Message) | ConnectionReset

  function Arrive(b: Books, a: Interruption): Books {
    match a
    case Got(m) => Receive(b, m).0
    case ConnectionReset => Reset(b)
  }

  function ArriveAll(b: Books, arrivals: seq<Interruption>): Books
    decreases |arrivals|
  {
    if arrivals == [] then b else ArriveAll(Arrive(b, arrivals[0]), arrivals[1..])
  }

  /** Nobody answers the request that was never sent. */
  ghost predicate NoneForTheUnsent(b: Books, arrivals: seq<Interruption>)
    decreases |arrivals|
  {
    arrivals == [] ||
    ((arrivals[0].Got? ==> AnswersOwn(b, arrivals[0].msg)) && NoneForTheUnsent(Arrive(b, arrivals[0]), arrivals[1..]))
  }

  lemma EraseFirstBefore(ks: seq<CaptureKind>, k: CaptureKind, last: CaptureKind)
    requires k in ks
    ensures EraseFirst(ks + [last], k) == EraseFirst(ks, k) + [last]
  {
    var i, more := Oldest(ks, k), ks + [last];
    assert more[i] == k && forall j | 0 <= j < i :: more[j] != k;
    assert Oldest(more, k) == i;
    hide Oldest;
    assert more[..i] == ks[..i];
    assert more[i + 1..] == ks[i + 1..] + [last];
  }

  lemma EraseLastUndoes(ks: seq<CaptureKind>, k: CaptureKind)
    ensures EraseLast(ks + [k], k) == ks
  {
    assert (ks + [k])[..|ks|] == ks && (ks + [k])[|ks| + 1..] == [];
  }

  /** `x` is `b` with one more request, of kind `k`, at the back; or both were
      reset and hold none. */
  ghost predicate OneMore(x: Books, b: Books, k: CaptureKind) {
    x == b.(requests := x.requests) && (x.requests == b.requests + [k] || (x.requests == [] && b.requests == []))
  }

  lemma ArriveKeepsOneMore(x: Books, b: Books, k: CaptureKind, a: Interruption)
    requires OneMore(x, b, k)
    requires a.Got? ==> AnswersOwn(b, a.msg)
    ensures OneMore(Arrive(x, a), Arrive(b, a), k)
  {
    if a.Got? && x.requests == b.requests + [k] {
      match a.msg
      case TriggerResult(_, _) => EraseFirstBefore(b.requests, Trigger, k);
      case StackResult(_, _) => EraseFirstBefore(b.requests, Stack, k);
      case Error(_, _) => assert x.requests[1..] == b.requests[1..] + [k];
      case _ =>
    }
  }

  lemma {:induction false} ArriveAllKeepsOneMore(x: Books, b: Books, k: CaptureKind, arrivals: seq<Interruption>)
    requires OneMore(x, b, k) && NoneForTheUnsent(b, arrivals)
    ensures OneMore(ArriveAll(x, arrivals), ArriveAll(b, arrivals), k)
    decreases |arrivals|
  {
    if arrivals != [] {
      ArriveKeepsOneMore(x, b, k, arrivals[0]);
      hide OneMore, Arrive, AnswersOwn;
      ArriveAllKeepsOneMore(Arrive(x, arrivals[0]), Arrive(b, arrivals[0]), k, arrivals[1..]);
    }
  }

  /** A request whose send fails leaves no trace: whatever results, refusals,
      frames and resets the receive thread handled between the note and the
      withdrawal, the books are as if it had never been made. */
  lemma FailedSendIsInvisible(b: Books, k: CaptureKind, arrivals: seq<Interruption>)
    requires NoneForTheUnsent(b, arrivals)
    ensures Withdrawn(ArriveAll(Requested(b, k), arrivals), k) == ArriveAll(b, arrivals)
  {
    ArriveAllKeepsOneMore(Requested(b, k), b, k, arrivals);
    EraseLastUndoes(ArriveAll(b, arrivals).requests, k);
  }

  // ---- Two requests at once ----

  /** The server takes a request of kind `first`, refuses one of kind `second`
      sent behind it as overlapping, and then acks the first. The refusal pops
      the front request: it is reported for the request it refused, and the
      books end with nothing outstanding, exactly when the kinds agree.
      Otherwise a request stays recorded that no answer will ever resolve. */
  lemma OverlapResolvesExactly(
    b: Books, first: CaptureKind, second: CaptureKind, id: U32, captures: seq<Entry>, message: string)
    requires b.requests == [] && LooksLikeCaptureRefusal(message)
    ensures var asked := Requested(Requested(b, first), second);
            var r := Receive(asked, Error("", message));
            var ack := if first.Trigger? then TriggerResult(id, captures) else StackResult(id, captures);
            var done := Receive(r.0, ack).0;
            && r.1 == Some(Refused(first, message)) && r.0.lastRefusal == message
            && (r.1.value.kind == second <==> first == second)
            && (done.requests == [] <==> first == second)
            && (first != second ==> done.requests == [second])
  {
    var asked := Requested(Requested(b, first), second);
    assert asked.requests == [first, second] && asked.requests[1..] == [second];
    EraseOnly(first, second);
    hide EraseFirst;
  }
}
