/**
 Latest-wins delivery through a camera's slot (src/data/CameraStore.cpp:88-97
 and 169-177): publishing replaces the frame and bumps a sequence number, and a
 consumer takes the frame when its cursor differs from that number. Sequence
 numbers are unbounded here.
 */
module LatestWins {
  import opened Options
  import opened Seqs

  datatype Slot<F> = Slot(latest: Option<F>, number: nat)

  function Published<F>(s: Slot<F>, f: F): Slot<F> {
    Slot(Some(f), s.number + 1)
  }

  /** consumeIfNew: the frame, if it is new to this cursor, and the cursor. */
  function Polled<F>(s: Slot<F>, cursor: nat): (Option<F>, nat) {
    if s.latest.None? || s.number == cursor then (None, cursor) else (s.latest, s.number)
  }

  datatype Op<F> = Publish(frame: F) | Poll(consumer: nat)

  /** A slot, the consumers' cursors, and what each consumer has received. */
  datatype World<F> = World(slot: Slot<F>, cursors: map<nat, nat>, got: map<nat, seq<nat>>)

  function CursorOf<F>(w: World<F>, c: nat): nat {
    if c in w.cursors then w.cursors[c] else 0
  }

  /** The publications consumer `c` has received, by number from 1. */
  function GotBy<F>(w: World<F>, c: nat): seq<nat> {
    if c in w.got then w.got[c] else []
  }

  function Step<F>(w: World<F>, op: Op<F>): World<F> {
    match op
    case Publish(f) => w.(slot := Published(w.slot, f))
    case Poll(c) =>
      var p := Polled(w.slot, CursorOf(w, c));
      if p.0.None? then w
      else w.(cursors := w.cursors[c := p.1], got := w.got[c := GotBy(w, c) + [p.1]])
  }

  function Run<F>(w: World<F>, ops: seq<Op<F>>): World<F>
    decreases |ops|
  {
    if ops == [] then w else Step(Run(w, ops[..|ops| - 1]), ops[|ops| - 1])
  }

  /** A slot just after a rebuild, consumers that start from zero. */
  function Fresh<F>(): World<F> {
    World(Slot(None, 0), map[], map[])
  }

  function Frames<F>(ops: seq<Op<F>>): seq<F> {
    if ops == [] then []
    else
      var front := Frames(ops[..|ops| - 1]);
      match ops[|ops| - 1]
      case Publish(f) => front + [f]
      case Poll(_) => front
  }

  /** What one consumer's receipts and cursor keep, `n` frames in. */
  ghost predicate Receipts(got: seq<nat>, cursor: nat, n: nat) {
    && Increasing(got)
    && (forall i | 0 <= i < |got| :: 1 <= got[i] <= n)
    && cursor == (if got == [] then 0 else got[|got| - 1])
  }

  ghost predicate ConsumerInv<F>(w: World<F>, n: nat, c: nat) {
    Receipts(GotBy(w, c), CursorOf(w, c), n)
  }

  ghost predicate SlotInv<F>(w: World<F>, frames: seq<F>) {
    w.slot == Slot(if frames == [] then None else Some(frames[|frames| - 1]), |frames|)
  }

  lemma ReceiptsGrow(got: seq<nat>, cursor: nat, n: nat)
    requires Receipts(got, cursor, n)
    ensures Receipts(got, cursor, n + 1)
    ensures n > 0 && cursor != n ==> Receipts(got + [n], n, n)
  {
  }

  lemma StepKeeps<F>(w: World<F>, frames: seq<F>, op: Op<F>, c: nat)
    requires SlotInv(w, frames) && ConsumerInv(w, |frames|, c)
    ensures var frames' := if op.Publish? then frames + [op.frame] else frames;
            SlotInv(Step(w, op), frames') && ConsumerInv(Step(w, op), |frames'|, c)
  {
    ReceiptsGrow(GotBy(w, c), CursorOf(w, c), |frames|);
    hide Receipts;
  }

  lemma {:induction false} RunKeeps<F>(ops: seq<Op<F>>, c: nat)
    ensures SlotInv(Run(Fresh(), ops), Frames(ops)) && ConsumerInv(Run(Fresh(), ops), |Frames(ops)|, c)
    decreases |ops|
  {
    if ops != [] {
      var front := ops[..|ops| - 1];
      RunKeeps(front, c);
      StepKeeps(Run(Fresh(), front), Frames(front), ops[|ops| - 1], c);
      hide Step, SlotInv, ConsumerInv;
    }
  }

  /** Between rebuilds, whatever the interleaving of publishers and consumers:
      a consumer receives a strictly increasing subsequence of the published
      frames -- never the same one twice -- and a poll after the last publish
      leaves it with the last frame. */
  lemma LatestWinsDelivery<F>(ops: seq<Op<F>>, c: nat)
    ensures Increasing(GotBy(Run(Fresh(), ops), c))
    ensures forall n | n in GotBy(Run(Fresh(), ops), c) :: 1 <= n <= |Frames(ops)|
    ensures Frames(ops) != [] ==>
              var g := GotBy(Run(Fresh(), ops + [Poll(c)]), c);
              g != [] && g[|g| - 1] == |Frames(ops)|
  {
    RunKeeps(ops, c);
    var w := Run(Fresh(), ops);
    assert (ops + [Poll(c)])[..|ops|] == ops;
    assert Run(Fresh(), ops + [Poll(c)]) == Step(w, Poll(c));
  }

  /** And the frame received under number n is the n-th published one. */
  lemma PolledFrameIsTheNewest<F>(ops: seq<Op<F>>, c: nat)
    ensures var w := Run(Fresh(), ops);
            var p := Polled(w.slot, CursorOf(w, c));
            p.0.Some? ==> 1 <= p.1 <= |Frames(ops)| && p.1 == |Frames(ops)| && p.0.value == Frames(ops)[p.1 - 1]
  {
    RunKeeps(ops, c);
  }

  /** A cursor kept across a rebuild, which restarts the numbers: it misses the
      newest of the frames published since exactly when their count happens to
      equal the cursor. */
  lemma StaleCursorMissesExactly<F>(frames: seq<F>, cursor: nat)
    requires frames != []
    ensures Polled(PublishAll(Slot(None, 0), frames), cursor).0
            == (if |frames| == cursor then None else Some(frames[|frames| - 1]))
  {
    PublishAllIs(Slot(None, 0), frames);
  }

  function PublishAll<F>(s: Slot<F>, frames: seq<F>): Slot<F>
    decreases |frames|
  {
    if frames == [] then s else PublishAll(Published(s, frames[0]), frames[1..])
  }

  lemma {:induction false} PublishAllIs<F>(s: Slot<F>, frames: seq<F>)
    ensures PublishAll(s, frames) == if frames == [] then s else Slot(Some(frames[|frames| - 1]), s.number + |frames|)
    decreases |frames|
  {
    if frames != [] {
      PublishAllIs(Published(s, frames[0]), frames[1..]);
    }
  }
}
