/**
 The capture saver's queue over every interleaving of the threads that save,
 its one worker, a flush and the destructor
 (src/data/CaptureSaver.cpp:174-245). `save` stores Saving into the job's state
 before it takes the lock; the worker stores Saved or Failed before it does.
 Every call comes with a state of its own. `accepted` and `finished` are
 history.
 */
module SaverQueue {
  datatype SaveState = NotSaved | Saving | Saved | Failed

  type Job = nat

  datatype Worker = Waiting | Writing(job: Job) | Wrote(job: Job, ok: bool) | Exited

  datatype Saver = Saver(
    enabled: bool, started: set<Job>, queue: seq<Job>, worker: Worker, busy: bool, stop: bool,
    pending: nat, saved: nat, errors: nat, states: map<Job, SaveState>, next: Job,
    accepted: seq<Job>, finished: seq<(Job, bool)>)

  const START := Saver(true, {}, [], Waiting, false, false, 0, 0, 0, map[], 0, [], [])

  datatype Step =
    | SetEnabled(on: bool)
    | Call               // save, up to the lock
    | Enqueue(job: Job)  // and under it
    | Take               // the worker takes the oldest job
    | Write(ok: bool)    // writes it, and stores how that went
    | Record             // and counts it
    | Flush              // a flush returns
    | Stop               // the destructor begins: no save is under way
    | Exit               // the worker returns

  predicate Enabled(s: Saver, st: Step) {
    match st
    case SetEnabled(_) => true
    case Call => !s.stop
    case Enqueue(j) => j in s.started
    case Take => s.worker.Waiting? && s.queue != []
    case Write(_) => s.worker.Writing?
    case Record => s.worker.Wrote?
    case Flush => s.queue == [] && !s.busy
    case Stop => s.started == {}
    case Exit => s.worker.Waiting? && s.stop && s.queue == []
  }

  function EndState(ok: bool): SaveState {
    if ok then Saved else Failed
  }

  function One(b: bool): nat {
    if b then 1 else 0
  }

  function Apply(s: Saver, st: Step): Saver
    requires Enabled(s, st)
  {
    match st
    case SetEnabled(on) => s.(enabled := on)
    case Call =>
      if s.enabled then s.(states := s.states[s.next := Saving], started := s.started + {s.next}, next := s.next + 1)
      else s.(states := s.states[s.next := NotSaved], next := s.next + 1)
    case Enqueue(j) =>
      s.(queue := s.queue + [j], pending := |s.queue| + 1 + One(s.busy), started := s.started - {j},
        accepted := s.accepted + [j])
    case Take => s.(worker := Writing(s.queue[0]), queue := s.queue[1..], busy := true)
    case Write(ok) => s.(worker := Wrote(s.worker.job, ok), states := s.states[s.worker.job := EndState(ok)])
    case Record =>
      s.(worker := Waiting, busy := false, pending := |s.queue|,
         saved := s.saved + One(s.worker.ok), errors := s.errors + One(!s.worker.ok),
         finished := s.finished + [(s.worker.job, s.worker.ok)])
    case Flush => s
    case Stop => s.(stop := true)
    case Exit => s.(worker := Exited)
  }

  // ---- The invariant ----

  /** How many jobs went well. */
  function Successes(finished: seq<(Job, bool)>): nat {
    if finished == [] then 0
    else Successes(finished[..|finished| - 1]) + if finished[|finished| - 1].1 then 1 else 0
  }

  /** Nothing accepted is lost or done twice, and the status says so. */
  ghost predicate Conserved(s: Saver) {
    && (s.busy <==> s.worker.Writing? || s.worker.Wrote?)
    && |s.accepted| == s.saved + s.errors + One(s.busy) + |s.queue|
    && s.pending == |s.queue| + One(s.busy)
    && |s.finished| == s.saved + s.errors && s.saved == Successes(s.finished)
  }

  /** Jobs are finished in the order they were accepted: done, then the one in
      hand, then those queued. */
  ghost predicate InOrder(s: Saver)
    requires Conserved(s)
  {
    var n := |s.finished|;
    && (forall i | 0 <= i < n :: s.finished[i].0 == s.accepted[i])
    && (s.busy ==> s.worker.job == s.accepted[n])
    && (forall i | 0 <= i < |s.queue| :: s.queue[i] == s.accepted[n + One(s.busy) + i])
  }

  /** Every job has a number of its own. */
  ghost predicate Numbered(s: Saver) {
    && (forall j | j in s.started :: j < s.next && j !in s.accepted)
    && (forall i | 0 <= i < |s.accepted| :: s.accepted[i] < s.next)
    && (forall i, k | 0 <= i < k < |s.accepted| :: s.accepted[i] != s.accepted[k])
  }

  /** A job is Saving from its call until it is written, then what came of it. */
  ghost predicate StatesRight(s: Saver)
    requires Conserved(s)
  {
    && (forall j | j in s.started :: j in s.states && s.states[j] == Saving)
    && (forall i | 0 <= i < |s.finished| ::
          s.finished[i].0 in s.states && s.states[s.finished[i].0] == EndState(s.finished[i].1))
    && (forall i | |s.finished| + One(s.busy) <= i < |s.accepted| ::
          s.accepted[i] in s.states && s.states[s.accepted[i]] == Saving)
    && (s.busy ==>
          && s.worker.job in s.states
          && s.states[s.worker.job] == if s.worker.Writing? then Saving else EndState(s.worker.ok))
  }

  ghost predicate Inv(s: Saver) {
    && Conserved(s) && InOrder(s) && Numbered(s) && StatesRight(s)
    && (s.stop ==> s.started == {})
    && (s.worker.Exited? ==> s.stop && s.queue == [])
  }

  lemma CallKeeps(s: Saver)
    requires Inv(s) && Enabled(s, Call)
    ensures Inv(Apply(s, Call))
  {
    hide Successes;
    assert forall i | 0 <= i < |s.finished| :: s.finished[i].0 == s.accepted[i] < s.next;
    assert s.busy ==> s.worker.job == s.accepted[|s.finished|] < s.next;
  }

  lemma EnqueueKeeps(s: Saver, j: Job)
    requires Inv(s) && Enabled(s, Enqueue(j))
    ensures Inv(Apply(s, Enqueue(j)))
  {
    assert forall i | 0 <= i < |s.accepted| :: s.accepted[i] in s.accepted;
    hide Successes;
  }

  lemma TakeKeeps(s: Saver)
    requires Inv(s) && Enabled(s, Take)
    ensures Inv(Apply(s, Take))
  {
    assert s.queue[0] == s.accepted[|s.finished|];
  }

  lemma WriteKeeps(s: Saver, ok: bool)
    requires Inv(s) && Enabled(s, Write(ok))
    ensures Inv(Apply(s, Write(ok)))
  {
    assert s.worker.job == s.accepted[|s.finished|] && s.worker.job in s.accepted;
    assert forall i | 0 <= i < |s.finished| :: s.finished[i].0 == s.accepted[i];
  }

  lemma RecordKeeps(s: Saver)
    requires Inv(s) && Enabled(s, Record)
    ensures Inv(Apply(s, Record))
  {
  }

  lemma StepKeeps(s: Saver, st: Step)
    requires Inv(s) && Enabled(s, st)
    ensures Inv(Apply(s, st))
  {
    match st
    case Call => CallKeeps(s);
    case Enqueue(j) => EnqueueKeeps(s, j);
    case Take => TakeKeeps(s);
    case Write(ok) => WriteKeeps(s, ok);
    case Record => RecordKeeps(s);
    case _ =>
  }

  // ---- Runs ----

  ghost predicate Runs(s: Saver, steps: seq<Step>)
    decreases |steps|
  {
    steps == [] || (Enabled(s, steps[0]) && Runs(Apply(s, steps[0]), steps[1..]))
  }

  function Run(s: Saver, steps: seq<Step>): Saver
    requires Runs(s, steps)
    decreases |steps|
  {
    if steps == [] then s else Run(Apply(s, steps[0]), steps[1..])
  }

  lemma {:induction false} RunKeeps(s: Saver, steps: seq<Step>)
    requires Inv(s) && Runs(s, steps)
    ensures Inv(Run(s, steps))
    decreases |steps|
  {
    if steps != [] {
      StepKeeps(s, steps[0]);
      hide Inv, Apply, Enabled;
      RunKeeps(Apply(s, steps[0]), steps[1..]);
    }
  }

  lemma StartIsFine()
    ensures Inv(START)
  {
  }

  lemma Reached(steps: seq<Step>)
    requires Runs(START, steps)
    ensures Inv(Run(START, steps))
  {
    StartIsFine();
    hide Run, Runs, Inv;
    RunKeeps(START, steps);
  }

  lemma AllFinished(s: Saver)
    requires Inv(s)
    ensures s.queue == [] && !s.busy ==> AllFinal(s)
    ensures s.worker.Exited? ==> s.queue == [] && !s.busy && s.started == {}
  {
    assert forall i | 0 <= i < |s.finished| :: s.finished[i].0 == s.accepted[i];
  }

  /** At every moment: what was accepted is saved, failed, in hand or queued;
      the status agrees; and jobs have been finished in the order of their
      acceptance, each with its own outcome. */
  lemma SavedCapturesAreConserved(steps: seq<Step>)
    requires Runs(START, steps)
    ensures var s := Run(START, steps);
            && |s.accepted| == s.saved + s.errors + |s.queue| + One(s.busy)
            && s.pending == |s.queue| + One(s.busy)
            && |s.finished| == s.saved + s.errors && s.saved == Successes(s.finished)
            && forall i | 0 <= i < |s.finished| ::
                 && s.finished[i].0 == s.accepted[i] && s.accepted[i] in s.states
                 && s.states[s.accepted[i]] == if s.finished[i].1 then Saved else Failed
  {
    Reached(steps);
    hide Run, Runs, Numbered;
  }

  ghost predicate Final(s: Saver, j: Job) {
    j in s.states && (s.states[j].Saved? || s.states[j].Failed?)
  }

  ghost predicate AllFinal(s: Saver) {
    |s.finished| == |s.accepted| && forall i | 0 <= i < |s.accepted| :: Final(s, s.accepted[i])
  }

  /** When a flush returns everything accepted has been written or has failed;
      when the worker exits, so has everything ever accepted, and no save is
      still on its way. */
  lemma FlushedAndStopped(steps: seq<Step>)
    requires Runs(START, steps)
    ensures var s := Run(START, steps);
            && (Enabled(s, Flush) ==> AllFinal(s))
            && (s.worker.Exited? ==> AllFinal(s) && s.queue == [] && s.started == {})
  {
    Reached(steps);
    hide Run, Runs, Inv, AllFinal;
    AllFinished(Run(START, steps));
  }

  lemma StepLeavesFinal(s: Saver, st: Step, j: Job)
    requires Inv(s) && Enabled(s, st) && j < s.next && Final(s, j)
    ensures Apply(s, st).states[j] == s.states[j] && j < Apply(s, st).next && Final(Apply(s, st), j)
  {
  }

  /** Saved and Failed are final: no interleaving ever overwrites either, least
      of all with Saving. */
  lemma {:induction false} FinalStatesStay(s: Saver, steps: seq<Step>, j: Job)
    requires Inv(s) && Runs(s, steps) && j < s.next && Final(s, j)
    ensures j in Run(s, steps).states && Run(s, steps).states[j] == s.states[j]
    decreases |steps|
  {
    if steps != [] {
      StepKeeps(s, steps[0]);
      StepLeavesFinal(s, steps[0], j);
      hide Inv, Apply, Enabled, Final;
      assert Final(Apply(s, steps[0]), j) ==> j in Apply(s, steps[0]).states by {
        FinalIsThere(Apply(s, steps[0]), j);
      }
      FinalStatesStay(Apply(s, steps[0]), steps[1..], j);
    }
  }

  lemma FinalIsThere(s: Saver, j: Job)
    ensures Final(s, j) ==> j in s.states
  {
  }
}
