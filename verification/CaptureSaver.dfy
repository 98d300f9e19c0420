/**
 The capture saver (src/data/CaptureSaver.cpp:174-295), in place: its queue,
 status and per-server directories. Interleavings are the subject of module
 SaverQueue; here each method runs by itself. Whether a directory can be
 created and files written is an argument.
 */
module CaptureSavers {
  import opened Bytes
  import opened Options
  import opened CaptureNames
  import opened SaverQueue
  import opened Reassembly
  import Protocol
  import StackImage
  import Npy

  /** The state a caller follows its capture by. */
  class SaveFlag {
    var value: SaveState

    constructor ()
      ensures value == NotSaved
    {
      value := NotSaved;
    }
  }

  datatype SaveJob = SaveJob(address: string, frame: Frame, state: SaveFlag?)

  /** How the file system treats one job. */
  datatype Luck = Luck(dirOk: bool, filesOk: bool)

  type Servers = map<string, ServerDir>

  function ShotOf(f: Frame): Shot {
    Shot(f.meta.frameKind, f.meta.captureId, f.meta.cameraId, f.meta.frameId)
  }

  function DirOf(servers: Servers, address: string): ServerDir {
    if address in servers then servers[address] else NEW_DIR
  }

  /** The directories after a job: without a directory on disk nothing is
      noted, whatever becomes of the files. */
  function ServersAfter(servers: Servers, job: SaveJob, luck: Luck): Servers {
    var d := DirOf(servers, job.address);
    servers[job.address := if luck.dirOk then Noted(d, Key(ShotOf(job.frame))) else d]
  }

  function ServersAfterAll(servers: Servers, jobs: seq<SaveJob>, lucks: seq<Luck>): Servers
    requires |jobs| == |lucks|
  {
    if jobs == [] then servers
    else ServersAfter(ServersAfterAll(servers, jobs[..|jobs| - 1], lucks[..|jobs| - 1]), jobs[|jobs| - 1],
      lucks[|jobs| - 1])
  }

  predicate IsStack(f: Frame) {
    f.meta.frameKind == Protocol.FRAME_STACK
  }

  /** A job is saved when its directory and files could be written, and a
      stacked image -- frame kind 1, with pixels -- is complete. */
  predicate Writable(f: Frame, luck: Luck) {
    luck.dirOk && luck.filesOk
    && (!f.meta.headerOnly && f.data != [] && f.meta.frameKind == 1 ==> StackImage.HasSf32(f))
  }

  /** A stacked image that passes the payload check is read inside it. */
  predicate Savable(f: Frame) {
    !f.meta.headerOnly && f.data != [] && f.meta.frameKind == 1 && StackImage.HasSf32(f) ==> StackImage.Readable(f)
  }

  /** The file a save is reported under: the image, as .npy for a stack and .yuv
      otherwise, or the sidecar of a frame without pixels. */
  function MainFile(f: Frame, run: nat): string {
    var ext := if f.meta.headerOnly || f.data == [] then ".json" else if f.meta.frameKind == 1 then ".npy" else ".yuv";
    File(Shot(f.meta.frameKind, f.meta.captureId, f.meta.cameraId, f.meta.frameId), run, ext)
  }

  // ---- Servers do not interfere ----

  /** The captures of one address that got as far as a name. */
  function ShotsAt(address: string, jobs: seq<SaveJob>, lucks: seq<Luck>): seq<Shot>
    requires |jobs| == |lucks|
  {
    if jobs == [] then []
    else
      var front, last := ShotsAt(address, jobs[..|jobs| - 1], lucks[..|jobs| - 1]), |jobs| - 1;
      if jobs[last].address == address && lucks[last].dirOk then front + [ShotOf(jobs[last].frame)] else front
  }

  /** Whatever is saved for other servers, and whichever writes fail, the run
      and the keys of a server are those its own captures lead to. */
  lemma {:induction false} DirsAreApart(jobs: seq<SaveJob>, lucks: seq<Luck>, address: string)
    requires |jobs| == |lucks|
    ensures DirOf(ServersAfterAll(map[], jobs, lucks), address) == WrittenAll(Keys(ShotsAt(address, jobs, lucks))).dir
  {
    if jobs != [] {
      var last := |jobs| - 1;
      DirsAreApart(jobs[..last], lucks[..last], address);
      hide Key, Noted;
      var shots := ShotsAt(address, jobs, lucks);
      if jobs[last].address == address && lucks[last].dirOk {
        var front := ShotsAt(address, jobs[..last], lucks[..last]);
        assert Keys(shots)[..|front|] == Keys(front);
      }
    }
  }

  // ---- Everything that is written ----

  /** The run job `i` of a sequence is saved under. */
  function RunAt(jobs: seq<SaveJob>, lucks: seq<Luck>, i: nat): nat
    requires i < |jobs| == |lucks|
  {
    DirOf(ServersAfterAll(map[], jobs[..i + 1], lucks[..i + 1]), jobs[i].address).run
  }

  /** Where a file of job `i` goes, below the session's directory. */
  function PathAt(jobs: seq<SaveJob>, lucks: seq<Luck>, i: nat, ext: string): string
    requires i < |jobs| == |lucks|
  {
    ServerDirName(jobs[i].address) + ("/" + File(ShotOf(jobs[i].frame), RunAt(jobs, lucks, i), ext))
  }

  lemma {:induction false} DirUpToSlash(d: string, x: string)
    requires forall i | 0 <= i < |d| :: d[i] != '/'
    ensures UpToSlash(d + ("/" + x)) == d
  {
    var p := d + ("/" + x);
    if d != [] {
      assert p[1..] == d[1..] + ("/" + x);
      DirUpToSlash(d[1..], x);
    }
  }

  lemma SplitAtSlash(d: string, x: string, e: string, y: string)
    requires (forall i | 0 <= i < |d| :: d[i] != '/') && (forall i | 0 <= i < |e| :: e[i] != '/')
    requires d + ("/" + x) == e + ("/" + y)
    ensures d == e && x == y
  {
    DirUpToSlash(d, x);
    DirUpToSlash(e, y);
    assert x == (d + ("/" + x))[|d| + 1..] && y == (e + ("/" + y))[|e| + 1..];
  }

  /** Over any jobs of any servers: two files written go to one place exactly
      when server directory, run, camera, frame and extension all agree. */
  lemma PathsCollideExactly(jobs: seq<SaveJob>, lucks: seq<Luck>, i: nat, e: string, j: nat, f: string)
    requires i < |jobs| == |lucks| && j < |jobs|
    requires e != [] && e[0] == '.' && f != [] && f[0] == '.'
    ensures PathAt(jobs, lucks, i, e) == PathAt(jobs, lucks, j, f)
            <==> && ServerDirName(jobs[i].address) == ServerDirName(jobs[j].address)
                 && RunAt(jobs, lucks, i) == RunAt(jobs, lucks, j)
                 && jobs[i].frame.meta.cameraId == jobs[j].frame.meta.cameraId
                 && jobs[i].frame.meta.frameId == jobs[j].frame.meta.frameId
                 && e == f
  {
    var s, t := ShotOf(jobs[i].frame), ShotOf(jobs[j].frame);
    var r, q := RunAt(jobs, lucks, i), RunAt(jobs, lucks, j);
    var d, c := ServerDirName(jobs[i].address), ServerDirName(jobs[j].address);
    FileInjective(s, r, e, t, q, f);
    ServerDirNameIsPlain(jobs[i].address);
    ServerDirNameIsPlain(jobs[j].address);
    assert (forall k | 0 <= k < |d| :: d[k] != '/') && (forall k | 0 <= k < |c| :: c[k] != '/');
    hide File, ServerDirName, RunAt, IsPlain, UpToSlash;
    if PathAt(jobs, lucks, i, e) == PathAt(jobs, lucks, j, f) {
      SplitAtSlash(d, File(s, r, e), c, File(t, q, f));
    }
  }

  lemma {:induction false} ShotsGrow(address: string, jobs: seq<SaveJob>, lucks: seq<Luck>, n: nat)
    requires n <= |jobs| == |lucks|
    ensures var some, all := ShotsAt(address, jobs[..n], lucks[..n]), ShotsAt(address, jobs, lucks);
            |some| <= |all| && some == all[..|some|]
    decreases |jobs|
  {
    if n == |jobs| {
      assert jobs[..n] == jobs && lucks[..n] == lucks;
    } else {
      var front, luck := jobs[..|jobs| - 1], lucks[..|jobs| - 1];
      ShotsGrow(address, front, luck, n);
      assert front[..n] == jobs[..n] && luck[..n] == lucks[..n];
    }
  }

  /** A named job is the last shot of its server so far, under that server's
      last run. */
  lemma NamedShot(jobs: seq<SaveJob>, lucks: seq<Luck>, i: nat)
    requires i < |jobs| == |lucks| && lucks[i].dirOk
    ensures var shots := ShotsAt(jobs[i].address, jobs[..i + 1], lucks[..i + 1]);
            && shots != [] && shots[|shots| - 1] == ShotOf(jobs[i].frame)
            && CaptureNames.Runs(shots)[|shots| - 1] == RunAt(jobs, lucks, i)
  {
    var upTo, luck := jobs[..i + 1], lucks[..i + 1];
    assert upTo[i] == jobs[i] && luck[i] == lucks[i];
    var shots := ShotsAt(jobs[i].address, upTo, luck);
    DirsAreApart(upTo, luck, jobs[i].address);
    RunsOfPrefix(Keys(shots), 0);
  }

  /** An earlier job of the server is an earlier shot, under the run it had. */
  lemma EarlierShot(jobs: seq<SaveJob>, lucks: seq<Luck>, i: nat, j: nat)
    requires i < j < |jobs| == |lucks| && jobs[i].address == jobs[j].address && lucks[i].dirOk && lucks[j].dirOk
    ensures var some := ShotsAt(jobs[i].address, jobs[..i + 1], lucks[..i + 1]);
            var all := ShotsAt(jobs[j].address, jobs[..j + 1], lucks[..j + 1]);
            && 0 < |some| < |all| && all[|some| - 1] == ShotOf(jobs[i].frame)
            && CaptureNames.Runs(all)[|some| - 1] == RunAt(jobs, lucks, i)
  {
    var a, upTo, luck := jobs[i].address, jobs[..j], lucks[..j];
    var some, before := ShotsAt(a, jobs[..i + 1], lucks[..i + 1]), ShotsAt(a, upTo, luck);
    var all := ShotsAt(a, jobs[..j + 1], lucks[..j + 1]);
    NamedShot(jobs, lucks, i);
    ShotsGrow(a, upTo, luck, i + 1);
    assert upTo[..i + 1] == jobs[..i + 1] && luck[..i + 1] == lucks[..i + 1];
    assert jobs[..j + 1][..j] == upTo && lucks[..j + 1][..j] == luck;
    assert all == before + [ShotOf(jobs[j].frame)];
    hide ShotsAt, RunAt, WrittenAll, Key;
    assert some == all[..|some|];
    assert all[|some| - 1] == some[|some| - 1];
    RunsOfPrefix(Keys(all), |some|);
    assert Keys(all)[..|some|] == Keys(some);
  }

  /** The jobs of one server among many: its run never goes down, and within a
      run kind, capture id and camera are distinct. */
  lemma RunsSeparateRepeatsAmongJobs(jobs: seq<SaveJob>, lucks: seq<Luck>, i: nat, j: nat)
    requires i < j < |jobs| == |lucks| && jobs[i].address == jobs[j].address && lucks[i].dirOk && lucks[j].dirOk
    ensures RunAt(jobs, lucks, i) <= RunAt(jobs, lucks, j)
    ensures RunAt(jobs, lucks, i) == RunAt(jobs, lucks, j) ==>
              var m, n := jobs[i].frame.meta, jobs[j].frame.meta;
              m.frameKind != n.frameKind || m.captureId != n.captureId || m.cameraId != n.cameraId
  {
    EarlierShot(jobs, lucks, i, j);
    NamedShot(jobs, lucks, j);
    var some := ShotsAt(jobs[i].address, jobs[..i + 1], lucks[..i + 1]);
    var all := ShotsAt(jobs[j].address, jobs[..j + 1], lucks[..j + 1]);
    hide ShotsAt, RunAt, CaptureNames.Runs;
    RunsSeparateRepeats(all, |some| - 1, |all| - 1);
  }

  /** Every shot of a server is one of its jobs, under the run that job had. */
  lemma {:induction false} ShotHasJob(a: string, jobs: seq<SaveJob>, lucks: seq<Luck>, k: nat) returns (i: nat)
    requires |jobs| == |lucks| && k < |ShotsAt(a, jobs, lucks)|
    ensures i < |jobs| && jobs[i].address == a && lucks[i].dirOk
    ensures |ShotsAt(a, jobs[..i + 1], lucks[..i + 1])| == k + 1
    decreases |jobs|
  {
    var last := |jobs| - 1;
    var front, luck := jobs[..last], lucks[..last];
    if k < |ShotsAt(a, front, luck)| {
      i := ShotHasJob(a, front, luck, k);
      assert front[..i + 1] == jobs[..i + 1] && luck[..i + 1] == lucks[..i + 1];
    } else {
      i := last;
      assert jobs[..last + 1] == jobs && lucks[..last + 1] == lucks;
    }
  }

  ghost predicate SameKey(m: FrameMeta, n: FrameMeta) {
    m.frameKind == n.frameKind && m.captureId == n.captureId && m.cameraId == n.cameraId
  }

  /** Job `i` is an earlier one of the same server, named in this run. */
  ghost predicate NamedIn(jobs: seq<SaveJob>, lucks: seq<Luck>, i: nat, j: nat, run: nat)
    requires j < |jobs| == |lucks|
  {
    i < j && jobs[i].address == jobs[j].address && lucks[i].dirOk && RunAt(jobs, lucks, i) == run
  }

  function RunBefore(jobs: seq<SaveJob>, lucks: seq<Luck>, j: nat): nat
    requires j < |jobs| == |lucks|
  {
    DirOf(ServersAfterAll(map[], jobs[..j], lucks[..j]), jobs[j].address).run
  }

  lemma ShotsUpTo(jobs: seq<SaveJob>, lucks: seq<Luck>, j: nat)
    requires j < |jobs| == |lucks| && lucks[j].dirOk
    ensures var a, shots := jobs[j].address, ShotsAt(jobs[j].address, jobs[..j], lucks[..j]);
            && ShotsAt(a, jobs[..j + 1], lucks[..j + 1]) == shots + [ShotOf(jobs[j].frame)]
            && RunBefore(jobs, lucks, j) == WrittenAll(Keys(shots)).dir.run
            && RunAt(jobs, lucks, j) == WrittenAll(Keys(shots + [ShotOf(jobs[j].frame)])).dir.run
  {
    var a := jobs[j].address;
    assert jobs[..j + 1][..j] == jobs[..j] && lucks[..j + 1][..j] == lucks[..j];
    assert jobs[..j + 1][j] == jobs[j] && lucks[..j + 1][j] == lucks[j];
    DirsAreApart(jobs[..j], lucks[..j], a);
    DirsAreApart(jobs[..j + 1], lucks[..j + 1], a);
  }

  /** A shot of the list up to `j` and the job it comes from agree on the run. */
  lemma RunOfEarlier(jobs: seq<SaveJob>, lucks: seq<Luck>, i: nat, j: nat)
    requires i < j < |jobs| == |lucks| && jobs[i].address == jobs[j].address && lucks[i].dirOk
    ensures var some := ShotsAt(jobs[i].address, jobs[..i + 1], lucks[..i + 1]);
            var before := ShotsAt(jobs[j].address, jobs[..j], lucks[..j]);
            && 0 < |some| <= |before| && before[|some| - 1] == ShotOf(jobs[i].frame)
            && CaptureNames.Runs(before)[|some| - 1] == RunAt(jobs, lucks, i)
  {
    var a, upTo, luck := jobs[i].address, jobs[..j], lucks[..j];
    var some, before := ShotsAt(a, jobs[..i + 1], lucks[..i + 1]), ShotsAt(a, upTo, luck);
    NamedShot(jobs, lucks, i);
    ShotsGrow(a, upTo, luck, i + 1);
    assert upTo[..i + 1] == jobs[..i + 1] && luck[..i + 1] == lucks[..i + 1];
    hide ShotsAt, RunAt, WrittenAll, Key;
    assert before[|some| - 1] == some[|some| - 1];
    RunsOfPrefix(Keys(before), |some|);
    assert Keys(before)[..|some|] == Keys(some);
  }

  lemma ShotToJob(jobs: seq<SaveJob>, lucks: seq<Luck>, j: nat, k: nat) returns (i: nat)
    requires j < |jobs| == |lucks| && k < |ShotsAt(jobs[j].address, jobs[..j], lucks[..j])|
    ensures var shots := ShotsAt(jobs[j].address, jobs[..j], lucks[..j]);
            NamedIn(jobs, lucks, i, j, CaptureNames.Runs(shots)[k]) && ShotOf(jobs[i].frame) == shots[k]
  {
    i := ShotHasJob(jobs[j].address, jobs[..j], lucks[..j], k);
    hide ShotsAt, RunAt, CaptureNames.Runs, ShotOf;
    assert jobs[..j][..i + 1] == jobs[..i + 1] && lucks[..j][..i + 1] == lucks[..i + 1];
    assert jobs[..j][i] == jobs[i] && lucks[..j][i] == lucks[i];
    RunOfEarlier(jobs, lucks, i, j);
  }

  /** The current run has had a job of this kind, capture id and camera. */
  ghost predicate Had(jobs: seq<SaveJob>, lucks: seq<Luck>, j: nat, run: nat)
    requires j < |jobs| == |lucks|
  {
    exists i: nat :: NamedIn(jobs, lucks, i, j, run) && SameKey(jobs[i].frame.meta, jobs[j].frame.meta)
  }

  /** The same of a list of shots. */
  ghost predicate HadShot(shots: seq<Shot>, t: Shot, run: nat) {
    exists k :: 0 <= k < |shots| && CaptureNames.Runs(shots)[k] == run
                && shots[k].kind == t.kind && shots[k].capture == t.capture && shots[k].camera == t.camera
  }

  lemma HadBoth(jobs: seq<SaveJob>, lucks: seq<Luck>, j: nat, run: nat)
    requires j < |jobs| == |lucks|
    ensures Had(jobs, lucks, j, run)
            <==> HadShot(ShotsAt(jobs[j].address, jobs[..j], lucks[..j]), ShotOf(jobs[j].frame), run)
  {
    var shots, t := ShotsAt(jobs[j].address, jobs[..j], lucks[..j]), ShotOf(jobs[j].frame);
    hide RunAt, ShotsAt, CaptureNames.Runs;
    if HadShot(shots, t, run) {
      var k :| 0 <= k < |shots| && CaptureNames.Runs(shots)[k] == run
               && shots[k].kind == t.kind && shots[k].capture == t.capture && shots[k].camera == t.camera;
      var i := ShotToJob(jobs, lucks, j, k);
      assert SameKey(jobs[i].frame.meta, jobs[j].frame.meta);
    }
    if Had(jobs, lucks, j, run) {
      JobToShot(jobs, lucks, j, run);
    }
  }

  lemma JobToShot(jobs: seq<SaveJob>, lucks: seq<Luck>, j: nat, run: nat)
    requires j < |jobs| == |lucks| && Had(jobs, lucks, j, run)
    ensures HadShot(ShotsAt(jobs[j].address, jobs[..j], lucks[..j]), ShotOf(jobs[j].frame), run)
  {
    var i: nat :| NamedIn(jobs, lucks, i, j, run) && SameKey(jobs[i].frame.meta, jobs[j].frame.meta);
    RunOfEarlier(jobs, lucks, i, j);
    hide RunAt, ShotsAt, CaptureNames.Runs;
    var shots := ShotsAt(jobs[j].address, jobs[..j], lucks[..j]);
    var k := |ShotsAt(jobs[i].address, jobs[..i + 1], lucks[..i + 1])| - 1;
    assert CaptureNames.Runs(shots)[k] == run && shots[k] == ShotOf(jobs[i].frame);
  }

  /** Among the jobs of many servers a server's run goes up, by one, exactly at
      a job whose kind, capture id and camera its current run has already had. */
  lemma RunGoesUpExactlyAmongJobs(jobs: seq<SaveJob>, lucks: seq<Luck>, j: nat)
    requires j < |jobs| == |lucks| && lucks[j].dirOk
    ensures var run := RunBefore(jobs, lucks, j);
            RunAt(jobs, lucks, j) == if Had(jobs, lucks, j, run) then run + 1 else run
  {
    ShotsUpTo(jobs, lucks, j);
    HadBoth(jobs, lucks, j, RunBefore(jobs, lucks, j));
    RunGoesUpExactly(ShotsAt(jobs[j].address, jobs[..j], lucks[..j]), ShotOf(jobs[j].frame));
    hide RunAt, RunBefore, WrittenAll, ShotsAt, CaptureNames.Runs, Had, ShotOf;
  }

  class CaptureSaver {
    var enabled: bool
    var queue: seq<SaveJob>
    var busy: bool
    var pending: nat
    var saved: nat
    var errors: nat
    var lastFile: string
    var lastError: string
    var servers: Servers

    constructor (enabled: bool)
      ensures this.enabled == enabled && queue == [] && !busy && Valid()
      ensures pending == saved == errors == 0 && servers == map[]
    {
      this.enabled, queue, busy, pending, saved, errors := enabled, [], false, 0, 0, 0;
      lastFile, lastError, servers := "", "", map[];
    }

    ghost predicate Valid()
      reads this
    {
      pending == |queue| + One(busy)
    }

    ghost function Flags(): set<SaveFlag?>
      reads this`queue
    {
      set j | j in queue :: j.state
    }

    /** Every queued job is followed by a state of its own. */
    ghost predicate OwnFlags()
      reads this`queue
    {
      forall i, j | 0 <= i < j < |queue| && queue[i].state != null :: queue[i].state != queue[j].state
    }

    /** Queues a frame and returns; the state is left alone when saving is off. */
    method Save(address: string, frame: Option<Frame>, state: SaveFlag?)
      requires Valid()
      modifies this`queue, this`pending, state
      ensures Valid()
      ensures !enabled || frame.None? ==> queue == old(queue) && (state != null ==> state.value == old(state.value))
      ensures enabled && frame.Some? ==> queue == old(queue) + [SaveJob(address, frame.value, state)]
      ensures enabled && frame.Some? && state != null ==> state.value == Saving
    {
      if !enabled || frame.None? {
        return;
      }
      if state != null {
        state.value := Saving;
      }
      queue := queue + [SaveJob(address, frame.value, state)];
      pending := |queue| + if busy then 1 else 0;
    }

    /** Writes one job: the directory, then the name, the image if there is one,
        and the sidecar. An empty `error` is success. */
    method WriteJob(job: SaveJob, luck: Luck) returns (file: string, error: string)
      requires Savable(job.frame)
      modifies this`servers
      ensures servers == ServersAfter(old(servers), job, luck)
      ensures error == "" <==> Writable(job.frame, luck)
      ensures error == "" ==>
                file == ServerDirName(job.address) + "/" + MainFile(job.frame, servers[job.address].run)
    {
      file := "";
      if job.address !in servers {
        servers := servers[job.address := NEW_DIR];
      }
      if !luck.dirOk {
        return "", "cannot create the directory";
      }
      var f, d := job.frame, servers[job.address];
      var key := Key(ShotOf(f));
      if key in d.seen {
        d := ServerDir(d.run + 1, {});
      }
      d := d.(seen := d.seen + {key});
      assert {} + {key} == {key};
      assert d == Noted(DirOf(old(servers), job.address), key);
      servers := servers[job.address := d];
      var base := Base(ShotOf(f), d.run);
      var image := "";
      if !f.meta.headerOnly && f.data != [] {
        if IsStack(f) {
          var npy := Npy.StackImageNpy(f);
          if npy == [] {
            return "", "the stacked image is truncated";
          }
          image := base + ".npy";
        } else {
          image := base + ".yuv";
        }
      }
      if !luck.filesOk {
        return "", "cannot write the file";
      }
      return ServerDirName(job.address) + "/" + (if image == "" then base + ".json" else image), "";
    }

    /** The worker's turn: takes the oldest job, writes it, stores its state
        and counts it. */
    method WorkOne(luck: Luck)
      requires Valid() && !busy && queue != [] && OwnFlags()
      requires Savable(queue[0].frame)
      modifies this, queue[0].state
      ensures Valid() && !busy && OwnFlags() && enabled == old(enabled)
      ensures queue == old(queue)[1..]
      ensures servers == ServersAfter(old(servers), old(queue[0]), luck)
      ensures var ok := Writable(old(queue[0]).frame, luck);
              && saved == old(saved) + (if ok then 1 else 0) && errors == old(errors) + (if ok then 0 else 1)
              && (old(queue[0]).state != null ==> old(queue[0]).state.value == if ok then Saved else Failed)
              && (ok ==> lastError == "" && lastFile == ServerDirName(old(queue[0]).address) + "/"
                                                       + MainFile(old(queue[0]).frame,
                                                         servers[old(queue[0]).address].run))
              && (!ok ==> lastError != "" && lastFile == old(lastFile))
    {
      hide ServersAfter, Writable, MainFile, ServerDirName;
      var job := queue[0];
      queue := queue[1..];
      busy := true;
      var file, error := WriteJob(job, luck);
      if job.state != null {
        job.state.value := if error == "" then Saved else Failed;
      }
      busy := false;
      pending := |queue|;
      if error == "" {
        saved := saved + 1;
        lastFile := file;
        lastError := "";
      } else {
        errors := errors + 1;
        lastError := error;
      }
    }

    /** The worker until its queue is empty: as after a flush, or on stopping. */
    method Loop(lucks: seq<Luck>)
      requires Valid() && !busy && OwnFlags() && |lucks| == |queue|
      requires forall i | 0 <= i < |queue| :: Savable(queue[i].frame)
      modifies this, Flags()
      ensures Valid() && !busy && queue == [] && pending == 0
      ensures servers == ServersAfterAll(old(servers), old(queue), lucks)
      ensures saved + errors == old(saved) + old(errors) + |old(queue)|
      ensures forall i | 0 <= i < |old(queue)| && old(queue)[i].state != null ::
                old(queue)[i].state.value == if Writable(old(queue)[i].frame, lucks[i]) then Saved else Failed
    {
      hide ServersAfter, Writable, MainFile, ServerDirName;
      ghost var jobs := queue;
      var n := 0;
      while queue != []
        invariant Valid() && !busy && OwnFlags()
        invariant n <= |jobs| && queue == jobs[n..]
        invariant servers == ServersAfterAll(old(servers), jobs[..n], lucks[..n])
        invariant saved + errors == old(saved) + old(errors) + n
        invariant forall i | 0 <= i < n && jobs[i].state != null ::
                    jobs[i].state.value == if Writable(jobs[i].frame, lucks[i]) then Saved else Failed
        decreases |queue|
      {
        assert queue[0] == jobs[n];
        assert jobs[..n + 1][..n] == jobs[..n] && lucks[..n + 1][..n] == lucks[..n];
        WorkOne(lucks[n]);
        n := n + 1;
      }
      assert jobs[..n] == jobs && lucks[..n] == lucks;
    }
  }
}
