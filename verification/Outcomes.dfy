/**
 What triggerCapture and stackCapture hand back
 (src/client/Client.cpp:307-327 and 352-373): the collected frames of all
 servers, under the global ids the caller knows, sorted by them.
 */
module Outcomes {
  import opened Bytes
  import opened Options
  import opened CaptureBooks
  import opened Rendezvous
  import Roster
  import Sorting

  /** A frame handed to the caller, or one camera's part of a stack. */
  datatype Taken<T> = Taken(globalId: nat, server: nat, item: T)

  /** A camera of a stack result, and the frame that came for it. */
  datatype Stacked = Stacked(entry: Entry, frame: Option<CapturedFrame>)

  /** The global id of a server's camera; an unknown camera keeps 0. */
  function GlobalOf(roster: seq<Roster.CameraInfo>, server: nat, camera: U32): nat {
    var i := Roster.Find(roster, (server, camera));
    if i < |roster| then roster[i].globalId else 0
  }

  /** The global id a caller knows a server's camera by: its position in the
      roster, or 0 if it is not there. */
  ghost predicate NamesCamera(roster: seq<Roster.CameraInfo>, globalId: nat, server: nat, camera: U32) {
    if (server, camera) in Roster.KeySet(roster) then
      globalId < |roster| && roster[globalId].server == server && roster[globalId].localId == camera
    else globalId == 0
  }

  lemma GlobalNames(roster: seq<Roster.CameraInfo>, server: nat, camera: U32)
    requires Roster.RosterInv(roster)
    ensures NamesCamera(roster, GlobalOf(roster, server, camera), server, camera)
  {
    var i := Roster.Find(roster, (server, camera));
    if i < |roster| {
      assert roster[i] in roster && Roster.KeyOf(roster[i]) in Roster.KeySet(roster);
    }
  }

  // ---- Sorting ----

  predicate ById<T>(a: Taken<T>, b: Taken<T>) {
    a.globalId < b.globalId
  }

  ghost predicate InIdOrder<T>(s: seq<Taken<T>>) {
    forall i, j | 0 <= i < j < |s| :: s[i].globalId <= s[j].globalId
  }

  lemma SortedById<T(!new)>(s: seq<Taken<T>>)
    ensures InIdOrder(Sorting.Sorted(s, ById)) && forall t :: t in Sorting.Sorted(s, ById) <==> t in s
  {
    var r := Sorting.Sorted(s, ById);
    Sorting.SortedIs(s, ById);
    Sorting.SameElements(s, r);
    forall i, j | 0 <= i < j < |r| ensures r[i].globalId <= r[j].globalId {
      Sorting.AscendingAt(r, ById, i, j);
    }
  }

  // ---- What the servers' parts come to ----

  /** Exactly the parts of these servers: each of their elements as often as it
      is there, and nothing else. */
  ghost predicate HoldsParts<T(!new)>(out: multiset<Taken<T>>, parts: map<nat, seq<Taken<T>>>, servers: set<nat>) {
    forall t :: out[t] == if t.server in servers && t.server in parts then multiset(parts[t.server])[t] else 0
  }

  /** Every part is one server's. */
  ghost predicate OwnParts<T>(parts: map<nat, seq<Taken<T>>>) {
    forall s | s in parts :: forall i | 0 <= i < |parts[s]| :: parts[s][i].server == s
  }

  lemma PartAdded<T(!new)>(out: seq<Taken<T>>, parts: map<nat, seq<Taken<T>>>, servers: set<nat>, s: nat)
    requires HoldsParts(multiset(out), parts, servers) && OwnParts(parts) && s in parts && s !in servers
    ensures HoldsParts(multiset(out + parts[s]), parts, servers + {s})
  {
    var part := parts[s];
    assert multiset(out + part) == multiset(out) + multiset(part);
    forall t: Taken<T> ensures t.server != s ==> multiset(part)[t] == 0 {
      assert t in multiset(part) ==> t in part;
    }
  }

  /** What triggerCapture makes of a server's part: its frames. */
  function FramesOf(roster: seq<Roster.CameraInfo>, s: nat, p: Pending): (part: seq<Taken<CapturedFrame>>)
    ensures |part| == |p.frames|
    ensures forall i | 0 <= i < |part| ::
              part[i] == Taken(GlobalOf(roster, s, p.frames[i].camera), s, p.frames[i])
  {
    seq(|p.frames|, i requires 0 <= i < |p.frames| =>
      Taken(GlobalOf(roster, s, p.frames[i].camera), s, p.frames[i]))
  }

  /** The frame that came last for a camera. */
  function LastFrameOf(frames: seq<CapturedFrame>, camera: U32): (r: Option<CapturedFrame>)
    ensures r.Some? <==> exists f :: f in frames && f.camera == camera
    ensures r.Some? ==> r.value in frames && r.value.camera == camera
  {
    if frames == [] then None
    else if frames[|frames| - 1].camera == camera then Some(frames[|frames| - 1])
    else LastFrameOf(frames[..|frames| - 1], camera)
  }

  function EntryOf(roster: seq<Roster.CameraInfo>, s: nat, p: Pending, c: Entry): Taken<Stacked> {
    Taken(GlobalOf(roster, s, c.camera), s, Stacked(c, LastFrameOf(p.frames, c.camera)))
  }

  /** What stackCapture makes of it: the cameras its result reported. */
  function EntriesOf(roster: seq<Roster.CameraInfo>, s: nat, p: Pending): (part: seq<Taken<Stacked>>)
    ensures |part| == |p.captures|
    ensures forall i | 0 <= i < |part| :: part[i] == EntryOf(roster, s, p, p.captures[i])
  {
    seq(|p.captures|, i requires 0 <= i < |p.captures| => EntryOf(roster, s, p, p.captures[i]))
  }

  function AllFrames(roster: seq<Roster.CameraInfo>, got: map<nat, Pending>): map<nat, seq<Taken<CapturedFrame>>> {
    map s | s in got :: FramesOf(roster, s, got[s])
  }

  function AllEntries(roster: seq<Roster.CameraInfo>, got: map<nat, Pending>): map<nat, seq<Taken<Stacked>>> {
    map s | s in got :: EntriesOf(roster, s, got[s])
  }

  // ---- The outcomes ----

  method ServerFrames(roster: seq<Roster.CameraInfo>, s: nat, p: Pending) returns (part: seq<Taken<CapturedFrame>>)
    ensures part == FramesOf(roster, s, p)
  {
    part := [];
    for i := 0 to |p.frames|
      invariant part == FramesOf(roster, s, p)[..i]
    {
      var f := p.frames[i];
      part := part + [Taken(GlobalOf(roster, s, f.camera), s, f)];
    }
  }

  method ServerEntries(roster: seq<Roster.CameraInfo>, s: nat, p: Pending) returns (part: seq<Taken<Stacked>>)
    ensures part == EntriesOf(roster, s, p)
  {
    part := [];
    for i := 0 to |p.captures|
      invariant part == EntriesOf(roster, s, p)[..i]
    {
      var c := p.captures[i];
      var frame := None;
      for j := 0 to |p.frames|
        invariant frame == LastFrameOf(p.frames[..j], c.camera)
      {
        assert p.frames[..j + 1][..j] == p.frames[..j];
        if p.frames[j].camera == c.camera {
          frame := Some(p.frames[j]);
        }
      }
      assert p.frames[..|p.frames|] == p.frames;
      part := part + [Taken(GlobalOf(roster, s, c.camera), s, Stacked(c, frame))];
    }
  }

  /** The trigger's outcome: every collected frame as often as it was collected,
      sorted by global id. */
  method TriggerOutcome(roster: seq<Roster.CameraInfo>, got: map<nat, Pending>) returns (out: seq<Taken<CapturedFrame>>)
    ensures HoldsParts(multiset(out), AllFrames(roster, got), got.Keys)
    ensures InIdOrder(out)
    ensures Roster.RosterInv(roster) ==>
              forall t | t in out :: NamesCamera(roster, t.globalId, t.server, t.item.camera)
  {
    ghost var parts := AllFrames(roster, got);
    assert OwnParts(parts);
    hide HoldsParts, OwnParts;
    out := [];
    var left := got.Keys;
    NoParts(parts);
    while left != {}
      invariant left <= got.Keys
      invariant HoldsParts(multiset(out), parts, got.Keys - left)
      decreases left
    {
      var s :| s in left;
      var part := ServerFrames(roster, s, got[s]);
      assert part == parts[s];
      PartAdded(out, parts, got.Keys - left, s);
      assert got.Keys - (left - {s}) == got.Keys - left + {s};
      left := left - {s};
      out := out + part;
    }
    assert got.Keys - left == got.Keys;
    SortedById(out);
    FramesAreNamed(roster, got, out);
    out := Sorting.Sorted(out, ById);
  }

  /** The stack's outcome: one entry for each camera each server reported, as
      often as it reported it, with the frame that came last for it, if one did;
      sorted by global id. */
  method StackOutcome(roster: seq<Roster.CameraInfo>, got: map<nat, Pending>) returns (out: seq<Taken<Stacked>>)
    ensures HoldsParts(multiset(out), AllEntries(roster, got), got.Keys)
    ensures InIdOrder(out)
    ensures Roster.RosterInv(roster) ==>
              forall t | t in out :: NamesCamera(roster, t.globalId, t.server, t.item.entry.camera)
  {
    ghost var parts := AllEntries(roster, got);
    assert OwnParts(parts);
    hide HoldsParts, OwnParts;
    out := [];
    var left := got.Keys;
    NoParts(parts);
    while left != {}
      invariant left <= got.Keys
      invariant HoldsParts(multiset(out), parts, got.Keys - left)
      decreases left
    {
      var s :| s in left;
      var part := ServerEntries(roster, s, got[s]);
      assert part == parts[s];
      PartAdded(out, parts, got.Keys - left, s);
      assert got.Keys - (left - {s}) == got.Keys - left + {s};
      left := left - {s};
      out := out + part;
    }
    assert got.Keys - left == got.Keys;
    SortedById(out);
    EntriesAreNamed(roster, got, out);
    out := Sorting.Sorted(out, ById);
  }

  lemma FromAPart<T(!new)>(out: seq<Taken<T>>, parts: map<nat, seq<Taken<T>>>, t: Taken<T>)
    requires HoldsParts(multiset(out), parts, parts.Keys) && t in out
    ensures t.server in parts && t in parts[t.server]
  {
    assert multiset(out)[t] > 0;
    assert t in multiset(parts[t.server]);
  }

  lemma FramesAreNamed(roster: seq<Roster.CameraInfo>, got: map<nat, Pending>, out: seq<Taken<CapturedFrame>>)
    requires HoldsParts(multiset(out), AllFrames(roster, got), got.Keys)
    ensures Roster.RosterInv(roster) ==>
              forall t | t in out :: NamesCamera(roster, t.globalId, t.server, t.item.camera)
  {
    if Roster.RosterInv(roster) {
      forall t | t in out ensures NamesCamera(roster, t.globalId, t.server, t.item.camera) {
        FromAPart(out, AllFrames(roster, got), t);
        GlobalNames(roster, t.server, t.item.camera);
      }
    }
  }

  lemma EntriesAreNamed(roster: seq<Roster.CameraInfo>, got: map<nat, Pending>, out: seq<Taken<Stacked>>)
    requires HoldsParts(multiset(out), AllEntries(roster, got), got.Keys)
    ensures Roster.RosterInv(roster) ==>
              forall t | t in out :: NamesCamera(roster, t.globalId, t.server, t.item.entry.camera)
  {
    if Roster.RosterInv(roster) {
      forall t | t in out ensures NamesCamera(roster, t.globalId, t.server, t.item.entry.camera) {
        FromAPart(out, AllEntries(roster, got), t);
        GlobalNames(roster, t.server, t.item.entry.camera);
      }
    }
  }

  /** A camera's entry carries the last frame that came for it. */
  lemma {:induction false} LastFrameIsLast(frames: seq<CapturedFrame>, camera: U32, i: nat)
    requires i < |frames| && frames[i].camera == camera && forall j | i < j < |frames| :: frames[j].camera != camera
    ensures LastFrameOf(frames, camera) == Some(frames[i])
    decreases |frames|
  {
    if i < |frames| - 1 {
      LastFrameIsLast(frames[..|frames| - 1], camera, i);
    }
  }

  lemma NoParts<T(!new)>(parts: map<nat, seq<Taken<T>>>)
    ensures HoldsParts(multiset([]), parts, {}) && parts.Keys - parts.Keys == {}
  {
  }
}
