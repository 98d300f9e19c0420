/**
 All connections together (src/net/MultiServerManager.cpp:87-117, 225-253):
 one capture on every server, and the routing of discoveries and frames into
 the camera store. Whether a socket takes a command is an argument.
 */
module MultiServerManagers {
  import opened Bytes
  import opened Options
  import opened Protocol
  import opened CaptureBooks
  import opened WebSocketClients
  import opened CameraStores
  import opened FrameBuffers
  import opened PoolPolicy
  import opened Seqs
  import Roster
  import LatestWins
  import FrameRate

  /** A discovery reply, as roster operations. */
  function Discovery(server: nat, cams: seq<(U32, string)>): seq<Roster.Op> {
    if cams == [] then [Roster.Rebuild]
    else [Roster.Add((server, cams[0].0), cams[0].1)] + Discovery(server, cams[1..])
  }

  class MultiServerManager {
    const clients: seq<WebSocketClient>
    const raw: seq<bool>
    const store: CameraStore

    ghost predicate Valid() {
      && |raw| == |clients|
      && (forall i | 0 <= i < |clients| :: clients[i].serverIndex == i)
      && forall i, j | 0 <= i < j < |clients| :: clients[i] != clients[j]
    }

    constructor (clients: seq<WebSocketClient>, raw: seq<bool>, store: CameraStore)
      requires |raw| == |clients| && (forall i | 0 <= i < |clients| :: clients[i].serverIndex == i)
      requires forall i, j | 0 <= i < j < |clients| :: clients[i] != clients[j]
      ensures Valid() && this.clients == clients && this.raw == raw && this.store == store
    {
      this.clients, this.raw, this.store := clients, raw, store;
    }

    /** The request reaches the connected servers whose socket takes it, and
        those alone have it on record. */
    method TriggerCaptureAll(sendOk: seq<bool>) returns (sent: seq<nat>)
      requires Valid() && |sendOk| == |clients|
      modifies clients
      ensures forall i | 0 <= i < |clients| :: clients[i].connected == old(clients[i].connected)
      ensures Increasing(sent) && forall i: nat :: i in sent <==> i < |clients| && clients[i].connected && sendOk[i]
      ensures forall i | 0 <= i < |clients| ::
                clients[i].View() == if i in sent then Requested(old(clients[i].View()), Trigger)
                  else old(clients[i].View())
    {
      sent := [];
      for i := 0 to |clients|
        invariant forall j | 0 <= j < |clients| :: clients[j].connected == old(clients[j].connected)
        invariant Increasing(sent) && forall j: nat :: j in sent <==> j < i && clients[j].connected && sendOk[j]
        invariant forall j | 0 <= j < |clients| ::
                    clients[j].View() == if j in sent then Requested(old(clients[j].View()), Trigger)
                      else old(clients[j].View())
      {
        if clients[i].connected {
          var ok := clients[i].SendCaptureRequest(Trigger, sendOk[i]);
          if ok {
            assert sent != [] ==> sent[|sent| - 1] in sent;
            sent := sent + [clients[i].serverIndex];
          }
        }
      }
    }

    /** As above, but a server configured without `raw` is not asked: it would
        only refuse. */
    method StackCaptureAll(sendOk: seq<bool>) returns (sent: seq<nat>)
      requires Valid() && |sendOk| == |clients|
      modifies clients
      ensures forall i | 0 <= i < |clients| :: clients[i].connected == old(clients[i].connected)
      ensures Increasing(sent)
      ensures forall i: nat :: i in sent <==> i < |clients| && clients[i].connected && raw[i] && sendOk[i]
      ensures forall i | 0 <= i < |clients| ::
                clients[i].View() == if i in sent then Requested(old(clients[i].View()), Stack)
                  else old(clients[i].View())
    {
      sent := [];
      for i := 0 to |clients|
        invariant forall j | 0 <= j < |clients| :: clients[j].connected == old(clients[j].connected)
        invariant Increasing(sent)
        invariant forall j: nat :: j in sent <==> j < i && clients[j].connected && raw[j] && sendOk[j]
        invariant forall j | 0 <= j < |clients| ::
                    clients[j].View() == if j in sent then Requested(old(clients[j].View()), Stack)
                      else old(clients[j].View())
      {
        if !clients[i].connected || !raw[clients[i].serverIndex] {
          continue;
        }
        var ok := clients[i].SendCaptureRequest(Stack, sendOk[i]);
        if ok {
          assert sent != [] ==> sent[|sent| - 1] in sent;
          sent := sent + [clients[i].serverIndex];
        }
      }
    }

    method AnyCaptureInProgress() returns (r: bool)
      ensures r <==> exists i :: 0 <= i < |clients| && clients[i].connected && InProgress(clients[i].View())
    {
      for i := 0 to |clients|
        invariant forall j | 0 <= j < i :: !(clients[j].connected && InProgress(clients[j].View()))
      {
        if clients[i].connected {
          var busy := clients[i].CaptureInProgress();
          if busy {
            return true;
          }
        }
      }
      return false;
    }

    /** Every camera of the reply is added or refreshed, then all are renumbered. */
    method OnDiscovery(server: nat, cams: seq<(U32, string)>, now: int)
      requires store.Valid()
      modifies store
      ensures store.Valid()
      ensures store.roster == Roster.AfterAll(old(store.roster), Discovery(server, cams))
      ensures store.slots == map[] && store.captures == map[]
      ensures Roster.KeySet(store.roster) == Roster.KeySet(old(store.roster)) + set c | c in cams :: (server, c.0)
      ensures SensorsAre(store.roster, old(store.roster), server, cams)
    {
      DiscoveryIs(old(store.roster), server, cams);
      DiscoverySensors(old(store.roster), server, cams);
      for i := 0 to |cams|
        invariant store.Valid()
        invariant Roster.AfterAll(store.roster, Discovery(server, cams[i..]))
                  == Roster.AfterAll(old(store.roster), Discovery(server, cams))
      {
        var _ := store.AddCamera(server, cams[i].0, cams[i].1);
        DiscoveryTail(server, cams, i);
      }
      assert Discovery(server, cams[|cams|..]) == [Roster.Rebuild];
      store.RebuildGlobalIdsSorted(now);
      assert Roster.AfterAll(store.roster, []) == store.roster;
    }

    /** A live frame goes to the slot of the camera its server knows under this
        id, or, if no such camera is known, back to the pool. `useCount` is the
        reference count of the buffer that is released, whichever it is. */
    method OnFrame(server: nat, buf: FrameBuffer, useCount: nat, now: int)
      requires store.Valid() && buf !in store.pool.free
      requires useCount <= 1 ==> forall g: nat :: store.SoleOwner(g, buf)
      modifies store`slots, store`stats, store.pool
      ensures store.Valid()
      ensures (server, buf.meta.cameraId) !in Roster.KeySet(store.roster) ==>
                store.slots == old(store.slots) && store.stats == old(store.stats)
                && store.pool.free == if useCount > 1 then old(store.pool.free) else Pushed(old(store.pool.free), buf)
      ensures (server, buf.meta.cameraId) in Roster.KeySet(store.roster) ==>
                exists g :: 0 <= g < |store.roster| && Roster.KeyOf(store.roster[g]) == (server, buf.meta.cameraId)
                            && store.slots == old(store.slots)[g := LatestWins.Published(old(store.SlotOf(g)), buf)]
                            && store.stats == old(store.stats)[g := LiveStats(
                                 buf.meta.frameId, buf.meta.framesSaved,
                                 FrameRate.Recorded(old(store.StatsOf(g, now)).rate, ArrivalOf(buf, now)))]
                            && store.pool.free == if old(store.SlotOf(g)).latest.Some? && useCount <= 1
                                                  then Pushed(old(store.pool.free), old(store.SlotOf(g)).latest.value)
                                                  else old(store.pool.free)
    {
      var at := store.FindByServer(server, buf.meta.cameraId);
      if at.None? {
        NotPublished(store, buf, useCount);
        store.pool.Release(buf, useCount);
        return;
      }
      store.PublishFrame(store.roster[at.value].globalId, buf, useCount, now);
      assert Roster.KeyOf(store.roster[at.value]) == (server, buf.meta.cameraId);
    }

    /** A capture frame becomes the last capture of its camera, if the camera is
        known; live slots and statistics never see it. */
    method OnCaptureFrame(server: nat, frame: FrameBuffer, now: int) returns (globalId: Option<nat>)
      requires store.Valid()
      modifies store`captures, store`captureSeq
      ensures store.Valid()
      ensures globalId.Some? <==> (server, frame.meta.cameraId) in Roster.KeySet(store.roster)
      ensures globalId.None? ==> store.captures == old(store.captures) && store.captureSeq == old(store.captureSeq)
      ensures globalId.Some? ==>
                && globalId.value < |store.roster|
                && Roster.KeyOf(store.roster[globalId.value]) == (server, frame.meta.cameraId)
                && store.captures == old(store.captures)[globalId.value :=
                  Capture(frame, now, old(store.captureSeq) + 1)]
    {
      globalId := store.FindByServer(server, frame.meta.cameraId);
      if globalId.Some? {
        var _ := store.PublishCapture(globalId.value, frame, now);
      }
    }
  }

  /** A listed camera has the sensor it was last listed with; any other keeps
      its own. */
  ghost predicate SensorsAre(
    after: seq<Roster.CameraInfo>, before: seq<Roster.CameraInfo>, server: nat, cams: seq<(U32, string)>) {
    && (forall i | 0 <= i < |cams| && forall j | i < j < |cams| :: cams[j].0 != cams[i].0 ::
          Roster.HasSensor(after, (server, cams[i].0), cams[i].1))
    && (forall k, sensor | Roster.HasSensor(before, k, sensor) && !Lists(server, cams, k) ::
          Roster.HasSensor(after, k, sensor))
  }

  predicate Lists(server: nat, cams: seq<(U32, string)>, k: Roster.Key) {
    k.0 == server && exists i :: 0 <= i < |cams| && cams[i].0 == k.1
  }

  lemma {:induction false} DiscoverySensors(roster: seq<Roster.CameraInfo>, server: nat, cams: seq<(U32, string)>)
    requires Roster.RosterInv(roster)
    ensures SensorsAre(Roster.AfterAll(roster, Discovery(server, cams)), roster, server, cams)
    decreases |cams|
  {
    var after := Roster.AfterAll(roster, Discovery(server, cams));
    if cams == [] {
      assert after == Roster.Rebuilt(roster) by {
        assert [Roster.Rebuild][1..] == [];
      }
      hide Roster.Rebuilt;
      forall k, sensor | Roster.HasSensor(roster, k, sensor) ensures Roster.HasSensor(after, k, sensor) {
        Roster.RebuiltSensor(roster, k, sensor);
      }
    } else {
      var op, rest := Roster.Add((server, cams[0].0), cams[0].1), cams[1..];
      var r := Roster.After(roster, op);
      Roster.AddedIs(roster, op.key, op.sensor);
      DiscoverySensors(r, server, rest);
      assert Discovery(server, cams)[1..] == Discovery(server, rest);
      forall k, sensor
        ensures Roster.HasSensor(r, op.key, op.sensor)
        ensures Roster.HasSensor(roster, k, sensor) && k != op.key ==> Roster.HasSensor(r, k, sensor)
      {
        Roster.AddedSensor(roster, op.key, op.sensor, k, sensor);
      }
      hide Roster.HasSensor, Roster.After, Roster.AfterAll, Roster.RosterInv, Discovery;
      SensorsOfRest(after, roster, r, server, cams);
    }
  }

  lemma SensorsOfRest(
    after: seq<Roster.CameraInfo>, before: seq<Roster.CameraInfo>, r: seq<Roster.CameraInfo>, server: nat,
    cams: seq<(U32, string)>)
    requires cams != [] && SensorsAre(after, r, server, cams[1..])
    requires Roster.HasSensor(r, (server, cams[0].0), cams[0].1)
    requires forall k, sensor | Roster.HasSensor(before, k, sensor) && k != (server, cams[0].0) ::
               Roster.HasSensor(r, k, sensor)
    ensures SensorsAre(after, before, server, cams)
  {
    hide Roster.HasSensor;
    var rest := cams[1..];
    assert forall i | 0 < i < |cams| :: cams[i] == rest[i - 1];
    forall i | 0 <= i < |cams| && forall j | i < j < |cams| :: cams[j].0 != cams[i].0
      ensures Roster.HasSensor(after, (server, cams[i].0), cams[i].1)
    {
      if i == 0 {
        assert !Lists(server, rest, (server, cams[0].0));
      } else {
        assert forall j | i - 1 < j < |rest| :: rest[j].0 != rest[i - 1].0;
      }
    }
    forall k, sensor | Roster.HasSensor(before, k, sensor) && !Lists(server, cams, k)
      ensures Roster.HasSensor(after, k, sensor)
    {
      assert !Lists(server, rest, k);
      assert k != (server, cams[0].0);
    }
  }

  /** A reply adds exactly the cameras it lists, under their server. */
  lemma {:induction false} DiscoveryIs(roster: seq<Roster.CameraInfo>, server: nat, cams: seq<(U32, string)>)
    requires Roster.RosterInv(roster)
    ensures Roster.KeySet(Roster.AfterAll(roster, Discovery(server, cams)))
            == Roster.KeySet(roster) + set c | c in cams :: (server, c.0)
    decreases |cams|
  {
    if cams == [] {
      Roster.RebuiltIs(roster);
      assert Roster.AfterAll(Roster.Rebuilt(roster), []) == Roster.Rebuilt(roster);
      assert [Roster.Rebuild][1..] == [];
    } else {
      var op, rest := Roster.Add((server, cams[0].0), cams[0].1), cams[1..];
      Roster.AddedIs(roster, op.key, op.sensor);
      hide Roster.KeySet, Roster.RosterInv;
      DiscoveryIs(Roster.After(roster, op), server, rest);
      assert Discovery(server, cams)[1..] == Discovery(server, rest);
      assert (set c | c in cams :: (server, c.0)) == {(server, cams[0].0)} + set c | c in rest :: (server, c.0) by {
        assert cams == [cams[0]] + rest;
      }
    }
  }

  lemma DiscoveryTail(server: nat, cams: seq<(U32, string)>, i: nat)
    requires i < |cams|
    ensures Discovery(server, cams[i..]) == [Roster.Add((server, cams[i].0), cams[i].1)] +
            Discovery(server, cams[i + 1..])
  {
    assert cams[i..][1..] == cams[i + 1..];
  }

  /** A buffer with one reference that is being delivered sits in no slot. */
  lemma NotPublished(store: CameraStore, buf: FrameBuffer, useCount: nat)
    requires useCount <= 1 ==> forall g: nat :: store.SoleOwner(g, buf)
    ensures useCount <= 1 ==> forall g | g in store.slots :: store.slots[g].latest != Some(buf)
  {
    if useCount <= 1 {
      forall g | g in store.slots ensures store.slots[g].latest != Some(buf) {
        assert store.SoleOwner(g, buf);
      }
    }
  }
}
