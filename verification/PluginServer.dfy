/** One device plugin server (pkg/deviceplugin/server.go): its update queue and the lists it
    sends to kubelet. */
module PluginServer {
  import opened Sorting
  import opened DeviceTrees

  const QUEUE_CAPACITY: nat := 1

  /** `pushed` records every update the manager handed over and `sent` every list kubelet got.
      `serving` tells whether the gRPC server exists, `watching` whether kubelet's stream has
      been opened, `closed` whether the queue has been closed. */
  datatype Server = Server(devType: string, queue: seq<Devices>, devices: Devices,
                           serving: bool, watching: bool, closed: bool,
                           pushed: seq<Devices>, sent: seq<Devices>)

  function NewServer(devType: string): Server {
    Server(devType, [], map[], false, false, false, [], [])
  }

  /** `Update` blocks on a full queue and panics on a closed one. */
  predicate CanPush(s: Server) { !s.closed && |s.queue| < QUEUE_CAPACITY }

  function Pushed(s: Server, d: Devices): Server { s.(queue := s.queue + [d], pushed := s.pushed + [d]) }

  /** `Stop` fails before the gRPC server exists and then leaves the queue open. */
  function Stopped(s: Server): Server { if s.serving then s.(closed := true) else s }

  function Serving(s: Server): Server { s.(serving := true) }

  predicate CanWatch(s: Server) { s.serving && !s.watching && !s.closed }

  /** `ListAndWatch` starts by sending the current devices. */
  function Watching(s: Server): Server { s.(watching := true, sent := s.sent + [s.devices]) }

  predicate CanDeliver(s: Server) { s.watching && s.queue != [] }

  /** One round of the loop in `ListAndWatch`; a closed queue is drained. */
  function Delivered(s: Server): Server
    requires CanDeliver(s)
  {
    s.(devices := s.queue[0], queue := s.queue[1..], sent := s.sent + [s.queue[0]])
  }

  /** The lists sent and still queued are the initial empty list followed by the updates, in
      order, none lost and none repeated. */
  predicate Faithful(s: Server) {
    && |s.queue| <= QUEUE_CAPACITY
    && (s.watching ==> s.sent != [] && s.sent + s.queue == [map[]] + s.pushed && s.devices == s.sent[|s.sent|-1])
    && (!s.watching ==> s.sent == [] && s.queue == s.pushed && s.devices == map[])
    && (s.watching || s.closed ==> s.serving)
  }

  /** The list the manager gave last. */
  function LastPushed(s: Server): Devices { if s.pushed == [] then map[] else s.pushed[|s.pushed|-1] }

  lemma StepsFaithful(s: Server, d: Devices)
    requires Faithful(s)
    ensures CanPush(s) ==> Faithful(Pushed(s, d))
    ensures Faithful(Stopped(s)) && Faithful(Serving(s))
    ensures CanWatch(s) ==> Faithful(Watching(s))
    ensures CanDeliver(s) ==> Faithful(Delivered(s))
  {
    if s.watching {
      assert s.sent + (s.queue + [d]) == (s.sent + s.queue) + [d];
      assert [map[]] + (s.pushed + [d]) == ([map[]] + s.pushed) + [d];
    }
    if CanWatch(s) {
      assert Watching(s).sent == [map[]];
    }
    if CanDeliver(s) {
      assert (s.sent + [s.queue[0]]) + s.queue[1..] == s.sent + s.queue;
    }
  }

  /** A watched server with an empty queue has sent the list it was given last. */
  lemma DrainedIsCurrent(s: Server)
    requires Faithful(s) && s.watching && s.queue == []
    ensures s.sent[|s.sent|-1] == LastPushed(s)
  {
    assert s.sent == [map[]] + s.pushed;
  }

  // --------------------------------------------------------------- the class

  /** What kubelet receives for one device. */
  datatype Device = Device(id: string, health: string, topology: seq<int>)

  class DevicePluginServer {
    const devType: string
    var updatesCh: seq<Devices>
    var devices: Devices
    var grpcServer: bool
    var stream: bool
    var chClosed: bool
    ghost var pushed: seq<Devices>
    ghost var sent: seq<Devices>

    ghost function View(): Server
      reads this
    {
      Server(devType, updatesCh, devices, grpcServer, stream, chClosed, pushed, sent)
    }

    constructor (devType: string)
      ensures View() == NewServer(devType)
    {
      this.devType := devType;
      updatesCh, devices := [], map[];
      grpcServer, stream, chClosed := false, false, false;
      pushed, sent := [], [];
    }

    method Update(d: Devices)
      requires CanPush(View())
      modifies this
      ensures View() == Pushed(old(View()), d)
    {
      updatesCh := updatesCh + [d];
      pushed := pushed + [d];
    }

    /** Closing a closed queue would panic. */
    method StopServer() returns (ok: bool)
      requires !chClosed
      modifies this
      ensures View() == Stopped(old(View())) && ok == old(grpcServer)
    {
      if !grpcServer { return false; }
      chClosed := true;
      return true;
    }

    /** `setupAndServe` up to the point where the gRPC server exists. */
    method Serve()
      modifies this
      ensures View() == Serving(old(View()))
    {
      grpcServer := true;
    }

    /** Sends one entry per device, in the order of the Go map. */
    method SendDevices() returns (resp: seq<Device>)
      modifies this`sent
      ensures sent == old(sent) + [devices]
      ensures Reports(resp, devices)
    {
      var ids := Enumerate(devices.Keys);
      assert forall id | id in ids :: id in Elements(ids);
      resp := [];
      for i := 0 to |ids|
        invariant |resp| == i
        invariant forall k | 0 <= k < i :: resp[k] == Device(ids[k], devices[ids[k]].state, devices[ids[k]].topology)
      {
        resp := resp + [Device(ids[i], devices[ids[i]].state, devices[ids[i]].topology)];
      }
      sent := sent + [devices];
      forall id | id in devices
        ensures exists d | d in resp :: d.id == id
      {
        assert id in Elements(ids);
        var k :| 0 <= k < |ids| && ids[k] == id;
        assert resp[k].id == id;
      }
    }

    method StartWatching() returns (resp: seq<Device>)
      requires CanWatch(View())
      modifies this
      ensures View() == Watching(old(View())) && Reports(resp, devices)
    {
      stream := true;
      resp := SendDevices();
    }

    method WatchOne() returns (resp: seq<Device>)
      requires CanDeliver(View())
      modifies this
      ensures View() == Delivered(old(View())) && Reports(resp, devices)
    {
      devices, updatesCh := updatesCh[0], updatesCh[1..];
      resp := SendDevices();
    }
  }

  /** The response names every device once, with its health and topology, and no other. */
  ghost predicate Reports(resp: seq<Device>, devices: Devices) {
    && (forall i, j | 0 <= i < j < |resp| :: resp[i].id != resp[j].id)
    && (forall d | d in resp :: d.id in devices && d.health == devices[d.id].state && d.topology == devices[d.id].topology)
    && (forall id | id in devices :: exists d | d in resp :: d.id == id)
  }
}
