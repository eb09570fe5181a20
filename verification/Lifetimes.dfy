/** When device plugin servers serve and end, over every run of the pipeline
    (pkg/deviceplugin/manager.go:114-164 and server.go), read off the steps. */
module Lifetimes {
  import opened Sorting
  import opened DeviceTrees
  import opened PluginServer
  import opened Pipeline

  /** Step `j` of the run is the manager's call that stops server `id`. */
  ghost predicate StoppedAt(steps: seq<Step>, id: nat, j: nat)
    requires IsRun(steps)
  {
    && j < |steps| && steps[j] == Manage
    && IsRun(steps[..j]) && Stops(After(steps[..j]), id)
  }

  predicate Stops(s: System, id: nat) {
    s.pending != [] && s.pending[0].Stop? && s.pending[0].devType in s.live && s.live[s.pending[0].devType] == id
  }

  predicate IsLive(s: System, id: nat) { exists k | k in s.live :: s.live[k] == id }

  // ------------------------------------------------------------------ one step

  lemma StepServing(s: System, step: Step, id: nat)
    requires Enabled(s, step)
    ensures var before, after := id < |s.servers| && s.servers[id].serving,
                                 id < |Apply(s, step).servers| && Apply(s, step).servers[id].serving;
            after <==> before || step == Serve(id)
  {
  }

  lemma StepClosed(s: System, step: Step, id: nat)
    requires Enabled(s, step)
    ensures var before, after := id < |s.servers| && s.servers[id].closed,
                                 id < |Apply(s, step).servers| && Apply(s, step).servers[id].closed;
            after <==> before || (step == Manage && Stops(s, id) && s.servers[id].serving)
  {
  }

  lemma StepLive(s: System, step: Step, id: nat)
    requires Inv(s) && Enabled(s, step)
    ensures |s.servers| <= |Apply(s, step).servers|
    ensures id < |s.servers| ==> (IsLive(Apply(s, step), id) <==> IsLive(s, id) && !(step == Manage && Stops(s, id)))
    ensures |s.servers| <= id < |Apply(s, step).servers| ==> IsLive(Apply(s, step), id)
  {
    if step == Manage { ManageLive(s, id); }
  }

  lemma ManageLive(s: System, id: nat)
    requires Inv(s) && Enabled(s, Manage)
    ensures id < |s.servers| ==> (IsLive(Managed(s), id) <==> IsLive(s, id) && !Stops(s, id))
    ensures |s.servers| <= id < |Managed(s).servers| ==> IsLive(Managed(s), id)
  {
    var k := s.pending[0].devType;
    assert Executable(View(s), s.pending[0]);
    match s.pending[0]
    case Create(_) =>
      assert Managed(s).live[k] == |s.servers|;
      assert forall x | x in s.live :: Managed(s).live[x] == s.live[x];
    case Push(_, _) =>
    case Stop(_) =>
      forall x | x in s.live && x != k
        ensures s.live[x] != s.live[k] && x in Managed(s).live && Managed(s).live[x] == s.live[x]
      {
        assert OpenServer(s, x) && OpenServer(s, k);
      }
  }

  // ------------------------------------------------------------------ every run

  /** A server has its gRPC server exactly once that has come up. */
  lemma {:induction false} ServingExactly(steps: seq<Step>, id: nat)
    requires IsRun(steps)
    ensures id < |After(steps).servers| && After(steps).servers[id].serving <==> Serve(id) in steps
  {
    if steps == [] {
    } else {
      var front, step := steps[..|steps|-1], steps[|steps|-1];
      assert steps == front + [step];
      ServingExactly(front, id);
      StepServing(After(front), step, id);
    }
  }

  lemma StoppedBefore(front: seq<Step>, step: Step, id: nat, j: nat)
    requires IsRun(front + [step]) && IsRun(front) && j < |front|
    ensures StoppedAt(front + [step], id, j) <==> StoppedAt(front, id, j)
    ensures (front + [step])[..j] == front[..j]
  {
    var all := front + [step];
    assert all[..j] == front[..j] && all[j] == front[j];
  }

  lemma StoppedLast(front: seq<Step>, step: Step, id: nat)
    requires IsRun(front + [step]) && IsRun(front)
    ensures StoppedAt(front + [step], id, |front|) <==> step == Manage && Stops(After(front), id)
    ensures (front + [step])[..|front|] == front
  {
    var all := front + [step];
    assert all[..|front|] == front && all[|front|] == step;
  }

  lemma StoppedStep(front: seq<Step>, step: Step, id: nat)
    requires IsRun(front + [step]) && IsRun(front)
    ensures (exists j: nat :: StoppedAt(front + [step], id, j)) <==>
              (exists j: nat :: StoppedAt(front, id, j)) || (step == Manage && Stops(After(front), id))
  {
    StoppedLast(front, step, id);
    forall j: nat | j < |front|
      ensures StoppedAt(front + [step], id, j) <==> StoppedAt(front, id, j)
    {
      StoppedBefore(front, step, id, j);
    }
    if j: nat :| StoppedAt(front, id, j) { assert StoppedAt(front + [step], id, j); }
    if j: nat :| StoppedAt(front + [step], id, j) { assert j == |front| || StoppedAt(front, id, j); }
  }

  /** A server is in the manager's map from its creation until it is stopped. */
  lemma {:induction false} LiveExactly(steps: seq<Step>, id: nat)
    requires IsRun(steps) && id < |After(steps).servers|
    ensures IsLive(After(steps), id) <==> !exists j: nat :: StoppedAt(steps, id, j)
  {
    var front, step := steps[..|steps|-1], steps[|steps|-1];
    assert steps == front + [step];
    RunKeeps(front);
    StoppedStep(front, step, id);
    StepLive(After(front), step, id);
    if id < |After(front).servers| {
      LiveExactly(front, id);
    } else {
      NotStoppedYet(front, id);
      NewNotStopped(After(front), id);
    }
  }

  lemma NewNotStopped(s: System, id: nat)
    requires Inv(s) && |s.servers| <= id
    ensures !Stops(s, id)
  {
    forall k | k in s.live
      ensures s.live[k] < |s.servers|
    {
      assert OpenServer(s, k);
    }
  }

  lemma {:induction false} NotStoppedYet(steps: seq<Step>, id: nat)
    requires IsRun(steps) && |After(steps).servers| <= id
    ensures !exists j: nat :: StoppedAt(steps, id, j)
  {
    if steps == [] {
    } else {
      var front, step := steps[..|steps|-1], steps[|steps|-1];
      assert steps == front + [step];
      RunKeeps(front);
      StepLive(After(front), step, id);
      NotStoppedYet(front, id);
      NewNotStopped(After(front), id);
      StoppedStep(front, step, id);
    }
  }

  /** Step `j` stops the server after its gRPC server has come up. */
  ghost predicate EndedAt(steps: seq<Step>, id: nat, j: nat)
    requires IsRun(steps)
  {
    StoppedAt(steps, id, j) && Serve(id) in steps[..j]
  }

  /** The queue of a server is closed exactly when it was stopped after its gRPC server had come up. */
  lemma {:induction false} ClosedExactly(steps: seq<Step>, id: nat)
    requires IsRun(steps)
    ensures id < |After(steps).servers| && After(steps).servers[id].closed <==> exists j: nat :: EndedAt(steps, id, j)
  {
    if steps == [] {
    } else {
      var front, step := steps[..|steps|-1], steps[|steps|-1];
      assert steps == front + [step];
      ClosedExactly(front, id);
      ServingExactly(front, id);
      StepClosed(After(front), step, id);
      EndedStep(front, step, id);
      RunKeeps(front);
      if id >= |After(front).servers| { NewNotStopped(After(front), id); }
    }
  }

  lemma EndedStep(front: seq<Step>, step: Step, id: nat)
    requires IsRun(front + [step]) && IsRun(front)
    ensures (exists j: nat :: EndedAt(front + [step], id, j)) <==>
              (exists j: nat :: EndedAt(front, id, j)) ||
              (step == Manage && Stops(After(front), id) && Serve(id) in front)
  {
    StoppedLast(front, step, id);
    forall j: nat | j < |front|
      ensures EndedAt(front + [step], id, j) <==> EndedAt(front, id, j)
    {
      StoppedBefore(front, step, id, j);
    }
    if j: nat :| EndedAt(front, id, j) { assert EndedAt(front + [step], id, j); }
    if j: nat :| EndedAt(front + [step], id, j) { assert j == |front| || EndedAt(front, id, j); }
    if step == Manage && Stops(After(front), id) && Serve(id) in front {
      assert EndedAt(front + [step], id, |front|);
    }
  }

  /** A server that is not in the manager's map any more has ended, unless the manager stopped it
      before its gRPC server had come up. */
  lemma RemovedIsClosed(steps: seq<Step>, id: nat)
    requires IsRun(steps) && id < |After(steps).servers| && !IsLive(After(steps), id)
    ensures After(steps).servers[id].closed <==> exists j: nat :: EndedAt(steps, id, j)
    ensures exists j: nat :: StoppedAt(steps, id, j)
  {
    ClosedExactly(steps, id);
    LiveExactly(steps, id);
  }

  // ------------------------------------------------------------ a stale server

  lemma Next(run: seq<Step>, s: System, step: Step, s': System) returns (run': seq<Step>)
    requires IsRun(run) && After(run) == s && Enabled(s, step) && Apply(s, step) == s'
    ensures run' == run + [step] && IsRun(run') && After(run') == s'
  {
    run' := run + [step];
    assert run'[..|run|] == run && run'[|run|] == step;
  }

  lemma AddPlan(k: string, d: Devices)
    ensures IsPlan([Create(k), Push(k, d)], Diff(map[], map[k := d]))
  {
    var u := Diff(map[], map[k := d]);
    var a, none := [k], [];
    assert u == UpdateInfo(map[k := d], map[], map[]);
    assert Enumerates(a, u.added.Keys) && Enumerates(none, u.updated.Keys) && Enumerates(none, u.removed.Keys);
    assert a[..0] == none;
    assert Creations(u.added, a) == [Create(k), Push(k, d)];
    assert Plan(u, a, none, none) == [Create(k), Push(k, d)];
  }

  lemma RemovePlan(k: string, d: Devices)
    ensures IsPlan([Stop(k)], Diff(map[k := d], map[]))
  {
    var u := Diff(map[k := d], map[]);
    var r, none := [k], [];
    assert u == UpdateInfo(map[], map[], map[k := d]);
    assert Enumerates(none, u.added.Keys) && Enumerates(none, u.updated.Keys) && Enumerates(r, u.removed.Keys);
    assert r[..0] == none;
    assert DeviceTrees.Stops(r) == [Stop(k)];
    assert Plan(u, none, none, r) == [Stop(k)];
  }

  lemma Differs(k: string, d: Devices)
    ensures map[k := d] != map[]
  {
    assert k in map[k := d];
  }

  /** The system with this tree handled, calls pending, servers in the map and servers created. */
  function Handled(t: Tree, pending: seq<Call>, live: map<string, nat>, servers: seq<Server>): System {
    System(t, t, Idle, pending, live, servers)
  }

  /** A tree is scanned and the manager takes the message. */
  lemma ScanAndReceive(run: seq<Step>, before: Tree, after: Tree, live: map<string, nat>, servers: seq<Server>,
                       calls: seq<Call>) returns (run': seq<Step>)
    requires IsRun(run) && After(run) == Handled(before, [], live, servers)
    requires before != after && IsPlan(calls, Diff(before, after))
    ensures IsRun(run') && After(run') == Handled(after, calls, live, servers)
  {
    var s := Handled(before, [], live, servers);
    var s' := s.(scanned := after, notifier := Sending(Diff(before, after), after));
    var one := Next(run, s, Scan(after), s');
    run' := Next(one, s', Receive(calls), Handled(after, calls, live, servers));
  }

  lemma ManageNext(run: seq<Step>, t: Tree, pending: seq<Call>, live: map<string, nat>, servers: seq<Server>)
    returns (run': seq<Step>)
    requires IsRun(run) && After(run) == Handled(t, pending, live, servers)
    requires Enabled(Handled(t, pending, live, servers), Manage)
    ensures IsRun(run') && After(run') == Managed(Handled(t, pending, live, servers))
  {
    var s := Handled(t, pending, live, servers);
    run' := Next(run, s, Manage, Managed(s));
  }

  lemma CreateNext(t: Tree, k: string, rest: seq<Call>)
    ensures Enabled(Handled(t, [Create(k)] + rest, map[], []), Manage)
    ensures Managed(Handled(t, [Create(k)] + rest, map[], [])) == Handled(t, rest, map[k := 0], [NewServer(k)])
  {
    assert ([Create(k)] + rest)[1..] == rest;
  }

  lemma PushNext(t: Tree, k: string, d: Devices, server: Server)
    requires CanPush(server)
    ensures Enabled(Handled(t, [Push(k, d)], map[k := 0], [server]), Manage)
    ensures Managed(Handled(t, [Push(k, d)], map[k := 0], [server])) ==
            Handled(t, [], map[k := 0], [Pushed(server, d)])
  {
  }

  lemma StopNext(k: string, server: Server)
    requires !server.closed && !server.serving
    ensures Enabled(Handled(map[], [Stop(k)], map[k := 0], [server]), Manage)
    ensures Managed(Handled(map[], [Stop(k)], map[k := 0], [server])) == Handled(map[], [], map[], [server])
  {
    assert map[k := 0] - {k} == map[];
  }

  /** A device type is found, and its server created and given the devices. */
  lemma Adding(k: string, d: Devices) returns (run: seq<Step>)
    ensures IsRun(run) && After(run) == Handled(map[k := d], [], map[k := 0], [Pushed(NewServer(k), d)])
  {
    var t := map[k := d];
    AddPlan(k, d);
    Differs(k, d);
    assert [Create(k)] + [Push(k, d)] == [Create(k), Push(k, d)];
    var none: seq<Step> := [];
    var received := ScanAndReceive(none, map[], t, map[], [], [Create(k), Push(k, d)]);
    CreateNext(t, k, [Push(k, d)]);
    var created := ManageNext(received, t, [Create(k)] + [Push(k, d)], map[], []);
    PushNext(t, k, d, NewServer(k));
    run := ManageNext(created, t, [Push(k, d)], map[k := 0], [NewServer(k)]);
  }

  /** It is gone at the next scan, and the manager stops the server before that has come up. */
  lemma Removing(k: string, d: Devices, start: seq<Step>) returns (run: seq<Step>)
    requires IsRun(start) && After(start) == Handled(map[k := d], [], map[k := 0], [Pushed(NewServer(k), d)])
    ensures IsRun(run) && After(run) == Handled(map[], [], map[], [Pushed(NewServer(k), d)])
  {
    var server := Pushed(NewServer(k), d);
    RemovePlan(k, d);
    Differs(k, d);
    var received := ScanAndReceive(start, map[k := d], map[], map[k := 0], [server], [Stop(k)]);
    StopNext(k, server);
    run := ManageNext(received, map[], [Stop(k)], map[k := 0], [server]);
  }

  /** The server comes up after all, and kubelet watches it. */
  lemma Reviving(server: Server, d: Devices, start: seq<Step>) returns (run: seq<Step>)
    requires !server.serving && !server.watching && !server.closed && server.sent == [] && server.queue == [d]
    requires server.devices == map[] && IsRun(start) && After(start) == Handled(map[], [], map[], [server])
    ensures IsRun(run) && After(run) == Handled(map[], [], map[], [Delivered(Watching(Serving(server)))])
  {
    var up, watched := Serving(server), Watching(Serving(server));
    var one := Next(start, Handled(map[], [], map[], [server]), Serve(0), Handled(map[], [], map[], [up]));
    var two := Next(one, Handled(map[], [], map[], [up]), Watch(0), Handled(map[], [], map[], [watched]));
    run := Next(two, Handled(map[], [], map[], [watched]), Deliver(0), Handled(map[], [], map[], [Delivered(watched)]));
  }

  /** So there is a run after which the type is gone from the last scan and from the manager's map,
      and yet kubelet has its devices from an open server that nobody will stop. */
  lemma StaleServer(k: string, d: Devices) returns (steps: seq<Step>)
    ensures IsRun(steps) && LastScan(steps) == map[] && Quiescent(After(steps)) && After(steps).live == map[]
    ensures |After(steps).servers| == 1
    ensures var server := After(steps).servers[0]; server.devType == k && !server.closed && server.sent == [map[], d]
  {
    var added := Adding(k, d);
    var removed := Removing(k, d, added);
    steps := Reviving(Pushed(NewServer(k), d), d, removed);
    ScannedIsLastScan(steps);
  }
}
