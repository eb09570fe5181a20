/** Scanner, notifier, manager and servers running concurrently (pkg/deviceplugin/manager.go
    and server.go), as a step system: every interleaving of their steps is a run. */
module Pipeline {
  import opened Common
  import opened Sorting
  import opened Text
  import opened DeviceTrees
  import opened PluginServer

  /** The notifier blocks in `Notify` until the manager takes the message. */
  datatype NotifierState = Idle | Sending(msg: UpdateInfo, tree: Tree)

  /** `tree` is the notifier's tree, `scanned` the tree it was last given, `pending` the calls
      the manager has still to make for the update it is handling, `live` its server map, and
      `servers` all servers ever created. */
  datatype System = System(tree: Tree, scanned: Tree, notifier: NotifierState,
                           pending: seq<Call>, live: map<string, nat>, servers: seq<Server>)

  const START := System(map[], map[], Idle, [], map[], [])

  datatype Step =
    | Scan(found: Tree)               // the scanner calls Notify
    | Receive(calls: seq<Call>)       // the manager takes the message, going through its maps in some order
    | Manage                          // the manager makes its next call
    | Serve(id: nat)                  // a server's gRPC server comes up
    | Watch(id: nat)                  // kubelet opens the stream of a server
    | Deliver(id: nat)                // a server takes an update from its queue and sends it

  /** The server a call is for, if the manager has it. */
  predicate Known(s: System, devType: string) { devType in s.live && s.live[devType] < |s.servers| }

  ghost predicate Enabled(s: System, step: Step) {
    match step
    case Scan(_) => s.notifier.Idle?
    case Receive(calls) => s.notifier.Sending? && s.pending == [] && IsPlan(calls, s.notifier.msg)
    case Manage =>
      && s.pending != []
      && (match s.pending[0]
          case Create(_) => true
          case Push(k, _) => Known(s, k) && CanPush(s.servers[s.live[k]])
          case Stop(k) => Known(s, k) && !s.servers[s.live[k]].closed)
    case Serve(id) => id < |s.servers| && !s.servers[id].serving
    case Watch(id) => id < |s.servers| && CanWatch(s.servers[id])
    case Deliver(id) => id < |s.servers| && CanDeliver(s.servers[id])
  }

  ghost function Managed(s: System): System
    requires Enabled(s, Manage)
  {
    var rest := s.pending[1..];
    match s.pending[0]
    case Create(k) => s.(pending := rest, live := s.live[k := |s.servers|], servers := s.servers + [NewServer(k)])
    case Push(k, d) => s.(pending := rest, servers := s.servers[s.live[k] := Pushed(s.servers[s.live[k]], d)])
    case Stop(k) =>
      s.(pending := rest, live := s.live - {k}, servers := s.servers[s.live[k] := Stopped(s.servers[s.live[k]])])
  }

  ghost function Apply(s: System, step: Step): System
    requires Enabled(s, step)
  {
    match step
    case Scan(found) =>
      s.(scanned := found,
         notifier := if s.tree == found then Idle else Sending(Diff(s.tree, found), found))
    case Receive(calls) => s.(tree := s.notifier.tree, notifier := Idle, pending := calls)
    case Manage => Managed(s)
    case Serve(id) => s.(servers := s.servers[id := Serving(s.servers[id])])
    case Watch(id) => s.(servers := s.servers[id := Watching(s.servers[id])])
    case Deliver(id) => s.(servers := s.servers[id := Delivered(s.servers[id])])
  }

  /** A run is a list of steps, each enabled when its turn comes. */
  ghost predicate IsRun(steps: seq<Step>)
    decreases |steps|, 0
  {
    steps != [] ==> IsRun(steps[..|steps|-1]) && Enabled(After(steps[..|steps|-1]), steps[|steps|-1])
  }

  ghost function After(steps: seq<Step>): System
    requires IsRun(steps)
    decreases |steps|, 1
  {
    if steps == [] then START else Apply(After(steps[..|steps|-1]), steps[|steps|-1])
  }

  // --------------------------------------------------------------- invariant

  /** Every live device type has its own open server. */
  ghost predicate LiveOk(s: System) {
    forall k | k in s.live :: OpenServer(s, k)
  }

  predicate OpenServer(s: System, k: string) {
    Known(s, k) && s.servers[s.live[k]].devType == k && !s.servers[s.live[k]].closed
  }

  ghost predicate AllFaithful(s: System) { forall i | 0 <= i < |s.servers| :: Faithful(s.servers[i]) }

  /** The lists the live servers were last given. */
  ghost function View(s: System): Tree
    requires LiveOk(s)
  {
    map k | k in s.live :: LastPushed(s.servers[s.live[k]])
  }

  /** The message in flight is the difference that is still missing. */
  ghost predicate NotifierOk(s: System) {
    match s.notifier
    case Idle => s.scanned == s.tree
    case Sending(msg, tree) => tree == s.scanned && msg == Diff(s.tree, tree) && s.tree != tree
  }

  /** Finishing the pending calls brings the servers to the notifier's tree, and each of these
      calls will find the server it needs. */
  ghost predicate OnTrack(s: System)
    requires LiveOk(s)
  {
    AllExecutable(View(s), s.pending) && Settle(View(s), s.pending) == s.tree
  }

  ghost predicate Inv(s: System) { LiveOk(s) && AllFaithful(s) && NotifierOk(s) && OnTrack(s) }

  /** Replacing one server by one with the same type, openness and last list changes nothing
      the manager can see. */
  lemma ServerStepKeeps(s: System, id: nat, r: Server)
    requires Inv(s) && id < |s.servers| && Faithful(r)
    requires r.devType == s.servers[id].devType && r.closed == s.servers[id].closed && r.pushed == s.servers[id].pushed
    ensures Inv(s.(servers := s.servers[id := r]))
  {
    ServerStepKeepsLive(s, id, r);
  }

  lemma ServerStepKeepsLive(s: System, id: nat, r: Server)
    requires LiveOk(s) && id < |s.servers|
    requires r.devType == s.servers[id].devType && r.closed == s.servers[id].closed && r.pushed == s.servers[id].pushed
    ensures var s' := s.(servers := s.servers[id := r]); LiveOk(s') && View(s') == View(s)
  {
    var s' := s.(servers := s.servers[id := r]);
    forall k | k in s'.live
      ensures OpenServer(s', k)
      ensures LastPushed(s'.servers[s'.live[k]]) == LastPushed(s.servers[s.live[k]])
    {
      assert OpenServer(s, k);
    }
  }

  lemma CreateKeepsLive(s: System)
    requires LiveOk(s) && Enabled(s, Manage) && s.pending[0].Create?
    ensures LiveOk(Managed(s)) && View(Managed(s)) == Do(View(s), s.pending[0])
  {
    var s' := Managed(s);
    forall k | k in s'.live
      ensures OpenServer(s', k)
    {
      if k != s.pending[0].devType { assert OpenServer(s, k); }
    }
  }

  lemma PushKeepsLive(s: System)
    requires LiveOk(s) && Enabled(s, Manage) && s.pending[0].Push?
    ensures LiveOk(Managed(s)) && View(Managed(s)) == Do(View(s), s.pending[0])
  {
    var s' := Managed(s);
    var k0 := s.pending[0].devType;
    forall k | k in s'.live
      ensures OpenServer(s', k)
    {
      assert OpenServer(s, k);
    }
    assert View(s') == Do(View(s), s.pending[0]);
  }

  lemma StopKeepsLive(s: System)
    requires LiveOk(s) && Enabled(s, Manage) && s.pending[0].Stop?
    ensures LiveOk(Managed(s)) && View(Managed(s)) == Do(View(s), s.pending[0])
  {
    var s' := Managed(s);
    var k0 := s.pending[0].devType;
    forall k | k in s'.live
      ensures OpenServer(s', k)
    {
      assert OpenServer(s, k);
    }
    assert View(s') == Do(View(s), s.pending[0]);
  }

  lemma ManageKeeps(s: System)
    requires Inv(s) && Enabled(s, Manage)
    ensures Inv(Managed(s))
  {
    ManageFaithful(s);
    match s.pending[0]
    case Create(_) => CreateKeepsLive(s);
    case Push(_, _) => PushKeepsLive(s);
    case Stop(_) => StopKeepsLive(s);
  }

  lemma ManageFaithful(s: System)
    requires AllFaithful(s) && Enabled(s, Manage)
    ensures AllFaithful(Managed(s))
  {
    match s.pending[0]
    case Create(_) =>
    case Push(k, d) => StepsFaithful(s.servers[s.live[k]], d);
    case Stop(k) => StepsFaithful(s.servers[s.live[k]], map[]);
  }

  lemma StepKeeps(s: System, step: Step)
    requires Inv(s) && Enabled(s, step)
    ensures Inv(Apply(s, step))
  {
    match step
    case Scan(found) => assert View(Apply(s, step)) == View(s);
    case Receive(calls) =>
      PlanSettles(s.tree, s.notifier.tree, calls);
      assert View(Apply(s, step)) == View(s);
    case Manage => ManageKeeps(s);
    case Serve(id) =>
      StepsFaithful(s.servers[id], map[]);
      ServerStepKeeps(s, id, Serving(s.servers[id]));
    case Watch(id) =>
      StepsFaithful(s.servers[id], map[]);
      ServerStepKeeps(s, id, Watching(s.servers[id]));
    case Deliver(id) =>
      StepsFaithful(s.servers[id], map[]);
      ServerStepKeeps(s, id, Delivered(s.servers[id]));
  }

  lemma {:induction false} RunKeeps(steps: seq<Step>)
    requires IsRun(steps)
    ensures Inv(After(steps))
  {
    if steps != [] {
      RunKeeps(steps[..|steps|-1]);
      StepKeeps(After(steps[..|steps|-1]), steps[|steps|-1]);
    } else {
      assert View(START) == map[];
    }
  }

  // ------------------------------------------------------------------ safety

  /** In every run, every server has sent or queued exactly its initial empty list followed by
      its updates, in order; a server nobody watches yet still has them queued. */
  lemma NothingLost(steps: seq<Step>, id: nat)
    requires IsRun(steps) && id < |After(steps).servers|
    ensures var r := After(steps).servers[id];
            if r.watching then r.sent + r.queue == [map[]] + r.pushed else r.sent == [] && r.queue == r.pushed
  {
    RunKeeps(steps);
    assert Faithful(After(steps).servers[id]);
  }

  /** In every run, the manager's next call finds the server it needs, and that server has not
      been stopped: no nil dereference, no send on a closed channel, no second close. */
  lemma CallsAreSafe(steps: seq<Step>)
    requires IsRun(steps) && After(steps).pending != []
    ensures var s := After(steps);
            var k := s.pending[0].devType;
            if s.pending[0].Create? then k !in s.live else Known(s, k) && !s.servers[s.live[k]].closed
  {
    RunKeeps(steps);
    var s := After(steps);
    assert Executable(View(s), s.pending[0]);
  }

  /** Nothing is on its way: no message, no pending call, every live server is watched and has
      an empty queue. */
  predicate Quiescent(s: System) {
    && s.notifier.Idle? && s.pending == []
    && forall k | k in s.live :: Known(s, k) && s.servers[s.live[k]].watching && s.servers[s.live[k]].queue == []
  }

  /** The tree of the last scan among the steps; the notifier starts from the empty tree. */
  function LastScan(steps: seq<Step>): Tree {
    if steps == [] then map[]
    else if steps[|steps|-1].Scan? then steps[|steps|-1].found
    else LastScan(steps[..|steps|-1])
  }

  /** Every scan is taken in. */
  lemma {:induction false} ScannedIsLastScan(steps: seq<Step>)
    requires IsRun(steps)
    ensures After(steps).scanned == LastScan(steps)
  {
    if steps == [] {
    } else {
      ScannedIsLastScan(steps[..|steps|-1]);
    }
  }

  /** A scan does what `Notify` does: the notifier has the tree of the scan before, and the message
      for the new one is on its way, if there is one. */
  lemma ScanNotifies(steps: seq<Step>, found: Tree)
    requires IsRun(steps + [Scan(found)])
    ensures IsRun(steps)
    ensures var before, after := After(steps), After(steps + [Scan(found)]);
            && before.tree == LastScan(steps)
            && after == before.(scanned := found, notifier := InFlight(Message(LastScan(steps), found), found))
  {
    assert (steps + [Scan(found)])[..|steps|] == steps;
    RunKeeps(steps);
    ScannedIsLastScan(steps);
  }

  /** The notifier once `Notify` has returned this message to be sent. */
  function InFlight(msg: Option<UpdateInfo>, tree: Tree): NotifierState {
    match msg
    case None => Idle
    case Some(u) => Sending(u, tree)
  }

  /** What kubelet sees of a device type: nothing, or the list its server sent last. */
  function Seen(s: System): Tree
    requires Quiescent(s) && forall k | k in s.live :: s.servers[s.live[k]].sent != []
  {
    map k | k in s.live :: var sent := s.servers[s.live[k]].sent; sent[|sent|-1]
  }

  /** Whenever nothing is on its way, kubelet sees exactly the tree scanned last. */
  lemma KubeletSeesLastScan(steps: seq<Step>)
    requires IsRun(steps) && Quiescent(After(steps))
    ensures forall k | k in After(steps).live :: After(steps).servers[After(steps).live[k]].sent != []
    ensures Seen(After(steps)) == LastScan(steps)
  {
    RunKeeps(steps);
    ScannedIsLastScan(steps);
    var s := After(steps);
    assert View(s) == s.tree == s.scanned;
    assert s.live.Keys == View(s).Keys;
    forall k | k in s.live
      ensures var sent := s.servers[s.live[k]].sent; sent != [] && sent[|sent|-1] == s.scanned[k]
    {
      assert OpenServer(s, k);
      DrainedIsCurrent(s.servers[s.live[k]]);
      assert View(s)[k] == s.scanned[k];
    }
  }

  /** Between updates the server map has exactly the device types of the last handled tree. */
  lemma ServerMapFollowsTree(steps: seq<Step>)
    requires IsRun(steps) && After(steps).pending == []
    ensures After(steps).live.Keys == After(steps).tree.Keys
  {
    RunKeeps(steps);
    assert View(After(steps)) == After(steps).tree;
    assert View(After(steps)).Keys == After(steps).live.Keys;
  }

  // ---------------------------------------------------------------- progress

  function CallWeight(c: Call): nat { match c case Create(_) => 3 case Push(_, _) => 2 case Stop(_) => 1 }

  function CallsWeight(calls: seq<Call>): nat {
    if calls == [] then 0 else CallWeight(calls[0]) + CallsWeight(calls[1..])
  }

  function UpdateWeight(u: UpdateInfo): nat { 5 * |u.added| + 2 * |u.updated| + |u.removed| }

  function ServerWeight(r: Server): nat {
    |r.queue| + if r.closed then 0 else (if r.serving then 0 else 1) + (if r.watching then 0 else 1)
  }

  function ServersWeight(servers: seq<Server>): nat {
    if servers == [] then 0 else ServersWeight(servers[..|servers|-1]) + ServerWeight(servers[|servers|-1])
  }

  /** How many steps are left if nothing new is scanned. */
  function Weight(s: System): nat {
    (if s.notifier.Sending? then 1 + UpdateWeight(s.notifier.msg) else 0) +
    CallsWeight(s.pending) + ServersWeight(s.servers)
  }

  lemma {:induction false} CallsWeightConcat(a: seq<Call>, b: seq<Call>)
    ensures CallsWeight(a + b) == CallsWeight(a) + CallsWeight(b)
  {
    if a == [] {
      assert a + b == b;
    } else {
      assert (a + b)[1..] == a[1..] + b;
      CallsWeightConcat(a[1..], b);
    }
  }

  lemma {:induction false} PartWeights(t: Tree, order: seq<string>)
    requires forall k | k in order :: k in t
    ensures CallsWeight(Creations(t, order)) == 5 * |order|
    ensures CallsWeight(Pushes(t, order)) == 2 * |order|
    ensures CallsWeight(Stops(order)) == |order|
  {
    if order == [] {
    } else {
      var front, k := order[..|order|-1], order[|order|-1];
      PartWeights(t, front);
      assert [Create(k), Push(k, t[k])][1..] == [Push(k, t[k])];
      CallsWeightConcat(Creations(t, front), [Create(k), Push(k, t[k])]);
      CallsWeightConcat(Pushes(t, front), [Push(k, t[k])]);
      CallsWeightConcat(Stops(front), [Stop(k)]);
    }
  }

  lemma PlanWeight(calls: seq<Call>, u: UpdateInfo)
    requires IsPlan(calls, u)
    ensures CallsWeight(calls) == UpdateWeight(u)
  {
    var a, m, r :| Enumerates(a, u.added.Keys) && Enumerates(m, u.updated.Keys) &&
                   Enumerates(r, u.removed.Keys) && calls == Plan(u, a, m, r);
    PlanWeightOf(u, a, m, r);
  }

  lemma PlanWeightOf(u: UpdateInfo, a: seq<string>, m: seq<string>, r: seq<string>)
    requires Enumerates(a, u.added.Keys) && Enumerates(m, u.updated.Keys) && Enumerates(r, u.removed.Keys)
    ensures CallsWeight(Plan(u, a, m, r)) == UpdateWeight(u)
  {
    Enumerated(a, u.added);
    Enumerated(m, u.updated);
    Enumerated(r, u.removed);
    PartWeights(u.added, a);
    PartWeights(u.updated, m);
    PartWeights(u.removed, r);
    CallsWeightThree(Creations(u.added, a), Pushes(u.updated, m), Stops(r));
  }

  lemma Enumerated(order: seq<string>, t: Tree)
    requires Enumerates(order, t.Keys)
    ensures |order| == |t| && forall k | k in order :: k in t
  {
    assert forall k | k in order :: k in Elements(order);
    DistinctCardinality(order);
  }

  lemma CallsWeightThree(a: seq<Call>, b: seq<Call>, c: seq<Call>)
    ensures CallsWeight(a + b + c) == CallsWeight(a) + CallsWeight(b) + CallsWeight(c)
  {
    CallsWeightConcat(a, b);
    CallsWeightConcat(a + b, c);
  }

  lemma {:induction false} ServersWeightUpdate(servers: seq<Server>, id: nat, r: Server)
    requires id < |servers|
    ensures ServersWeight(servers[id := r]) == ServersWeight(servers) - ServerWeight(servers[id]) + ServerWeight(r)
  {
    var n := |servers| - 1;
    if id == n {
      assert servers[id := r][..n] == servers[..n];
    } else {
      ServersWeightUpdate(servers[..n], id, r);
      assert servers[id := r][..n] == servers[..n][id := r];
    }
  }

  lemma ServersWeightAppend(servers: seq<Server>, r: Server)
    ensures ServersWeight(servers + [r]) == ServersWeight(servers) + ServerWeight(r)
  {
    assert (servers + [r])[..|servers|] == servers;
  }

  /** Every step except a scan uses up weight. */
  lemma StepDecreases(s: System, step: Step)
    requires Inv(s) && Enabled(s, step) && !step.Scan?
    ensures Weight(Apply(s, step)) < Weight(s)
  {
    match step
    case Receive(calls) => ReceiveDecreases(s, calls);
    case Manage => ManageDecreases(s);
    case Serve(id) => ServerChanges(s, id, Serving(s.servers[id]));
    case Watch(id) => ServerChanges(s, id, Watching(s.servers[id]));
    case Deliver(id) => ServerChanges(s, id, Delivered(s.servers[id]));
  }

  lemma ServerChanges(s: System, id: nat, r: Server)
    requires id < |s.servers|
    ensures Weight(s.(servers := s.servers[id := r])) == Weight(s) - ServerWeight(s.servers[id]) + ServerWeight(r)
  {
    ServersWeightUpdate(s.servers, id, r);
  }

  lemma ReceiveDecreases(s: System, calls: seq<Call>)
    requires Inv(s) && Enabled(s, Receive(calls))
    ensures Weight(Apply(s, Receive(calls))) < Weight(s)
  {
    PlanWeight(calls, s.notifier.msg);
  }

  lemma ManageDecreases(s: System)
    requires Inv(s) && Enabled(s, Manage)
    ensures Weight(Managed(s)) < Weight(s)
  {
    match s.pending[0]
    case Create(k) => ServersWeightAppend(s.servers, NewServer(k));
    case Push(k, d) => ServersWeightUpdate(s.servers, s.live[k], Pushed(s.servers[s.live[k]], d));
    case Stop(k) => ServersWeightUpdate(s.servers, s.live[k], Stopped(s.servers[s.live[k]]));
  }

  /** While something is on its way, some step other than a scan can be made: the pipeline
      never locks up, not even when the manager waits for a full queue. */
  lemma Progress(s: System) returns (step: Step)
    requires Inv(s) && !Quiescent(s)
    ensures Enabled(s, step) && !step.Scan?
  {
    if s.pending != [] {
      assert Executable(View(s), s.pending[0]);
      var k := s.pending[0].devType;
      if s.pending[0].Push? && !CanPush(s.servers[s.live[k]]) {
        step := Attend(s, k);
      } else {
        step := Manage;
      }
    } else if s.notifier.Sending? {
      step := Receive(SomePlan(s.notifier.msg));
    } else {
      var k :| k in s.live && !(Known(s, k) && s.servers[s.live[k]].watching && s.servers[s.live[k]].queue == []);
      assert OpenServer(s, k);
      step := Attend(s, k);
    }
  }

  /** A live server that has something to do can do it. */
  lemma Attend(s: System, k: string) returns (step: Step)
    requires Inv(s) && k in s.live && (s.servers[s.live[k]].queue != [] || !s.servers[s.live[k]].watching)
    ensures Enabled(s, step) && !step.Scan?
  {
    assert Known(s, k);
    var r := s.servers[s.live[k]];
    step := if r.watching then Deliver(s.live[k]) else if r.serving then Watch(s.live[k]) else Serve(s.live[k]);
  }

  ghost function SomePlan(u: UpdateInfo): (calls: seq<Call>)
    ensures IsPlan(calls, u)
  {
    var a, m, r := AscendingStrings(u.added.Keys), AscendingStrings(u.updated.Keys), AscendingStrings(u.removed.Keys);
    assert Elements(a) == u.added.Keys && Elements(m) == u.updated.Keys && Elements(r) == u.removed.Keys;
    Plan(u, a, m, r)
  }

  ghost predicate NoScan(steps: seq<Step>) { forall x | x in steps :: !x.Scan? }

  lemma RunPrefix(steps: seq<Step>, more: seq<Step>)
    requires IsRun(steps + more) && more != []
    ensures IsRun(steps + more[..|more|-1])
    ensures Enabled(After(steps + more[..|more|-1]), more[|more|-1])
    ensures After(steps + more) == Apply(After(steps + more[..|more|-1]), more[|more|-1])
  {
    assert (steps + more)[..|steps + more|-1] == steps + more[..|more|-1];
    LastStep(steps + more);
  }

  lemma LastStep(steps: seq<Step>)
    requires IsRun(steps) && steps != []
    ensures var front, step := steps[..|steps|-1], steps[|steps|-1];
            IsRun(front) && Enabled(After(front), step) && After(steps) == Apply(After(front), step)
  {
  }

  /** Without new scans no run goes on for ever: its length is bounded by the weight. */
  lemma {:induction false} NoEndlessRun(steps: seq<Step>, more: seq<Step>)
    requires IsRun(steps) && IsRun(steps + more) && NoScan(more)
    ensures |more| + Weight(After(steps + more)) <= Weight(After(steps))
    ensures After(steps + more).scanned == After(steps).scanned
    decreases |more|
  {
    if more == [] {
      assert steps + more == steps;
    } else {
      RunPrefix(steps, more);
      var front := more[..|more|-1];
      NoEndlessRun(steps, front);
      RunKeeps(steps + front);
      StepDecreases(After(steps + front), more[|more|-1]);
    }
  }

  lemma RunExtends(steps: seq<Step>, step: Step)
    requires IsRun(steps) && Enabled(After(steps), step) && !step.Scan?
    ensures IsRun(steps + [step]) && Weight(After(steps + [step])) < Weight(After(steps))
    ensures After(steps + [step]).scanned == After(steps).scanned
  {
    assert (steps + [step])[..|steps|] == steps;
    RunKeeps(steps);
    StepDecreases(After(steps), step);
  }

  lemma OneMore(steps: seq<Step>) returns (step: Step)
    requires IsRun(steps) && !Quiescent(After(steps))
    ensures !step.Scan? && IsRun(steps + [step]) && Weight(After(steps + [step])) < Weight(After(steps))
    ensures After(steps + [step]).scanned == After(steps).scanned
  {
    RunKeeps(steps);
    step := Progress(After(steps));
    RunExtends(steps, step);
  }

  /** Every run without further scans can be, and if it goes on will be, completed: then
      kubelet sees the tree scanned last. */
  lemma EventuallyCurrent(steps: seq<Step>) returns (more: seq<Step>)
    requires IsRun(steps)
    ensures NoScan(more) && IsRun(steps + more) && Quiescent(After(steps + more))
    ensures var s := After(steps + more);
            (forall k | k in s.live :: s.servers[s.live[k]].sent != []) && Seen(s) == LastScan(steps)
  {
    more := [];
    var all := steps;
    while !Quiescent(After(all))
      invariant all == steps + more && IsRun(all) && NoScan(more)
      invariant After(all).scanned == After(steps).scanned
      decreases Weight(After(all))
    {
      var step := OneMore(all);
      all, more := all + [step], more + [step];
    }
    ScannedIsLastScan(steps);
    ScannedIsLastScan(all);
    KubeletSeesLastScan(all);
  }
}
