/** Device trees and their differences: the notifier and the update handler of the device
    plugin manager (pkg/deviceplugin/manager.go). */
module DeviceTrees {
  import opened Common
  import opened Sorting

  datatype DeviceInfo = DeviceInfo(state: string, topology: seq<int>, nodes: seq<string>, mounts: seq<string>)

  /** Device id to device. */
  type Devices = map<string, DeviceInfo>

  /** Device type to devices. */
  type Tree = map<string, Devices>

  datatype UpdateInfo = UpdateInfo(added: Tree, updated: Tree, removed: Tree)

  function Diff(before: Tree, after: Tree): UpdateInfo {
    UpdateInfo(
      map k | k in after && k !in before :: after[k],
      map k | k in after && k in before && before[k] != after[k] :: after[k],
      map k | k in before && k !in after :: before[k])
  }

  /** The tree after carrying out an update. */
  function Carry(t: Tree, u: UpdateInfo): Tree { (t - u.removed.Keys) + u.added + u.updated }

  predicate IsEmpty(u: UpdateInfo) { u.added == map[] && u.updated == map[] && u.removed == map[] }

  /** The difference is empty exactly when nothing changed, no device type is in two of its
      parts or in one without need, and carrying it out leads from the old tree to the new one. */
  lemma DiffExact(before: Tree, after: Tree)
    ensures IsEmpty(Diff(before, after)) <==> before == after
    ensures var u := Diff(before, after);
            && u.added.Keys !! before.Keys && u.removed.Keys <= before.Keys
            && forall k | k in u.updated :: k in before && before[k] != u.updated[k]
    ensures var u := Diff(before, after); u.added.Keys !! u.updated.Keys !! u.removed.Keys
    ensures Carry(before, Diff(before, after)) == after
  {
    var u := Diff(before, after);
    if IsEmpty(u) {
      forall k
        ensures k in before <==> k in after
        ensures k in before ==> before[k] == after[k]
      {
        assert k !in u.added && k !in u.updated && k !in u.removed;
      }
    }
    var c := Carry(before, u);
    assert c.Keys == after.Keys;
  }

  /** The message `Notify` has for the manager, if there is one. */
  function Message(before: Tree, after: Tree): Option<UpdateInfo> {
    if before == after then None else Some(Diff(before, after))
  }

  class Notifier {
    var deviceTree: Tree

    constructor ()
      ensures deviceTree == map[]
    {
      deviceTree := map[];
    }

    /** Returns the message for the manager, if there is one. The trees scanners hand over are
        fresh, so emptying the old one is not seen by anybody. */
    method Notify(newDeviceTree: Tree) returns (msg: Option<UpdateInfo>)
      modifies this
      ensures deviceTree == newDeviceTree
      ensures msg == Message(old(deviceTree), newDeviceTree)
    {
      ghost var before := deviceTree;
      var added: Tree, updated: Tree := map[], map[];
      var todo := newDeviceTree.Keys;
      while todo != {}
        invariant todo <= newDeviceTree.Keys
        invariant Splitting(before, newDeviceTree, todo, added, updated, deviceTree)
        decreases todo
      {
        var devType :| devType in todo;
        SplittingStep(before, newDeviceTree, todo, added, updated, deviceTree, devType);
        todo := todo - {devType};
        if devType in deviceTree {
          if deviceTree[devType] != newDeviceTree[devType] {
            updated := updated[devType := newDeviceTree[devType]];
          }
          deviceTree := deviceTree - {devType};
        } else {
          added := added[devType := newDeviceTree[devType]];
        }
      }
      DiffExact(before, newDeviceTree);
      SplittingDone(before, newDeviceTree, added, updated, deviceTree);
      msg := if |added| > 0 || |updated| > 0 || |deviceTree| > 0
        then Some(UpdateInfo(added, updated, deviceTree)) else None;
      deviceTree := newDeviceTree;
    }
  }

  /** The three maps of `Notify` while the device types in `todo` are still to be looked at. */
  ghost predicate Splitting(before: Tree, after: Tree, todo: set<string>, added: Tree, updated: Tree, rest: Tree) {
    && added == (map k | k in after && k !in todo && k !in before :: after[k])
    && updated == (map k | k in after && k !in todo && k in before && before[k] != after[k] :: after[k])
    && rest == (map k | k in before && (k !in after || k in todo) :: before[k])
  }

  lemma SplittingStep(before: Tree, after: Tree, todo: set<string>, added: Tree, updated: Tree,
                                         rest: Tree, k: string)
    requires todo <= after.Keys && k in todo && Splitting(before, after, todo, added, updated, rest)
    ensures k in rest <==> k in before
    ensures k in rest ==> rest[k] == before[k]
    ensures k !in before ==> Splitting(before, after, todo - {k}, added[k := after[k]], updated, rest)
    ensures k in before && before[k] != after[k] ==>
              Splitting(before, after, todo - {k}, added, updated[k := after[k]], rest - {k})
    ensures k in before && before[k] == after[k] ==> Splitting(before, after, todo - {k}, added, updated, rest - {k})
  {
    if k !in before {
      StepAdded(before, after, todo, added, updated, rest, k);
    } else {
      StepKept(before, after, todo, added, updated, rest, k);
    }
  }

  lemma StepAdded(before: Tree, after: Tree, todo: set<string>, added: Tree, updated: Tree,
                                     rest: Tree, k: string)
    requires k in after && k in todo && k !in before && Splitting(before, after, todo, added, updated, rest)
    ensures Splitting(before, after, todo - {k}, added[k := after[k]], updated, rest)
  {
  }

  lemma StepKept(before: Tree, after: Tree, todo: set<string>, added: Tree, updated: Tree,
                                    rest: Tree, k: string)
    requires k in after && k in todo && k in before && Splitting(before, after, todo, added, updated, rest)
    ensures Splitting(before, after, todo - {k}, added,
                      if before[k] == after[k] then updated else updated[k := after[k]], rest - {k})
  {
  }

  lemma SplittingDone(before: Tree, after: Tree, added: Tree, updated: Tree, rest: Tree)
    requires Splitting(before, after, {}, added, updated, rest)
    ensures UpdateInfo(added, updated, rest) == Diff(before, after)
    ensures (|added| > 0 || |updated| > 0 || |rest| > 0) <==> !IsEmpty(Diff(before, after))
  {
    assert added == Diff(before, after).added;
    assert updated == Diff(before, after).updated;
    assert rest == Diff(before, after).removed;
  }

  // ---------------------------------------------------------------- plans

  /** What the manager does to servers. */
  datatype Call = Create(devType: string) | Push(devType: string, devices: Devices) | Stop(devType: string)

  function Creations(added: Tree, order: seq<string>): seq<Call>
    requires forall k | k in order :: k in added
  {
    if order == [] then []
    else
      var k := order[|order|-1];
      Creations(added, order[..|order|-1]) + [Create(k), Push(k, added[k])]
  }

  function Pushes(updated: Tree, order: seq<string>): seq<Call>
    requires forall k | k in order :: k in updated
  {
    if order == [] then []
    else
      var k := order[|order|-1];
      Pushes(updated, order[..|order|-1]) + [Push(k, updated[k])]
  }

  function Stops(order: seq<string>): seq<Call> {
    if order == [] then [] else Stops(order[..|order|-1]) + [Stop(order[|order|-1])]
  }

  ghost function Plan(u: UpdateInfo, a: seq<string>, m: seq<string>, r: seq<string>): seq<Call>
    requires Enumerates(a, u.added.Keys) && Enumerates(m, u.updated.Keys)
  {
    assert forall k | k in a :: k in Elements(a);
    assert forall k | k in m :: k in Elements(m);
    Creations(u.added, a) + Pushes(u.updated, m) + Stops(r)
  }

  /** The calls the manager makes for an update, in some order of the three Go maps. */
  ghost predicate IsPlan(calls: seq<Call>, u: UpdateInfo) {
    exists a, m, r ::
      && Enumerates(a, u.added.Keys) && Enumerates(m, u.updated.Keys) && Enumerates(r, u.removed.Keys)
      && calls == Plan(u, a, m, r)
  }

  lemma PlanOf(u: UpdateInfo, a: seq<string>, m: seq<string>, r: seq<string>)
    requires Enumerates(a, u.added.Keys) && Enumerates(m, u.updated.Keys) && Enumerates(r, u.removed.Keys)
    ensures (forall k | k in a :: k in u.added) && (forall k | k in m :: k in u.updated)
    ensures IsPlan(Creations(u.added, a) + Pushes(u.updated, m) + Stops(r), u)
  {
    assert forall k | k in a :: k in Elements(a);
    assert forall k | k in m :: k in Elements(m);
    assert Creations(u.added, a) + Pushes(u.updated, m) + Stops(r) == Plan(u, a, m, r);
  }

  lemma CreationsStep(added: Tree, a: seq<string>, i: nat)
    requires i < |a| && forall k | k in a :: k in added
    ensures Creations(added, a[..i+1]) == Creations(added, a[..i]) + [Create(a[i]), Push(a[i], added[a[i]])]
  {
    assert a[..i+1][..i] == a[..i];
  }

  /** The manager's map of servers; a server is known by the number of its creation. */
  class Manager {
    var servers: map<string, nat>
    var created: nat

    /** No two device types share a server. */
    ghost predicate Valid()
      reads this
    {
      Unshared(servers, created)
    }

    constructor ()
      ensures Valid() && servers == map[] && created == 0
    {
      servers, created := map[], 0;
    }

    /** Every updated or removed device type needs a server: a missing one would be a nil
        dereference. */
    method HandleUpdate(update: UpdateInfo) returns (calls: seq<Call>)
      requires Valid()
      requires update.updated.Keys <= servers.Keys && update.removed.Keys <= servers.Keys
      modifies this
      ensures Valid()
      ensures IsPlan(calls, update)
      ensures created == old(created) + |update.added|
      ensures Followed(servers, old(servers), old(created), update)
    {
      var a := Enumerate(update.added.Keys);
      var m := Enumerate(update.updated.Keys);
      var r := Enumerate(update.removed.Keys);
      PlanOf(update, a, m, r);
      var creations := CreateServers(update.added, a);
      ghost var grown := servers;
      var pushes := UpdateServers(update.updated, m);
      var stops := StopServers(r);
      UpdateFollowed(servers, grown, old(servers), old(created), update, a, r);
      calls := creations + pushes + stops;
    }

    method CreateServers(added: Tree, a: seq<string>) returns (calls: seq<Call>)
      requires Distinct(a) && forall k | k in a :: k in added
      modifies this
      ensures calls == Creations(added, a)
      ensures created == old(created) + |a|
      ensures Created(servers, old(servers), old(created), a)
    {
      calls := [];
      for i := 0 to |a|
        invariant calls == Creations(added, a[..i])
        invariant created == old(created) + i
        invariant Created(servers, old(servers), old(created), a[..i])
      {
        CreationsStep(added, a, i);
        CreatedStep(servers, old(servers), old(created), a, i);
        servers := servers[a[i] := created];
        created := created + 1;
        calls := calls + [Create(a[i]), Push(a[i], added[a[i]])];
      }
      assert a[..|a|] == a;
    }

    method UpdateServers(updated: Tree, m: seq<string>) returns (calls: seq<Call>)
      requires forall k | k in m :: k in updated && k in servers
      ensures calls == Pushes(updated, m)
    {
      calls := [];
      for i := 0 to |m|
        invariant calls == Pushes(updated, m[..i])
      {
        assert m[..i+1][..i] == m[..i];
        calls := calls + [Push(m[i], updated[m[i]])];
      }
      assert m[..|m|] == m;
    }

    method StopServers(r: seq<string>) returns (calls: seq<Call>)
      modifies this`servers
      ensures calls == Stops(r)
      ensures servers == old(servers) - Elements(r)
    {
      calls := [];
      for i := 0 to |r|
        invariant calls == Stops(r[..i])
        invariant servers == old(servers) - Elements(r[..i])
      {
        assert r[..i+1][..i] == r[..i];
        assert Elements(r[..i+1]) == Elements(r[..i]) + {r[i]};
        servers := servers - {r[i]};
        calls := calls + [Stop(r[i])];
      }
      assert r[..|r|] == r;
    }
  }

  /** The listed servers are new, numbered from `first`; the others are as before. */
  ghost predicate Created(now: map<string, nat>, before: map<string, nat>, first: nat, a: seq<string>) {
    && now.Keys == before.Keys + Elements(a)
    && (forall k | k in now && k !in a :: now[k] == before[k])
    && forall j | 0 <= j < |a| :: now[a[j]] == first + j
  }

  /** The servers have different numbers below `limit`. */
  ghost predicate Unshared(servers: map<string, nat>, limit: nat) {
    && (forall k | k in servers :: servers[k] < limit)
    && forall k, l | k in servers && l in servers && servers[k] == servers[l] :: k == l
  }

  lemma CreatedUnshared(now: map<string, nat>, before: map<string, nat>, first: nat, a: seq<string>)
    requires Created(now, before, first, a) && Unshared(before, first)
    ensures Unshared(now, first + |a|)
    ensures forall k | k in a :: first <= now[k] < first + |a|
  {
    forall k | k in a
      ensures first <= now[k] < first + |a| && a[now[k] - first] == k
    {
      var j :| 0 <= j < |a| && a[j] == k;
    }
  }

  /** Added device types have new servers, removed ones have none, the others keep theirs. */
  ghost predicate Followed(now: map<string, nat>, before: map<string, nat>, first: nat, u: UpdateInfo) {
    && now.Keys == (before.Keys + u.added.Keys) - u.removed.Keys
    && (forall k | k in now && k !in u.added :: now[k] == before[k])
    && forall k | k in now && k in u.added :: first <= now[k] < first + |u.added|
  }

  lemma UpdateFollowed(now: map<string, nat>, grown: map<string, nat>, before: map<string, nat>, first: nat,
                       u: UpdateInfo, a: seq<string>, r: seq<string>)
    requires Enumerates(a, u.added.Keys) && Enumerates(r, u.removed.Keys)
    requires Created(grown, before, first, a) && now == grown - Elements(r) && Unshared(before, first)
    ensures Followed(now, before, first, u) && Unshared(now, first + |u.added|) && |a| == |u.added|
  {
    DistinctCardinality(a);
    CreatedUnshared(grown, before, first, a);
    assert forall k :: k in a <==> k in Elements(a);
  }

  lemma CreatedStep(now: map<string, nat>, before: map<string, nat>, first: nat, a: seq<string>, i: nat)
    requires i < |a| && Distinct(a) && Created(now, before, first, a[..i])
    ensures Created(now[a[i] := first + i], before, first, a[..i+1])
  {
    assert Elements(a[..i+1]) == Elements(a[..i]) + {a[i]};
    assert forall k :: k in a[..i+1] <==> k in a[..i] || k == a[i];
  }

  // ------------------------------------------------- what a plan achieves

  /** The device lists the servers were last given, after one more call; a new server starts
      with no devices. */
  function Do(view: Tree, call: Call): Tree {
    match call
    case Create(k) => view[k := map[]]
    case Push(k, d) => view[k := d]
    case Stop(k) => view - {k}
  }

  function Settle(view: Tree, calls: seq<Call>): Tree
    decreases |calls|
  {
    if calls == [] then view else Settle(Do(view, calls[0]), calls[1..])
  }

  /** The call finds the server it needs, or creates one that does not exist. */
  predicate Executable(view: Tree, call: Call) { call.Create? <==> call.devType !in view }

  predicate AllExecutable(view: Tree, calls: seq<Call>)
    decreases |calls|
  {
    calls != [] ==> Executable(view, calls[0]) && AllExecutable(Do(view, calls[0]), calls[1..])
  }

  lemma {:induction false} SettleConcat(view: Tree, a: seq<Call>, b: seq<Call>)
    ensures Settle(view, a + b) == Settle(Settle(view, a), b)
    ensures AllExecutable(view, a + b) <==> AllExecutable(view, a) && AllExecutable(Settle(view, a), b)
    decreases |a|
  {
    if a == [] {
      assert a + b == b;
    } else {
      assert (a + b)[1..] == a[1..] + b;
      SettleConcat(Do(view, a[0]), a[1..], b);
    }
  }

  /** `view` with the listed entries of `t` put in. */
  function With(view: Tree, t: Tree, order: seq<string>): Tree
    requires forall k | k in order :: k in t
  {
    map k | k in view.Keys + (set x | x in order) :: if k in order then t[k] else view[k]
  }

  lemma WithMore(view: Tree, t: Tree, front: seq<string>, last: string)
    requires last in t && forall k | k in front :: k in t
    ensures With(view, t, front + [last]) == With(view, t, front)[last := t[last]]
    ensures With(view, t, front)[last := map[]][last := t[last]] == With(view, t, front)[last := t[last]]
  {
  }

  lemma {:induction false} CreationsSettle(view: Tree, added: Tree, order: seq<string>)
    requires Distinct(order) && forall k | k in order :: k in added && k !in view
    ensures AllExecutable(view, Creations(added, order))
    ensures Settle(view, Creations(added, order)) == With(view, added, order)
  {
    if order == [] {
    } else {
      var front, last := order[..|order|-1], order[|order|-1];
      assert order == front + [last];
      CreationsSettle(view, added, front);
      var v := With(view, added, front);
      SettleConcat(view, Creations(added, front), [Create(last), Push(last, added[last])]);
      SettleTwo(v, Create(last), Push(last, added[last]));
      WithMore(view, added, front, last);
    }
  }

  lemma SettleTwo(view: Tree, a: Call, b: Call)
    ensures Settle(view, [a, b]) == Do(Do(view, a), b)
    ensures AllExecutable(view, [a, b]) <==> Executable(view, a) && Executable(Do(view, a), b)
  {
    assert [a, b][1..] == [b];
    SettleOne(Do(view, a), b);
  }

  lemma SettleOne(view: Tree, a: Call)
    ensures Settle(view, [a]) == Do(view, a)
    ensures AllExecutable(view, [a]) <==> Executable(view, a)
  {
    assert [a][1..] == [];
  }

  lemma {:induction false} PushesSettle(view: Tree, updated: Tree, order: seq<string>)
    requires forall k | k in order :: k in updated && k in view
    ensures AllExecutable(view, Pushes(updated, order))
    ensures Settle(view, Pushes(updated, order)) == With(view, updated, order)
  {
    if order == [] {
    } else {
      var front, last := order[..|order|-1], order[|order|-1];
      assert order == front + [last];
      PushesSettle(view, updated, front);
      SettleConcat(view, Pushes(updated, front), [Push(last, updated[last])]);
      SettleOne(With(view, updated, front), Push(last, updated[last]));
      WithMore(view, updated, front, last);
    }
  }

  lemma WithoutMore(view: Tree, front: seq<string>, last: string)
    ensures view - Elements(front) - {last} == view - Elements(front + [last])
    ensures last in view && last !in front ==> last in view - Elements(front)
  {
    assert Elements(front + [last]) == Elements(front) + {last};
  }

  lemma {:induction false} StopsSettle(view: Tree, order: seq<string>)
    requires Distinct(order) && forall k | k in order :: k in view
    ensures AllExecutable(view, Stops(order))
    ensures Settle(view, Stops(order)) == view - Elements(order)
  {
    if order != [] {
      var front, last := order[..|order|-1], order[|order|-1];
      assert order == front + [last];
      StopsSettle(view, front);
      SettleConcat(view, Stops(front), [Stop(last)]);
      SettleOne(view - Elements(front), Stop(last));
      WithoutMore(view, front, last);
    } else {
      assert view - Elements(order) == view;
    }
  }

  /** Whatever order the Go maps are gone through, every call of the plan finds its server and
      the servers end up with the new tree. */
  lemma PlanSettles(before: Tree, after: Tree, calls: seq<Call>)
    requires IsPlan(calls, Diff(before, after))
    ensures AllExecutable(before, calls)
    ensures Settle(before, calls) == after
  {
    var u := Diff(before, after);
    var a, m, r :| Enumerates(a, u.added.Keys) && Enumerates(m, u.updated.Keys) &&
                   Enumerates(r, u.removed.Keys) && calls == Plan(u, a, m, r);
    assert forall k | k in a :: k in Elements(a);
    assert forall k | k in m :: k in Elements(m);
    assert forall k | k in r :: k in Elements(r);
    var v1 := With(before, u.added, a);
    CreationsSettle(before, u.added, a);
    var v2 := With(v1, u.updated, m);
    PushesSettle(v1, u.updated, m);
    StopsSettle(v2, r);
    SettleConcat(before, Creations(u.added, a), Pushes(u.updated, m));
    SettleConcat(before, Creations(u.added, a) + Pushes(u.updated, m), Stops(r));
    WithAll(before, after, a, m, r);
  }

  lemma WithAll(before: Tree, after: Tree, a: seq<string>, m: seq<string>, r: seq<string>)
    requires var u := Diff(before, after);
             Elements(a) == u.added.Keys && Elements(m) == u.updated.Keys && Elements(r) == u.removed.Keys
    requires var u := Diff(before, after); (forall k | k in a :: k in u.added) && (forall k | k in m :: k in u.updated)
    ensures var u := Diff(before, after);
            With(With(before, u.added, a), u.updated, m) - Elements(r) == after
  {
    var u := Diff(before, after);
    var v := With(With(before, u.added, a), u.updated, m) - Elements(r);
    forall k
      ensures k in v <==> k in after
      ensures k in v ==> v[k] == after[k]
    {
      assert k in a <==> k in Elements(a);
      assert k in m <==> k in Elements(m);
    }
  }
}
