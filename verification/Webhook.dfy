/** The webhook as a whole: patching a pod (pkg/fpgacontroller/patcher/patchermanager.go),
    and patching what was patched before. */
module Webhook {
  import opened Common
  import opened Sorting
  import opened Text
  import opened Containers
  import opened PatcherState
  import opened PatchOps
  import opened PatchMeaning

  // ------------------------------------------------------------ whole pods

  type Pod = seq<Container>

  function ApplyPodOp(op: Op, pod: Pod): Option<Pod> {
    if op.container >= |pod| then None
    else
      match ApplyOp(op, pod[op.container])
      case None => None
      case Some(c) => Some(pod[op.container := c])
  }

  function ApplyPod(ops: seq<Op>, pod: Pod): Option<Pod> {
    if ops == [] then Some(pod)
    else
      match ApplyPodOp(ops[0], pod)
      case None => None
      case Some(pod') => ApplyPod(ops[1..], pod')
  }

  predicate Addresses(ops: seq<Op>, idx: nat) { forall op | op in ops :: op.container == idx }

  /** Operations that address one container change that container only. */
  lemma {:induction false} ApplyPodIsLocal(ops: seq<Op>, pod: Pod, idx: nat)
    requires idx < |pod| && Addresses(ops, idx) && ApplyOps(ops, pod[idx]).Some?
    ensures ApplyPod(ops, pod) == Some(pod[idx := ApplyOps(ops, pod[idx]).value])
  {
    if ops == [] {
      assert pod[idx := pod[idx]] == pod;
    } else {
      assert ops[0] in ops;
      var c := ApplyOp(ops[0], pod[idx]).value;
      ApplyPodIsLocal(ops[1..], pod[idx := c], idx);
      assert pod[idx := c][idx := ApplyOps(ops, pod[idx]).value] == pod[idx := ApplyOps(ops, pod[idx]).value];
    }
  }

  lemma {:induction false} ApplyPodConcat(a: seq<Op>, b: seq<Op>, pod: Pod)
    ensures ApplyPod(a + b, pod) == match ApplyPod(a, pod) case None => None case Some(pod') => ApplyPod(b, pod')
  {
    if a == [] {
      assert a + b == b;
    } else {
      assert (a + b)[1..] == a[1..] + b;
      match ApplyPodOp(a[0], pod)
      case None =>
      case Some(pod') => ApplyPodConcat(a[1..], b, pod');
    }
  }

  lemma {:induction false} RemovesAddress(idx: nat, order: seq<string>)
    ensures Addresses(Removes(idx, order), idx)
  {
    if order == [] {
    } else {
      RemovesAddress(idx, order[..|order|-1]);
    }
  }

  lemma {:induction false} AddsAddress(idx: nat, totals: map<string, Int64>, order: seq<string>)
    requires forall t | t in order :: t in totals
    ensures Addresses(Adds(idx, totals, order), idx)
  {
    if order == [] {
    } else {
      AddsAddress(idx, totals, order[..|order|-1]);
    }
  }

  /** What admission makes of one container: the patched one, or the same one when one of its
      resources is an actual resource already. */
  ghost predicate Admitted(s: State, before: Container, after: Container) {
    exists order ::
      || (Resolvable(s, before, order) && after == Patched(s, before, order))
      || (Acceptable(before, NAMESPACE) && Enumerates(order, Requested(before, NAMESPACE).Keys) &&
          Scan(s, order) == Noops && after == before)
  }

  /** Limits and requests disagree, or the loop can run into a name that is neither registered
      nor an actual resource, into an unknown mode or into a second mode. */
  ghost predicate Refused(s: State, c: Container) {
    || !Acceptable(c, NAMESPACE)
    || exists order :: Enumerates(order, Requested(c, NAMESPACE).Keys) && Scan(s, order) == Fail
  }

  lemma OpsAdmit(s: State, idx: nat, c: Container, order: seq<string>, addOrder: seq<string>)
    requires Consistent(s) && Acceptable(c, NAMESPACE)
    requires Enumerates(order, Requested(c, NAMESPACE).Keys)
    requires Uniform(s, order) ==> Enumerates(addOrder, Targets(s, order))
    requires OpsFor(s, idx, c, order, addOrder).Ok?
    ensures var ops := OpsFor(s, idx, c, order, addOrder).value;
            Addresses(ops, idx) && ApplyOps(ops, c).Some? && Admitted(s, c, ApplyOps(ops, c).value)
  {
    ScanContinues(s, order);
    if Scan(s, order) == Continue {
      PatchApplies(s, idx, c, order, addOrder);
      OpsAddress(s, idx, c, order, addOrder);
      assert Resolvable(s, c, order);
    } else {
      assert OpsFor(s, idx, c, order, addOrder).value == [];
    }
  }

  lemma OpsAddress(s: State, idx: nat, c: Container, order: seq<string>, addOrder: seq<string>)
    requires Resolvable(s, c, order) && Enumerates(addOrder, Targets(s, order)) && OpsFor(s, idx, c, order, addOrder).Ok?
    ensures Addresses(OpsFor(s, idx, c, order, addOrder).value, idx)
  {
    ScanContinues(s, order);
    RemovesAddress(idx, order);
    assert forall t | t in addOrder :: t in Elements(addOrder);
    AddsAddress(idx, Totals(s, Requested(c, NAMESPACE), order), addOrder);
  }

  /** The operations so far admit the first `n` containers and leave the others alone. */
  ghost predicate AdmittedUpTo(s: State, pod: Pod, ops: seq<Op>, n: nat) {
    n <= |pod| &&
    match ApplyPod(ops, pod)
    case None => false
    case Some(pod') =>
      && |pod'| == |pod| && pod'[n..] == pod[n..]
      && forall k | 0 <= k < n :: Admitted(s, pod[k], pod'[k])
  }

  lemma AdmitNext(s: State, pod: Pod, ops: seq<Op>, n: nat, more: seq<Op>)
    requires AdmittedUpTo(s, pod, ops, n) && n < |pod|
    requires Addresses(more, n) && ApplyOps(more, pod[n]).Some? && Admitted(s, pod[n], ApplyOps(more, pod[n]).value)
    ensures AdmittedUpTo(s, pod, ops + more, n + 1)
  {
    var pod' := ApplyPod(ops, pod).value;
    assert pod'[n] == pod'[n..][0] == pod[n];
    ApplyPodIsLocal(more, pod', n);
    ApplyPodConcat(ops, more, pod);
    assert forall k | n < k < |pod| :: pod'[k] == pod'[n..][k-n] == pod[n..][k-n];
  }

  /** `mutate`: one unresolvable container refuses the pod; otherwise the joint patch turns
      every container into its admitted form. */
  method Mutate(p: Patcher, pod: Pod) returns (r: Result<seq<Op>>)
    requires Consistent(p.View())
    ensures r.Ok? ==> AdmittedUpTo(p.View(), pod, r.value, |pod|)
    ensures r.Err? ==> exists i | 0 <= i < |pod| :: Refused(p.View(), pod[i])
  {
    var ops: seq<Op> := [];
    for i := 0 to |pod|
      invariant AdmittedUpTo(p.View(), pod, ops, i)
    {
      var patchOps, order, addOrder := GetPatchOps(p, i, pod[i]);
      if patchOps.Err? {
        assert Refused(p.View(), pod[i]);
        return patchOps;
      }
      OpsAdmit(p.View(), i, pod[i], order, addOrder);
      AdmitNext(p.View(), pod, ops, i, patchOps.value);
      ops := ops + patchOps.value;
    }
    return Ok(ops);
  }

  // ----------------------------------------------------------- idempotence

  /** Every actual resource a name stands for is accepted; `MappingsAreIdentities` shows this
      of every reachable state. */
  ghost predicate Accepting(s: State) {
    Consistent(s) && forall n | n in s.resourceMap :: s.resourceMap[n] in s.identitySet
  }

  lemma ReachableAccepting(events: seq<Event>)
    requires forall e | e in events :: Callable(e)
    ensures Accepting(Run(events))
  {
    RunConsistent(events);
    forall n | n in Run(events).resourceMap
      ensures Run(events).resourceMap[n] in Run(events).identitySet
    {
      MappingsAreIdentities(events, n);
    }
  }

  /** A patched container asks for exactly the actual resources. */
  lemma PatchedAsks(s: State, c: Container, order: seq<string>)
    requires Resolvable(s, c, order)
    ensures var c' := Patched(s, c, order);
            Acceptable(c', NAMESPACE) && Requested(c', NAMESPACE).Keys == ActualNames(ContainerTotals(s, c, order))
  {
    var totals := ContainerTotals(s, c, order);
    var c' := Patched(s, c, order);
    forall k
      ensures k in c'.limits && NAMESPACE <= k <==> k in ActualNames(totals)
      ensures k in c'.requests && NAMESPACE <= k <==> k in ActualNames(totals)
      ensures k in ActualNames(totals) ==> c'.limits[k] == c'.requests[k] && c'.limits[k].Whole?
    {
      ActualNameIs(totals, k);
    }
  }

  /** The names that are registered themselves. */
  ghost function Registered(s: State, names: set<string>): set<string> { set k | k in names && k in s.modeMap }

  ghost predicate Compatible(s: State, names: set<string>) {
    forall a, b | a in names && b in names :: Usable(s, a, b)
  }

  /** No actual resource is itself a registered name; or some are, but not all, and those that
      are share one known mode. */
  ghost predicate Stable(s: State, names: set<string>) {
    var reg := Registered(s, names);
    reg == {} || (reg != names && Compatible(s, reg))
  }

  /** A name of the list that is not registered. */
  predicate SomeUnregistered(s: State, order: seq<string>) { exists r | r in order :: r !in s.modeMap }

  /** With compatible registered names and otherwise accepted ones the loop stops at the first
      name that is not registered. */
  lemma {:induction false} ScanMixed(s: State, order: seq<string>)
    requires Compatible(s, Registered(s, Elements(order)))
    requires forall r | r in order && r !in s.modeMap :: Escape(r) in s.identitySet
    ensures Scan(s, order) == if SomeUnregistered(s, order) then Noops else Continue
  {
    if order == [] {
    } else {
      var front, last := order[..|order|-1], order[|order|-1];
      assert order == front + [last];
      assert Registered(s, Elements(front)) <= Registered(s, Elements(order));
      ScanMixed(s, front);
      assert SomeUnregistered(s, order) <==> SomeUnregistered(s, front) || last !in s.modeMap;
      if !SomeUnregistered(s, front) && last in s.modeMap {
        assert order[0] in order && last in order;
        assert order[0] in s.modeMap;
        assert Usable(s, order[0], last);
      }
    }
  }

  /** Running the webhook again on a container it has just patched changes nothing. */
  lemma Idempotent(s: State, c: Container, order: seq<string>, idx: nat, again: seq<string>,
                                      addAgain: seq<string>)
    requires Accepting(s) && Resolvable(s, c, order)
    requires Stable(s, ActualNames(ContainerTotals(s, c, order)))
    requires Enumerates(again, ActualNames(ContainerTotals(s, c, order)))
    requires Uniform(s, again) ==> Enumerates(addAgain, Targets(s, again))
    ensures var c' := Patched(s, c, order);
            && Acceptable(c', NAMESPACE) && Enumerates(again, Requested(c', NAMESPACE).Keys)
            && OpsFor(s, idx, c', again, addAgain) == Ok([])
  {
    PatchedAsks(s, c, order);
    var totals := ContainerTotals(s, c, order);
    var names := ActualNames(totals);
    forall r | r in again && r !in s.modeMap
      ensures Escape(r) in s.identitySet
    {
      assert r in Elements(again);
      ActualNameIs(totals, r);
    }
    ScanMixed(s, again);
    if again == [] {
      EmptyOps(s, idx, Patched(s, c, order), again, addAgain);
    } else {
      UnregisteredExists(s, again, names);
    }
  }

  lemma UnregisteredExists(s: State, again: seq<string>, names: set<string>)
    requires Stable(s, names) && Enumerates(again, names) && again != []
    ensures SomeUnregistered(s, again)
  {
    assert again[0] in Elements(again);
    var reg := Registered(s, names);
    assert reg <= names;
    if reg == {} {
      assert again[0] !in reg;
    } else {
      var k :| k in names && k !in reg;
      assert k in Elements(again);
    }
  }

  lemma EmptyOps(s: State, idx: nat, c: Container, order: seq<string>, addOrder: seq<string>)
    requires Consistent(s) && Acceptable(c, NAMESPACE) && order == []
    requires Enumerates(order, Requested(c, NAMESPACE).Keys) && Enumerates(addOrder, Targets(s, order))
    ensures OpsFor(s, idx, c, order, addOrder) == Ok([])
  {
    assert Targets(s, order) == {};
    DistinctCardinality(addOrder);
    var req := Requested(c, NAMESPACE);
    var ops := Removes(idx, order) + Adds(idx, Totals(s, req, order), addOrder) + EnvOps(idx, Pairs(s, req, order), c.env);
    assert OpsFor(s, idx, c, order, addOrder) == Ok(ops);
    assert ops == [];
  }

  /** The condition is exact: otherwise some iteration order makes the second run fail or
      change the container again. */
  lemma NotIdempotent(s: State, c: Container, order: seq<string>, idx: nat)
    returns (again: seq<string>, addAgain: seq<string>)
    requires Accepting(s) && Resolvable(s, c, order)
    requires !Stable(s, ActualNames(ContainerTotals(s, c, order)))
    ensures Enumerates(again, ActualNames(ContainerTotals(s, c, order)))
    ensures Uniform(s, again) ==> Enumerates(addAgain, Targets(s, again))
    ensures var c' := Patched(s, c, order);
            && Acceptable(c', NAMESPACE) && Enumerates(again, Requested(c', NAMESPACE).Keys)
            && OpsFor(s, idx, c', again, addAgain) != Ok([])
  {
    PatchedAsks(s, c, order);
    var names := ActualNames(ContainerTotals(s, c, order));
    again := Disturbing(s, names);
    addAgain := AscendingStrings(Targets(s, again));
    assert Elements(addAgain) == Targets(s, again);
    ScanContinues(s, again);
    if Scan(s, again) == Continue {
      var n := |again| - 1;
      assert Removes(idx, again) != [];
    }
  }

  /** A container that asks for `quantity` devices of one name. */
  function AskingFor(name: string, quantity: Int64): Container {
    Container(map[name := Plain(quantity)], map[name := Plain(quantity)], [])
  }

  /** Registering a region under the very name another region's devices have. */
  function Shadowing(name: string, interfaceID: string, other: string): seq<Event> {
    [AddRegion(FpgaRegion(name, interfaceID)), AddRegion(FpgaRegion("region-" + interfaceID, other))]
  }

  lemma ShadowingState(name: string, interfaceID: string, other: string)
    requires name != "region-" + interfaceID
    ensures var s, n, actual := Run(Shadowing(name, interfaceID, other)), FullName(name), FullName("region-" + interfaceID);
            && n != actual
            && s.resourceMap == map[n := Escape(actual), actual := RegionMapping(other)]
            && s.modeMap == map[n := REGIONDEVEL, actual := REGIONDEVEL]
  {
    var e := Shadowing(name, interfaceID, other);
    RunTwo(e[0], e[1]);
    var n, actual := FullName(name), FullName("region-" + interfaceID);
    assert n[|NAMESPACE + "/"|..] == name && actual[|NAMESPACE + "/"|..] == "region-" + interfaceID;
    assert actual == NAMESPACE + "/region-" + interfaceID;
  }

  /** Idempotence fails in reachable states: after these registrations a container that asks for
      the first name is patched to ask for the second, and patching it again changes it or
      fails. */
  lemma ShadowedNotIdempotent(name: string, interfaceID: string, other: string, quantity: Int64, idx: nat)
    returns (again: seq<string>, addAgain: seq<string>)
    requires name != "region-" + interfaceID
    ensures var s := Run(Shadowing(name, interfaceID, other));
            var c, order := AskingFor(FullName(name), quantity), [FullName(name)];
            && Accepting(s) && Resolvable(s, c, order)
            && var c' := Patched(s, c, order);
               && Acceptable(c', NAMESPACE) && Enumerates(again, Requested(c', NAMESPACE).Keys)
               && (Uniform(s, again) ==> Enumerates(addAgain, Targets(s, again)))
               && OpsFor(s, idx, c', again, addAgain) != Ok([])
  {
    var events := Shadowing(name, interfaceID, other);
    var s, c, order := Run(events), AskingFor(FullName(name), quantity), [FullName(name)];
    ReachableAccepting(events);
    ShadowedResolves(name, interfaceID, other, quantity);
    ShadowedUnstable(name, interfaceID, other, quantity);
    again, addAgain := NotIdempotent(s, c, order, idx);
    PatchedAsks(s, c, order);
  }

  lemma ShadowedResolves(name: string, interfaceID: string, other: string, quantity: Int64)
    requires name != "region-" + interfaceID
    ensures Resolvable(Run(Shadowing(name, interfaceID, other)), AskingFor(FullName(name), quantity), [FullName(name)])
  {
    RunConsistent(Shadowing(name, interfaceID, other));
    ShadowingState(name, interfaceID, other);
    OneNameResolves(Run(Shadowing(name, interfaceID, other)), FullName(name), quantity);
  }

  lemma OneNameResolves(s: State, n: string, quantity: Int64)
    requires Consistent(s) && NAMESPACE <= n && n in s.modeMap && KnownMode(s.modeMap[n])
    ensures Resolvable(s, AskingFor(n, quantity), [n])
  {
    assert Requested(AskingFor(n, quantity), NAMESPACE).Keys == {n};
    assert Elements([n]) == {n};
  }

  lemma ShadowedUnstable(name: string, interfaceID: string, other: string, quantity: Int64)
    requires name != "region-" + interfaceID
    ensures var s := Run(Shadowing(name, interfaceID, other));
            var c, order := AskingFor(FullName(name), quantity), [FullName(name)];
            Resolvable(s, c, order) && !Stable(s, ActualNames(ContainerTotals(s, c, order)))
  {
    ShadowedResolves(name, interfaceID, other, quantity);
    ShadowingState(name, interfaceID, other);
    OneNameUnstable(Run(Shadowing(name, interfaceID, other)), FullName(name), FullName("region-" + interfaceID), quantity);
  }

  lemma OneNameUnstable(s: State, n: string, actual: string, quantity: Int64)
    requires Resolvable(s, AskingFor(n, quantity), [n])
    requires n in s.resourceMap && s.resourceMap[n] == Escape(actual) && actual in s.modeMap
    ensures !Stable(s, ActualNames(ContainerTotals(s, AskingFor(n, quantity), [n])))
  {
    OneNameTotals(s, n, quantity);
    OneTargetUnstable(s, ContainerTotals(s, AskingFor(n, quantity), [n]), actual);
  }

  lemma OneTargetUnstable(s: State, totals: map<string, Int64>, actual: string)
    requires totals.Keys == {Escape(actual)} && actual in s.modeMap
    ensures !Stable(s, ActualNames(totals))
  {
    OneActualName(totals, actual);
    AllRegisteredUnstable(s, {actual});
  }

  lemma OneNameTotals(s: State, n: string, quantity: Int64)
    requires Resolvable(s, AskingFor(n, quantity), [n]) && n in s.resourceMap
    ensures ContainerTotals(s, AskingFor(n, quantity), [n]).Keys == {s.resourceMap[n]}
  {
    assert n in [n];
  }

  lemma OneActualName(totals: map<string, Int64>, actual: string)
    requires totals.Keys == {Escape(actual)}
    ensures ActualNames(totals) == {actual}
  {
    UnescapeEscape(actual);
  }

  lemma AllRegisteredUnstable(s: State, names: set<string>)
    requires names != {} && forall k | k in names :: k in s.modeMap
    ensures !Stable(s, names)
  {
    assert Registered(s, names) == names;
  }

  /** An order in which the loop does not stop at an actual resource. */
  lemma Disturbing(s: State, names: set<string>) returns (again: seq<string>)
    requires !Stable(s, names)
    ensures Enumerates(again, names) && again != [] && Scan(s, again) != Noops
  {
    var reg := Registered(s, names);
    if reg == names {
      again := AscendingStrings(names);
      assert Elements(again) == names;
      assert forall r | r in again :: r in Elements(again) && r in s.modeMap;
      NeverNoops(s, again);
    } else {
      var a, b :| a in reg && b in reg && !Usable(s, a, b);
      again := StartingWith(names, a, b);
      FailsAtOnce(s, a, b);
      ScanStops(s, again, if a == b then 1 else 2);
    }
  }

  lemma StartingWith(names: set<string>, a: string, b: string) returns (order: seq<string>)
    requires a in names && b in names
    ensures Enumerates(order, names)
    ensures var head := if a == b then [a] else [a, b]; |head| <= |order| && order[..|head|] == head
  {
    var rest := AscendingStrings(names - {a, b});
    assert Elements(rest) == names - {a, b};
    assert forall r | r in rest :: r in Elements(rest);
    var head := if a == b then [a] else [a, b];
    assert Elements(head) == {a, b};
    order := head + rest;
    DistinctConcat(head, rest);
  }

  lemma DistinctConcat(a: seq<string>, b: seq<string>)
    requires Distinct(a) && Distinct(b) && Elements(a) !! Elements(b)
    ensures Distinct(a + b) && Elements(a + b) == Elements(a) + Elements(b)
  {
    forall i, j | 0 <= i < j < |a + b|
      ensures (a + b)[i] != (a + b)[j]
    {
      if i < |a| <= j { assert a[i] in Elements(a) && b[j-|a|] in Elements(b); }
    }
    assert forall x :: x in a + b <==> x in a || x in b;
  }

  lemma {:induction false} NeverNoops(s: State, order: seq<string>)
    requires forall r | r in order && r !in s.modeMap :: Escape(r) !in s.identitySet
    ensures Scan(s, order) != Noops
  {
    if order == [] {
    } else {
      NeverNoops(s, order[..|order|-1]);
    }
  }

  lemma FailsAtOnce(s: State, a: string, b: string)
    requires a in s.modeMap && b in s.modeMap && !Usable(s, a, b)
    ensures Scan(s, if a == b then [a] else [a, b]) == Fail
  {
    assert [a, b][..1] == [a];
    assert [a][..0] == [];
    assert Scan(s, []) == Continue;
  }

  // ------------------------------------------- containers with mixed requests

  /** The requested names that are actual resources and not registered. */
  ghost function Accepted(s: State, names: set<string>): set<string> {
    set k | k in names && k !in s.modeMap && Escape(k) in s.identitySet
  }

  /** The requested names that are neither registered nor actual resources. */
  ghost function Unknown(s: State, names: set<string>): set<string> {
    set k | k in names && k !in s.modeMap && Escape(k) !in s.identitySet
  }

  ghost predicate Harmless(s: State, names: set<string>) {
    Unknown(s, names) == {} && Compatible(s, Registered(s, names))
  }

  /** The request has no actual resource in it, or nothing the loop could fail on. */
  ghost predicate OrderIrrelevant(s: State, names: set<string>) { Accepted(s, names) == {} || Harmless(s, names) }

  /** In these cases the verdict is the same in every order of the Go map. */
  lemma SameInEveryOrder(s: State, names: set<string>, order: seq<string>)
    requires OrderIrrelevant(s, names) && Enumerates(order, names)
    ensures Scan(s, order) ==
            if Accepted(s, names) != {} then Noops else if Harmless(s, names) then Continue else Fail
  {
    assert forall r | r in order :: r in Elements(order);
    assert forall r | r in names :: r in Elements(order);
    if Accepted(s, names) == {} {
      forall r | r in order && r !in s.modeMap
        ensures Escape(r) !in s.identitySet
      {
        assert r !in Accepted(s, names);
      }
      NeverNoops(s, order);
      ScanContinues(s, order);
      UniformExactly(s, names, order);
    } else {
      forall r | r in order && r !in s.modeMap
        ensures Escape(r) in s.identitySet
      {
        assert r !in Unknown(s, names);
      }
      ScanMixed(s, order);
      var r :| r in Accepted(s, names);
      assert r in order;
    }
  }

  lemma UniformExactly(s: State, names: set<string>, order: seq<string>)
    requires Accepted(s, names) == {} && Enumerates(order, names)
    ensures Uniform(s, order) <==> Harmless(s, names)
  {
    assert forall r | r in order :: r in Elements(order);
    if Uniform(s, order) {
      forall a | a in names
        ensures exists i | 0 <= i < |order| :: order[i] == a && Usable(s, order[0], order[i])
      {
        assert a in Elements(order);
      }
    } else {
      var i :| 0 <= i < |order| && !Usable(s, order[0], order[i]);
      assert order[0] in names && order[i] in names;
      assert order[0] !in Accepted(s, names) && order[i] !in Accepted(s, names);
      if Unknown(s, names) == {} {
        assert order[0] !in Unknown(s, names) && order[i] !in Unknown(s, names);
        assert order[0] in Registered(s, names) && order[i] in Registered(s, names);
      }
    }
  }

  /** In all others it is not: one order leaves the container alone and another fails. */
  lemma OrderMatters(s: State, names: set<string>) returns (a: seq<string>, b: seq<string>)
    requires !OrderIrrelevant(s, names)
    ensures Enumerates(a, names) && Enumerates(b, names)
    ensures Scan(s, a) == Noops && Scan(s, b) == Fail
  {
    var x :| x in Accepted(s, names);
    a := StartingWith(names, x, x);
    ScanStops(s, a, 1);
    if Unknown(s, names) != {} {
      var y :| y in Unknown(s, names);
      b := StartingWith(names, y, y);
      ScanStops(s, b, 1);
    } else {
      var y, z :| y in Registered(s, names) && z in Registered(s, names) && !Usable(s, y, z);
      b := StartingWith(names, y, z);
      FailsAtOnce(s, y, z);
      ScanStops(s, b, if y == z then 1 else 2);
    }
  }

  function AskingForBoth(a: string, b: string, quantity: Int64): Container {
    var list := map[a := Plain(quantity), b := Plain(quantity)];
    Container(list, list, [])
  }

  lemma BothAreRequested(a: string, b: string, quantity: Int64)
    requires NAMESPACE <= a && NAMESPACE <= b
    ensures Acceptable(AskingForBoth(a, b, quantity), NAMESPACE)
    ensures Requested(AskingForBoth(a, b, quantity), NAMESPACE).Keys == {a, b}
  {
  }

  /** After registering one region, its actual resource name is accepted and any third name of
      the namespace is unknown. */
  lemma ActualBesideUnknown(region: FpgaRegion, other: string)
    requires region.name != "region-" + region.interfaceID
    requires other != region.name && other != "region-" + region.interfaceID
    ensures var actual, unknown := FullName("region-" + region.interfaceID), FullName(other);
            !OrderIrrelevant(Run([AddRegion(region)]), {actual, unknown})
  {
    var actual, unknown := FullName("region-" + region.interfaceID), FullName(other);
    var s := Run([AddRegion(region)]);
    RunOne(AddRegion(region));
    assert actual == NAMESPACE + "/region-" + region.interfaceID;
    FullNamesDiffer("region-" + region.interfaceID, region.name);
    FullNamesDiffer(other, region.name);
    FullNamesDiffer(other, "region-" + region.interfaceID);
    UnescapeEscape(actual);
    UnescapeEscape(unknown);
    assert s.modeMap.Keys == {FullName(region.name)} && s.identitySet.Keys == {Escape(actual)};
    assert actual in Accepted(s, {actual, unknown}) && unknown in Unknown(s, {actual, unknown});
  }

  lemma FullNamesDiffer(a: string, b: string)
    requires a != b
    ensures FullName(a) != FullName(b)
  {
    var n := |NAMESPACE + "/"|;
    assert FullName(a)[n..] == a && FullName(b)[n..] == b;
  }

  /** So for a container that asks for both, one order of the Go map leaves it alone and another
      refuses it. */
  lemma UnknownOrderMatters(region: FpgaRegion, other: string, quantity: Int64, idx: nat)
    returns (a: seq<string>, b: seq<string>)
    requires region.name != "region-" + region.interfaceID
    requires other != region.name && other != "region-" + region.interfaceID
    ensures var s := Run([AddRegion(region)]);
            var c := AskingForBoth(FullName("region-" + region.interfaceID), FullName(other), quantity);
            && Consistent(s) && Acceptable(c, NAMESPACE)
            && Enumerates(a, Requested(c, NAMESPACE).Keys) && Enumerates(b, Requested(c, NAMESPACE).Keys)
            && !Uniform(s, a) && !Uniform(s, b)
            && OpsFor(s, idx, c, a, []) == Ok([]) && OpsFor(s, idx, c, b, []).Err?
  {
    var s, actual := Run([AddRegion(region)]), FullName("region-" + region.interfaceID);
    RunConsistent([AddRegion(region)]);
    BothAreRequested(actual, FullName(other), quantity);
    ActualBesideUnknown(region, other);
    a, b := OrderMatters(s, {actual, FullName(other)});
    ScanContinues(s, a);
    ScanContinues(s, b);
  }
}
