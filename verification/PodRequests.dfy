/** From custom resources to pods: what the webhook (pkg/fpgacontroller/patcher/patcher.go) makes of
    a container that asks for one name, after any history of custom resource events. */
module PodRequests {
  import opened Common
  import opened Sorting
  import opened Containers
  import opened PatcherState
  import opened PatchOps
  import opened PatchMeaning
  import opened Registrations
  import opened Webhook

  /** The extended resource an event that registers a name stands for. */
  function ActualResource(e: Event): string
    requires Callable(e)
  {
    match e
    case AddAf(af) =>
      if af.mode == "af" && DevTypes.GetAfuDevType(af.interfaceID, af.afuID).Ok?
      then "fpga.intel.com/" + DevTypes.GetAfuDevType(af.interfaceID, af.afuID).value
      else "fpga.intel.com/region-" + af.interfaceID
    case AddRegion(region) => "fpga.intel.com/region-" + region.interfaceID
    case _ => ""
  }

  /** The modes the custom resource allows for a function. */
  predicate AllowedMode(e: Event) { e.AddAf? ==> e.af.mode == "af" || e.af.mode == "region" }

  lemma SaysActual(e: Event, name: string, mode: string, mapping: string)
    requires Callable(e) && Registers(e, name) && AllowedMode(e) && Says(e, mode, mapping)
    ensures mapping == Escape(ActualResource(e)) && KnownMode(mode)
  {
    assert NAMESPACE + "/region-" == "fpga.intel.com/region-" && NAMESPACE + "/" == "fpga.intel.com/";
  }

  lemma StandingMapping(events: seq<Event>, name: string, i: nat)
    requires AllCallable(events) && Stands(events, name, i) && AllowedMode(events[i])
    ensures var s, n := Run(events), FullName(name);
            && n in s.resourceMap && s.resourceMap[n] == Escape(ActualResource(events[i]))
            && n in s.modeMap && KnownMode(s.modeMap[n])
  {
    RegisteredExactly(events, name);
    var s, n := Run(events), FullName(name);
    assert events[i] in events;
    SaysActual(events[i], name, s.modeMap[n], s.resourceMap[n]);
  }

  lemma InNamespace(name: string)
    ensures NAMESPACE <= FullName(name)
  {
  }

  lemma ActualInNamespace(e: Event, name: string)
    requires Callable(e) && Registers(e, name)
    ensures NAMESPACE <= ActualResource(e)
  {
    assert NAMESPACE <= "fpga.intel.com/" && NAMESPACE <= "fpga.intel.com/region-";
  }

  /** A container that asks for devices of a name gets as many of the resource the name's last event
      stands for, in limits and requests, and nothing else. */
  lemma RegisteredIsPatched(events: seq<Event>, name: string, i: nat, quantity: Int64)
    requires AllCallable(events) && Stands(events, name, i) && AllowedMode(events[i])
    ensures var s, n := Run(events), FullName(name);
            var c := AskingFor(n, quantity);
            && Resolvable(s, c, [n])
            && Patched(s, c, [n]).limits == map[ActualResource(events[i]) := Plain(quantity)]
            && Patched(s, c, [n]).requests == map[ActualResource(events[i]) := Plain(quantity)]
  {
    assert events[i] in events;
    StandingMapping(events, name, i);
    RunConsistent(events);
    InNamespace(name);
    ActualInNamespace(events[i], name);
    OneNamePatched(Run(events), FullName(name), ActualResource(events[i]), quantity);
  }

  lemma OneRequested(n: string, quantity: Int64)
    requires NAMESPACE <= n
    ensures Acceptable(AskingFor(n, quantity), NAMESPACE)
    ensures Requested(AskingFor(n, quantity), NAMESPACE) == map[n := quantity]
  {
  }

  lemma OneNameAt(s: State, n: string, actual: string, quantity: Int64, k: string)
    requires Resolvable(s, AskingFor(n, quantity), [n])
    requires n in s.resourceMap && s.resourceMap[n] == Escape(actual) && NAMESPACE <= n && NAMESPACE <= actual
    ensures var r := Patched(s, AskingFor(n, quantity), [n]);
            && (k in r.limits <==> k == actual) && (k in r.requests <==> k == actual)
            && (k == actual ==> r.limits[k] == r.requests[k] == Plain(quantity))
  {
    OneTarget(s, n, actual, quantity, k);
    PatchedResources(s, AskingFor(n, quantity), [n], k);
    OneAsked(s, n, actual, quantity);
  }

  lemma OneTarget(s: State, n: string, actual: string, quantity: Int64, k: string)
    requires NAMESPACE <= n && n in s.resourceMap && s.resourceMap[n] == Escape(actual)
    requires Acceptable(AskingFor(n, quantity), NAMESPACE)
    ensures (exists r | r in Requested(AskingFor(n, quantity), NAMESPACE) ::
               r in s.resourceMap && s.resourceMap[r] == Escape(k)) <==> k == actual
    ensures !(NAMESPACE <= k) ==> k !in AskingFor(n, quantity).limits && k !in AskingFor(n, quantity).requests
  {
    OneRequested(n, quantity);
    UnescapeEscape(k);
    UnescapeEscape(actual);
  }

  lemma OneNamePatched(s: State, n: string, actual: string, quantity: Int64)
    requires Consistent(s) && n in s.modeMap && KnownMode(s.modeMap[n])
    requires n in s.resourceMap && s.resourceMap[n] == Escape(actual) && NAMESPACE <= n && NAMESPACE <= actual
    ensures Resolvable(s, AskingFor(n, quantity), [n])
    ensures var r := Patched(s, AskingFor(n, quantity), [n]);
            r.limits == map[actual := Plain(quantity)] && r.requests == map[actual := Plain(quantity)]
  {
    OneNameResolves(s, n, quantity);
    var r := Patched(s, AskingFor(n, quantity), [n]);
    OneNameAt(s, n, actual, quantity, actual);
    forall k
      ensures k in r.limits <==> k == actual
      ensures k in r.requests <==> k == actual
    {
      OneNameAt(s, n, actual, quantity, k);
    }
    OnlyKey(r.limits, actual, Plain(quantity));
    OnlyKey(r.requests, actual, Plain(quantity));
  }

  lemma OnlyKey(m: map<string, Quantity>, key: string, value: Quantity)
    requires (forall k :: k in m <==> k == key) && m[key] == value
    ensures m == map[key := value]
  {
  }

  lemma OneAsked(s: State, n: string, actual: string, quantity: Int64)
    requires NAMESPACE <= n && n in s.resourceMap && s.resourceMap[n] == Escape(actual)
    requires Acceptable(AskingFor(n, quantity), NAMESPACE)
    ensures var c := AskingFor(n, quantity);
            Wrap64(SumOver(Requested(c, NAMESPACE).Keys, r => AskedFor(s, c, actual, r))) == quantity
  {
    var c := AskingFor(n, quantity);
    var f := r => AskedFor(s, c, actual, r);
    OneRequested(n, quantity);
    assert Requested(c, NAMESPACE).Keys == {n};
    SumRemove({n}, f, n);
    assert {n} - {n} == {};
    WrapSum(quantity, 0);
  }

  /** In region mode every device gets the ids of the name's last function event, which need not be
      the one the name is registered by. */
  lemma RegionDevices(events: seq<Event>, name: string, i: nat, j: nat, quantity: Int64)
    requires AllCallable(events) && Stands(events, name, i) && events[i].AddAf? && events[i].af.mode == "region"
    requires LastAf(events, name, j)
    ensures var s, n := Run(events), FullName(name);
            && Resolvable(s, AskingFor(n, quantity), [n])
            && ContainerPairs(s, AskingFor(n, quantity), [n]) ==
               Repeat((events[j].af.interfaceID, events[j].af.afuID), quantity)
  {
    var s, n := Run(events), FullName(name);
    assert events[i] in events;
    StandingMapping(events, name, i);
    RunConsistent(events);
    InNamespace(name);
    OneNameResolves(s, n, quantity);
    OneRequested(n, quantity);
    RegisteredExactly(events, name);
    FunctionExactly(events, name);
    OnePair(s, map[n := quantity], n);
  }

  lemma OnePair(s: State, req: map<string, Int64>, n: string)
    ensures Pairs(s, req, [n]) == PairsOf(s, req, n)
  {
    assert [n][..0] == [];
    assert Pairs(s, req, []) == [];
  }

  /** A name no event stands for, and that is no accepted resource either, is refused. */
  lemma UnregisteredIsRefused(events: seq<Event>, name: string)
    requires AllCallable(events) && (forall i: nat :: !Stands(events, name, i))
    requires Escape(FullName(name)) !in Run(events).identitySet
    ensures Scan(Run(events), [FullName(name)]) == Fail
  {
    RegisteredExactly(events, name);
    assert [FullName(name)][..0] == [];
    assert Scan(Run(events), []) == Continue;
  }
}
