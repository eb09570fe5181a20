/** Runs of the hook (cmd/fpga_crihook/main.go) seen from the pod: which requests end up with all
    their ports programmed, whatever order Go chooses for the map of regions. */
module HookRuns {
  import opened Common
  import opened CriHook
  import opened PatchMeaning
  import opened Programming
  import opened Sorting

  /** The first port of the pair's interface has the pair's AFU. */
  predicate HasAfu(ports: Ports, devices: seq<Device>, pair: (string, string)) {
    Holds(ports, EntryFor(devices, pair))
  }

  predicate AllHave(ports: Ports, devices: seq<Device>, pairs: seq<(string, string)>) {
    forall p | p in pairs :: HasAfu(ports, devices, p)
  }

  predicate NoneHave(ports: Ports, devices: seq<Device>, pairs: seq<(string, string)>) {
    forall p | p in pairs :: !HasAfu(ports, devices, p)
  }

  /** Pairs of one interface have one AFU. */
  predicate OneAfuEach(pairs: seq<(string, string)>) {
    forall p, q | p in pairs && q in pairs && p.0 == q.0 :: p.1 == q.1
  }

  predicate OneInterface(pairs: seq<(string, string)>) { forall p, q | p in pairs && q in pairs :: p.0 == q.0 }

  /** What makes a request safe: pairs of one interface have one AFU, and either every port has
      its AFU already, or none has and the interfaces are all different or all the same. */
  ghost predicate SafePairs(ports: Ports, devices: seq<Device>, pairs: seq<(string, string)>) {
    && OneAfuEach(pairs)
    && (AllHave(ports, devices, pairs)
        || (NoneHave(ports, devices, pairs) && (Distinct(Interfaces(pairs)) || OneInterface(pairs))))
  }

  /** Two entries have one port exactly when their pairs have one interface. */
  predicate PortsFollow(list: seq<Params>, pairs: seq<(string, string)>) {
    && |list| == |pairs|
    && forall i, j | 0 <= i < |pairs| && 0 <= j < |pairs| ::
         list[i].portDevice == list[j].portDevice <==> pairs[i].0 == pairs[j].0
  }

  lemma SafeAsRequested(ports: Ports, devices: seq<Device>, pairs: seq<(string, string)>, list: seq<Params>)
    requires DistinctNames(devices) && HavePorts(devices, pairs) && AsRequested(list, devices, pairs)
    ensures Safe(ports, list) <==> SafePairs(ports, devices, pairs)
  {
    PortsAsRequested(devices, pairs, list);
    DistinctAsRequested(pairs, list);
    OneAsRequested(pairs, list);
    AgreeAsRequested(devices, pairs, list);
    HoldAsRequested(ports, devices, pairs, list);
  }

  lemma PortsAsRequested(devices: seq<Device>, pairs: seq<(string, string)>, list: seq<Params>)
    requires DistinctNames(devices) && HavePorts(devices, pairs) && AsRequested(list, devices, pairs)
    ensures PortsFollow(list, pairs)
  {
    assert forall i | 0 <= i < |pairs| :: pairs[i] in pairs;
    forall i, j | 0 <= i < |pairs| && 0 <= j < |pairs|
      ensures list[i].portDevice == list[j].portDevice <==> pairs[i].0 == pairs[j].0
    {
      PortDeterminesRegion(devices, pairs[i].0, pairs[j].0);
    }
  }

  lemma OneAsRequested(pairs: seq<(string, string)>, list: seq<Params>)
    requires PortsFollow(list, pairs)
    ensures OnePort(list) <==> OneInterface(pairs)
  {
    assert forall i | 0 <= i < |pairs| :: pairs[i] in pairs;
  }

  lemma AgreeAsRequested(devices: seq<Device>, pairs: seq<(string, string)>, list: seq<Params>)
    requires PortsFollow(list, pairs) && AsRequested(list, devices, pairs)
    ensures Agree(list) <==> OneAfuEach(pairs)
  {
    assert forall i | 0 <= i < |pairs| :: pairs[i] in pairs && list[i].afu == pairs[i].1;
  }

  lemma HoldAsRequested(ports: Ports, devices: seq<Device>, pairs: seq<(string, string)>, list: seq<Params>)
    requires AsRequested(list, devices, pairs)
    ensures AllHold(ports, list) <==> AllHave(ports, devices, pairs)
    ensures NoneHold(ports, list) <==> NoneHave(ports, devices, pairs)
  {
    assert forall i | 0 <= i < |pairs| :: pairs[i] in pairs;
    assert forall i | 0 <= i < |pairs| :: Holds(ports, list[i]) <==> HasAfu(ports, devices, pairs[i]);
  }

  lemma DistinctAsRequested(pairs: seq<(string, string)>, list: seq<Params>)
    requires PortsFollow(list, pairs)
    ensures DistinctPorts(list) <==> Distinct(Interfaces(pairs))
  {
    var ids := Interfaces(pairs);
    assert forall i | 0 <= i < |pairs| :: ids[i] == pairs[i].0;
    if Distinct(ids) {
      forall i, j | 0 <= i < j < |list|
        ensures list[i].portDevice != list[j].portDevice
      {
        assert ids[i] != ids[j];
      }
    }
    if DistinctPorts(list) {
      forall i, j | 0 <= i < j < |ids|
        ensures ids[i] != ids[j]
      {
        assert list[i].portDevice != list[j].portDevice;
      }
    }
  }

  /** In this order of its Go map the hook succeeds and programs every port. */
  ghost predicate Successful(ports: Ports, store: Store, flash: Flash, parsed: Env, devices: seq<Device>,
                             order: seq<string>)
  {
    var list := ParamsFor(parsed, devices, order);
    Programmed(ports, store, flash, list).error.None? && AllHold(Programmed(ports, store, flash, list).ports, list)
  }

  /** It does so in every order. */
  ghost predicate Always(ports: Ports, store: Store, flash: Flash, parsed: Env, devices: seq<Device>) {
    forall order | Enumerates(order, parsed.regions.Keys) :: Successful(ports, store, flash, parsed, devices, order)
  }

  predicate PortsOpen(ports: Ports, devices: seq<Device>, pairs: seq<(string, string)>) {
    forall p | p in pairs :: EntryFor(devices, p).portDevice in ports
  }

  predicate PairsWork(store: Store, flash: Flash, devices: seq<Device>, pairs: seq<(string, string)>) {
    forall p | p in pairs :: p in store && flash(EntryFor(devices, p).portDevice, store[p]) == Ok(store[p])
  }

  /** The maps the hook reads for the pairs. */
  function Read(pairs: seq<(string, string)>): Env { Env(Numbered(Interfaces(pairs)), Numbered(Afus(pairs))) }

  lemma OpenAsRequested(ports: Ports, devices: seq<Device>, pairs: seq<(string, string)>, list: seq<Params>)
    requires AsRequested(list, devices, pairs) && PortsOpen(ports, devices, pairs)
    ensures AllOpen(ports, list)
  {
    assert forall i | 0 <= i < |pairs| :: pairs[i] in pairs;
  }

  lemma WorkAsRequested(store: Store, flash: Flash, devices: seq<Device>, pairs: seq<(string, string)>,
                        list: seq<Params>)
    requires AsRequested(list, devices, pairs) && PairsWork(store, flash, devices, pairs)
    ensures Works(store, flash, list)
  {
    forall p | p in list
      ensures (p.region, p.afu) in store
      ensures flash(p.portDevice, store[(p.region, p.afu)]) == Ok(store[(p.region, p.afu)])
    {
      var i :| 0 <= i < |list| && list[i] == p;
      assert pairs[i] in pairs && pairs[i] == (p.region, p.afu);
    }
  }

  /** Lists for two orders are permutations of each other. */
  lemma OrdersPermute(parsed: Env, devices: seq<Device>, a: seq<string>, b: seq<string>)
    requires Distinct(a) && Distinct(b) && Elements(a) == Elements(b)
    ensures multiset(ParamsFor(parsed, devices, a)) == multiset(ParamsFor(parsed, devices, b))
  {
    MapIgnoresOrder(a, b, num => ParamsOf(parsed, devices, num));
  }

  /** A safe request is programmed completely whenever the hook succeeds. */
  lemma HookProgramsAll(entries: seq<string>, pairs: seq<(string, string)>, env: seq<Containers.EnvVar>,
                        devices: seq<Device>, order: seq<string>, ports: Ports, store: Store, flash: Flash)
    requires pairs != [] && CanonicalPairs(pairs) && Carries(entries, PatchedEnv(pairs, env))
    requires Readable(entries) && Enumerates(order, Parse(entries).regions.Keys)
    requires DistinctNames(devices) && HavePorts(devices, pairs) && PortsOpen(ports, devices, pairs)
    requires Labelled(store) && SafePairs(ports, devices, pairs)
    requires Programmed(ports, store, flash, ParamsFor(Parse(entries), devices, order)).error.None?
    ensures Successful(ports, store, flash, Parse(entries), devices, order)
  {
    HookReadsPairs(entries, pairs, env);
    SafeOrderPrograms(pairs, devices, order, ports, store, flash);
  }

  lemma SafeOrderPrograms(pairs: seq<(string, string)>, devices: seq<Device>, order: seq<string>, ports: Ports,
                          store: Store, flash: Flash)
    requires pairs != [] && Enumerates(order, Read(pairs).regions.Keys)
    requires DistinctNames(devices) && HavePorts(devices, pairs) && PortsOpen(ports, devices, pairs)
    requires Labelled(store) && SafePairs(ports, devices, pairs)
    requires Programmed(ports, store, flash, ParamsFor(Read(pairs), devices, order)).error.None?
    ensures Successful(ports, store, flash, Read(pairs), devices, order)
  {
    NumberedComplete(pairs, devices);
    var numbers := Numbers(|pairs|);
    var list, l := ParamsFor(Read(pairs), devices, numbers), ParamsFor(Read(pairs), devices, order);
    SafeAsRequested(ports, devices, pairs, list);
    OpenAsRequested(ports, devices, pairs, list);
    OrdersPermute(Read(pairs), devices, order, numbers);
    SafePermutation(ports, list, l);
    SameMembers(l, list);
    assert forall i | 0 <= i < |l| :: l[i] in list;
    EveryOrderProgrammed(ports, store, flash, l, l);
  }

  /** Every arrangement of the list is the list for some order. */
  lemma {:induction false} OrderFor(parsed: Env, devices: seq<Device>, order: seq<string>, l: seq<Params>)
    returns (o: seq<string>)
    requires multiset(l) == multiset(ParamsFor(parsed, devices, order))
    ensures multiset(o) == multiset(order) && ParamsFor(parsed, devices, o) == l
    decreases |l|
  {
    var list := ParamsFor(parsed, devices, order);
    assert |l| == |multiset(l)| == |multiset(list)| == |list|;
    if l == [] {
      o := [];
    } else {
      assert l[0] in multiset(list);
      var k :| 0 <= k < |list| && list[k] == l[0];
      FewerParams(parsed, devices, order, k, l);
      var rest := OrderFor(parsed, devices, order[..k] + order[k+1..], l[1..]);
      o := [order[k]] + rest;
      WithoutOne(order, k);
      OneMore(parsed, devices, order[k], rest, l);
    }
  }

  lemma FewerParams(parsed: Env, devices: seq<Device>, order: seq<string>, k: nat, l: seq<Params>)
    requires k < |order| && l != [] && l[0] == ParamsOf(parsed, devices, order[k])
    requires multiset(l) == multiset(ParamsFor(parsed, devices, order))
    ensures multiset(l[1..]) == multiset(ParamsFor(parsed, devices, order[..k] + order[k+1..]))
  {
    var list := ParamsFor(parsed, devices, order);
    WithoutOne(list, k);
    WithoutFirst(l);
    assert ParamsFor(parsed, devices, order[..k] + order[k+1..]) == list[..k] + list[k+1..];
  }

  lemma OneMore(parsed: Env, devices: seq<Device>, num: string, rest: seq<string>, l: seq<Params>)
    requires l != [] && l[0] == ParamsOf(parsed, devices, num) && ParamsFor(parsed, devices, rest) == l[1..]
    ensures ParamsFor(parsed, devices, [num] + rest) == l
  {
    assert l == [l[0]] + l[1..];
  }

  lemma WithoutOne<T>(s: seq<T>, k: nat)
    requires k < |s|
    ensures multiset(s) == multiset(s[..k] + s[k+1..]) + multiset{s[k]}
  {
    assert s == s[..k] + [s[k]] + s[k+1..];
  }

  /** A request that is not safe is left partly unprogrammed in some order, although every step of
      the hook would succeed. */
  lemma UnsafeOrder(pairs: seq<(string, string)>, devices: seq<Device>, ports: Ports, store: Store, flash: Flash)
    returns (order: seq<string>)
    requires pairs != [] && DistinctNames(devices) && HavePorts(devices, pairs) && PortsOpen(ports, devices, pairs)
    requires Labelled(store) && !SafePairs(ports, devices, pairs)
    ensures Enumerates(order, Read(pairs).regions.Keys) && !Successful(ports, store, flash, Read(pairs), devices, order)
    ensures PairsWork(store, flash, devices, pairs) ==>
              Programmed(ports, store, flash, ParamsFor(Read(pairs), devices, order)).error.None?
  {
    NumberedComplete(pairs, devices);
    var numbers := Numbers(|pairs|);
    var list := ParamsFor(Read(pairs), devices, numbers);
    SafeAsRequested(ports, devices, pairs, list);
    OpenAsRequested(ports, devices, pairs, list);
    if PairsWork(store, flash, devices, pairs) { WorkAsRequested(store, flash, devices, pairs, list); }
    var l := SomeOrderUnprogrammed(ports, store, flash, list);
    order := ArrangedOrder(Read(pairs), devices, numbers, l);
  }

  lemma ArrangedOrder(parsed: Env, devices: seq<Device>, order: seq<string>, l: seq<Params>) returns (o: seq<string>)
    requires Enumerates(order, parsed.regions.Keys) && multiset(l) == multiset(ParamsFor(parsed, devices, order))
    ensures Enumerates(o, parsed.regions.Keys) && ParamsFor(parsed, devices, o) == l
  {
    o := OrderFor(parsed, devices, order, l);
    DistinctPermutation(order, o);
    SameMembers(order, o);
  }

  /** If all its steps work, the hook programs every port in every order of its Go map if and only
      if the request is safe. */
  lemma HookProgramsExactly(entries: seq<string>, pairs: seq<(string, string)>, env: seq<Containers.EnvVar>,
                            devices: seq<Device>, ports: Ports, store: Store, flash: Flash)
    requires pairs != [] && CanonicalPairs(pairs) && Carries(entries, PatchedEnv(pairs, env)) && Readable(entries)
    requires DistinctNames(devices) && HavePorts(devices, pairs) && PortsOpen(ports, devices, pairs)
    requires Labelled(store) && PairsWork(store, flash, devices, pairs)
    ensures Always(ports, store, flash, Parse(entries), devices) <==> SafePairs(ports, devices, pairs)
  {
    HookReadsPairs(entries, pairs, env);
    AlwaysExactly(pairs, devices, ports, store, flash);
  }

  lemma AlwaysExactly(pairs: seq<(string, string)>, devices: seq<Device>, ports: Ports, store: Store, flash: Flash)
    requires pairs != [] && DistinctNames(devices) && HavePorts(devices, pairs) && PortsOpen(ports, devices, pairs)
    requires Labelled(store) && PairsWork(store, flash, devices, pairs)
    ensures Always(ports, store, flash, Read(pairs), devices) <==> SafePairs(ports, devices, pairs)
  {
    if SafePairs(ports, devices, pairs) {
      forall order | Enumerates(order, Read(pairs).regions.Keys)
        ensures Successful(ports, store, flash, Read(pairs), devices, order)
      {
        OrderSucceeds(pairs, devices, order, ports, store, flash);
        SafeOrderPrograms(pairs, devices, order, ports, store, flash);
      }
    } else {
      var order := UnsafeOrder(pairs, devices, ports, store, flash);
    }
  }

  lemma OrderSucceeds(pairs: seq<(string, string)>, devices: seq<Device>, order: seq<string>, ports: Ports,
                      store: Store, flash: Flash)
    requires pairs != [] && Enumerates(order, Read(pairs).regions.Keys)
    requires HavePorts(devices, pairs) && PortsOpen(ports, devices, pairs) && PairsWork(store, flash, devices, pairs)
    ensures Programmed(ports, store, flash, ParamsFor(Read(pairs), devices, order)).error.None?
  {
    NumberedComplete(pairs, devices);
    var numbers := Numbers(|pairs|);
    var list, l := ParamsFor(Read(pairs), devices, numbers), ParamsFor(Read(pairs), devices, order);
    OpenAsRequested(ports, devices, pairs, list);
    WorkAsRequested(store, flash, devices, pairs, list);
    OrdersPermute(Read(pairs), devices, order, numbers);
    SameMembers(l, list);
    assert forall i | 0 <= i < |l| :: l[i] in list;
    WorksSucceeds(ports, store, flash, l);
  }

  /** Two devices of one interface and one of another, nothing programmed before: in the order in
      which they were numbered, the hook succeeds and leaves the third port unprogrammed. */
  lemma ThirdPortUnprogrammed(x: (string, string), y: (string, string), env: seq<Containers.EnvVar>, devices: seq<Device>,
                              ports: Ports, store: Store, flash: Flash)
    requires CanonicalPairs([x, x, y]) && x.0 != y.0 && DistinctNames(devices) && HavePorts(devices, [x, x, y])
    requires PortsOpen(ports, devices, [x, x, y]) && NoneHave(ports, devices, [x, x, y])
    requires Labelled(store) && PairsWork(store, flash, devices, [x, x, y])
    ensures var entries := Environment(PatchedEnv([x, x, y], env));
            && Readable(entries) && Enumerates(Numbers(3), Parse(entries).regions.Keys)
            && var outcome := Programmed(ports, store, flash, ParamsFor(Parse(entries), devices, Numbers(3)));
               outcome.error.None? && !HasAfu(outcome.ports, devices, y)
  {
    EnvironmentComplete([x, x, y], env, devices);
    ThirdPasses(x, y, devices, ports, store, flash,
                ParamsFor(Parse(Environment(PatchedEnv([x, x, y], env))), devices, Numbers(3)));
  }

  lemma ThirdPasses(x: (string, string), y: (string, string), devices: seq<Device>, ports: Ports, store: Store,
                    flash: Flash, list: seq<Params>)
    requires x.0 != y.0 && DistinctNames(devices) && HavePorts(devices, [x, x, y])
    requires PortsOpen(ports, devices, [x, x, y]) && NoneHave(ports, devices, [x, x, y])
    requires Labelled(store) && PairsWork(store, flash, devices, [x, x, y]) && AsRequested(list, devices, [x, x, y])
    ensures var outcome := Programmed(ports, store, flash, list);
            outcome.error.None? && !HasAfu(outcome.ports, devices, y)
  {
    var pairs, p, q := [x, x, y], EntryFor(devices, x), EntryFor(devices, y);
    assert list[0] == EntryFor(devices, pairs[0]) && list[1] == EntryFor(devices, pairs[1]);
    assert list[2] == EntryFor(devices, pairs[2]);
    assert list == [p, p, q];
    assert x in pairs && y in pairs;
    PortDeterminesRegion(devices, x.0, y.0);
    assert HasAfu(ports, devices, x) == HasAfu(ports, devices, y) == false;
    SecondEnds(ports, store, flash, p, q);
  }

  lemma SecondEnds(ports: Ports, store: Store, flash: Flash, p: Params, q: Params)
    requires Labelled(store) && p.portDevice in ports && !Holds(ports, p)
    requires (p.region, p.afu) in store && flash(p.portDevice, p.afu) == Ok(p.afu)
    ensures Programmed(ports, store, flash, [p, p, q]) == Outcome(None, ports[p.portDevice := p.afu])
  {
    assert [p, p, q][1..] == [p, q];
  }
}
