/** Programming the ports (`process` in cmd/fpga_crihook/main.go). */
module Programming {
  import opened Common
  import opened CriHook
  import opened Sorting

  /** The AFU each port that can be opened reports. */
  type Ports = map<string, string>

  /** The bitstreams by interface and AFU: the AFU id each file carries. */
  type Store = map<(string, string), string>

  /** What reconfiguring a port with the bitstream of an AFU gives: an error, or the AFU the port
      reports afterwards. */
  type Flash = (string, string) -> Result<string>

  datatype Outcome = Outcome(error: Option<string>, ports: Ports)

  /** The loop over the parameters; it ends early, without error, at the first port that reports
      the wanted AFU already. */
  function Programmed(ports: Ports, store: Store, flash: Flash, list: seq<Params>): Outcome {
    if list == [] then Outcome(None, ports)
    else
      var p := list[0];
      if p.portDevice !in ports then Outcome(Some("no such port"), ports)
      else if ports[p.portDevice] == p.afu then Outcome(None, ports)
      else if (p.region, p.afu) !in store then Outcome(Some("no bitstream"), ports)
      else
        var id := store[(p.region, p.afu)];
        match flash(p.portDevice, id)
        case Err(m) => Outcome(Some(m), ports)
        case Ok(reported) =>
          var ports' := ports[p.portDevice := reported];
          if reported != id then Outcome(Some("programmed another function"), ports')
          else Programmed(ports', store, flash, list[1..])
  }

  method Process(start: Ports, store: Store, flash: Flash, list: seq<Params>) returns (err: Option<string>, ports: Ports)
    ensures Outcome(err, ports) == Programmed(start, store, flash, list)
  {
    ports := start;
    for i := 0 to |list|
      invariant Programmed(start, store, flash, list) == Programmed(ports, store, flash, list[i..])
    {
      var p := list[i];
      assert list[i..][0] == p && list[i..][1..] == list[i+1..];
      if p.portDevice !in ports { return Some("no such port"), ports; }
      if ports[p.portDevice] == p.afu { return None, ports; }
      if (p.region, p.afu) !in store { return Some("no bitstream"), ports; }
      var id := store[(p.region, p.afu)];
      var r := flash(p.portDevice, id);
      if r.Err? { return Some(r.message), ports; }
      ports := ports[p.portDevice := r.value];
      if ports[p.portDevice] != id { return Some("programmed another function"), ports; }
    }
    return None, ports;
  }

  // ------------------------------------------------- what success amounts to

  /** The files carry the AFU they are stored under. */
  predicate Labelled(store: Store) { forall k | k in store :: store[k] == k.1 }

  predicate AllOpen(ports: Ports, list: seq<Params>) { forall i | 0 <= i < |list| :: list[i].portDevice in ports }

  predicate Holds(ports: Ports, p: Params) { p.portDevice in ports && ports[p.portDevice] == p.afu }

  predicate AllHold(ports: Ports, list: seq<Params>) { forall i | 0 <= i < |list| :: Holds(ports, list[i]) }

  /** Entries for one port want one AFU. */
  predicate Agree(list: seq<Params>) {
    forall i, j | 0 <= i < |list| && 0 <= j < |list| && list[i].portDevice == list[j].portDevice ::
      list[i].afu == list[j].afu
  }

  /** The port does not report the wanted AFU yet, and no earlier entry is for it. */
  predicate Fresh(ports: Ports, list: seq<Params>, i: nat)
    requires i < |list|
  {
    !Holds(ports, list[i]) && forall k | 0 <= k < i :: list[k].portDevice != list[i].portDevice
  }

  /** All fresh entries come before all others. */
  predicate FreshFirst(ports: Ports, list: seq<Params>) {
    forall i, j | 0 <= i < j < |list| && Fresh(ports, list, j) :: Fresh(ports, list, i)
  }

  /** Success means that every entry's port reports its AFU if and only if entries for one port
      agree and no fresh entry comes after one that is not. */
  lemma {:induction false} ProgrammedExactly(ports: Ports, store: Store, flash: Flash, list: seq<Params>)
    requires Labelled(store) && AllOpen(ports, list) && Programmed(ports, store, flash, list).error.None?
    ensures AllHold(Programmed(ports, store, flash, list).ports, list) <==> Agree(list) && FreshFirst(ports, list)
  {
    if list == [] {
    } else if Holds(ports, list[0]) {
      StoppedAtOnce(ports, list);
    } else {
      var p, rest := list[0], list[1..];
      var ports', final := ports[p.portDevice := p.afu], Programmed(ports, store, flash, list).ports;
      assert list == [p] + rest;
      ProgrammedExactly(ports', store, flash, rest);
      if Agree(list) {
        KeepsPort(ports', store, flash, rest, p);
        AfterFirst(ports, list);
        assert AllHold(final, list) <==> AllHold(final, rest) && Holds(final, p);
      } else {
        HoldingAgrees(final, list);
      }
    }
  }

  lemma HoldingAgrees(ports: Ports, list: seq<Params>)
    ensures AllHold(ports, list) ==> Agree(list)
  {
  }

  lemma StoppedAtOnce(ports: Ports, list: seq<Params>)
    requires list != [] && Holds(ports, list[0])
    ensures AllHold(ports, list) <==> Agree(list) && FreshFirst(ports, list)
  {
    if Agree(list) && FreshFirst(ports, list) {
      forall i | 0 <= i < |list|
        ensures Holds(ports, list[i])
      {
        NoneFresh(ports, list, i);
      }
    } else {
      HoldingAgrees(ports, list);
    }
  }

  lemma {:induction false} NoneFresh(ports: Ports, list: seq<Params>, i: nat)
    requires i < |list| && Holds(ports, list[0]) && Agree(list) && FreshFirst(ports, list)
    ensures Holds(ports, list[i])
  {
    if i == 0 {
    } else {
      assert !Fresh(ports, list, 0);
      assert !Fresh(ports, list, i);
      if !Holds(ports, list[i]) {
        var k :| 0 <= k < i && list[k].portDevice == list[i].portDevice;
        NoneFresh(ports, list, k);
      }
    }
  }

  /** Later entries leave a port alone that has what they all want. */
  lemma {:induction false} KeepsPort(ports: Ports, store: Store, flash: Flash, list: seq<Params>, p: Params)
    requires Labelled(store) && Holds(ports, p)
    requires forall i | 0 <= i < |list| && list[i].portDevice == p.portDevice :: list[i].afu == p.afu
    ensures Holds(Programmed(ports, store, flash, list).ports, p)
  {
    if list == [] {
    } else {
      var q := list[0];
      if q.portDevice in ports && !Holds(ports, q) && (q.region, q.afu) in store {
        match flash(q.portDevice, store[(q.region, q.afu)])
        case Err(_) =>
        case Ok(reported) => KeepsPort(ports[q.portDevice := reported], store, flash, list[1..], p);
      }
    }
  }

  /** Programming a fresh first entry changes nothing about which of the others are fresh. */
  lemma AfterFirst(ports: Ports, list: seq<Params>)
    requires list != [] && Agree(list) && !Holds(ports, list[0])
    ensures var ports' := ports[list[0].portDevice := list[0].afu];
            Agree(list[1..]) && (FreshFirst(ports, list) <==> FreshFirst(ports', list[1..]))
  {
    var p, rest := list[0], list[1..];
    var ports' := ports[p.portDevice := p.afu];
    assert Fresh(ports, list, 0);
    forall j | 0 <= j < |rest|
      ensures Fresh(ports', rest, j) <==> Fresh(ports, list, j + 1)
    {
      assert rest[j] == list[j+1];
      assert forall k | 0 <= k < j :: rest[k] == list[k+1];
      if rest[j].portDevice == p.portDevice { assert Holds(ports', rest[j]); }
      assert (forall k | 0 <= k < j + 1 :: list[k].portDevice != list[j+1].portDevice) <==>
             p.portDevice != rest[j].portDevice && forall k | 0 <= k < j :: rest[k].portDevice != rest[j].portDevice;
    }
    if FreshFirst(ports', rest) {
      forall i, j | 0 <= i < j < |list| && Fresh(ports, list, j)
        ensures Fresh(ports, list, i)
      {
        if i > 0 { assert Fresh(ports', rest, j - 1); assert Fresh(ports', rest, i - 1); }
      }
    }
    if FreshFirst(ports, list) {
      forall i, j | 0 <= i < j < |rest| && Fresh(ports', rest, j)
        ensures Fresh(ports', rest, i)
      {
        assert Fresh(ports, list, j + 1);
        assert Fresh(ports, list, i + 1);
      }
    }
  }

  /** In particular: with ports of their own, none of which has its AFU yet, all are programmed. */
  lemma OwnPortsAreProgrammed(ports: Ports, store: Store, flash: Flash, list: seq<Params>)
    requires Labelled(store) && AllOpen(ports, list) && Programmed(ports, store, flash, list).error.None?
    requires DistinctPorts(list) && forall i | 0 <= i < |list| :: !Holds(ports, list[i])
    ensures AllHold(Programmed(ports, store, flash, list).ports, list)
  {
    assert forall i | 0 <= i < |list| :: Fresh(ports, list, i);
    ProgrammedExactly(ports, store, flash, list);
  }

  /** Otherwise ports are passed over: after one that has its AFU already nothing is programmed. */
  lemma EarlyEnd(ports: Ports, store: Store, flash: Flash, p: Params, q: Params)
    requires Holds(ports, p) && !Holds(ports, q)
    ensures Programmed(ports, store, flash, [p, q]) == Outcome(None, ports) && !AllHold(ports, [p, q])
  {
    assert [p, q][1] == q;
  }

  // ------------------------------------------------------------ exact success

  /** The AFU of the port of entry `i` after the bitstreams of all earlier entries have been loaded. */
  function AfuBefore(ports: Ports, store: Store, list: seq<Params>, i: nat, port: string): Option<string>
    requires i <= |list|
  {
    if i == 0 then (if port in ports then Some(ports[port]) else None)
    else if list[i-1].portDevice == port && (list[i-1].region, list[i-1].afu) in store
    then Some(store[(list[i-1].region, list[i-1].afu)])
    else AfuBefore(ports, store, list, i - 1, port)
  }

  /** Entry `i` is loaded: its port can be opened and has another AFU, there is a bitstream, and the
      port reports its function afterwards. */
  predicate Loads(ports: Ports, store: Store, flash: Flash, list: seq<Params>, i: nat)
    requires i < |list|
  {
    var p := list[i];
    && p.portDevice in ports && AfuBefore(ports, store, list, i, p.portDevice) != Some(p.afu)
    && (p.region, p.afu) in store
    && flash(p.portDevice, store[(p.region, p.afu)]) == Ok(store[(p.region, p.afu)])
  }

  /** The loop comes to entry `n` without an error, and ends there: at the end of the list or at a
      port that has its AFU already. */
  predicate EndsAt(ports: Ports, store: Store, flash: Flash, list: seq<Params>, n: nat) {
    && n <= |list| && (forall i | 0 <= i < n :: Loads(ports, store, flash, list, i))
    && (n < |list| ==> list[n].portDevice in ports &&
                       AfuBefore(ports, store, list, n, list[n].portDevice) == Some(list[n].afu))
  }

  lemma {:induction false} AfuAfterFirst(ports: Ports, store: Store, list: seq<Params>, i: nat, port: string)
    requires i < |list| && list[0].portDevice in ports && (list[0].region, list[0].afu) in store
    ensures var ports' := ports[list[0].portDevice := store[(list[0].region, list[0].afu)]];
            AfuBefore(ports, store, list, i + 1, port) == AfuBefore(ports', store, list[1..], i, port)
  {
    if i == 0 {
      assert AfuBefore(ports, store, list, 0, port) == if port in ports then Some(ports[port]) else None;
    } else {
      AfuAfterFirst(ports, store, list, i - 1, port);
      assert list[1..][i-1] == list[i];
    }
  }

  lemma EndsAfterFirst(ports: Ports, store: Store, flash: Flash, list: seq<Params>, n: nat)
    requires list != [] && Loads(ports, store, flash, list, 0)
    ensures var ports' := ports[list[0].portDevice := store[(list[0].region, list[0].afu)]];
            EndsAt(ports, store, flash, list, n) <==> n > 0 && EndsAt(ports', store, flash, list[1..], n - 1)
  {
    var rest := list[1..];
    var ports' := ports[list[0].portDevice := store[(list[0].region, list[0].afu)]];
    assert ports'.Keys == ports.Keys;
    forall i | 0 <= i < |rest|
      ensures rest[i] == list[i+1]
      ensures AfuBefore(ports, store, list, i + 1, rest[i].portDevice) ==
              AfuBefore(ports', store, rest, i, rest[i].portDevice)
      ensures Loads(ports', store, flash, rest, i) <==> Loads(ports, store, flash, list, i + 1)
    {
      AfuAfterFirst(ports, store, list, i, rest[i].portDevice);
    }
    if n > 0 && EndsAt(ports', store, flash, rest, n - 1) {
      forall i | 0 <= i < n
        ensures Loads(ports, store, flash, list, i)
      {
        if i > 0 { assert Loads(ports', store, flash, rest, i - 1); }
      }
    }
  }

  /** The hook succeeds exactly when every entry up to the first port that has its AFU already can be
      loaded. */
  lemma {:induction false} SucceedsExactly(ports: Ports, store: Store, flash: Flash, list: seq<Params>)
    ensures Programmed(ports, store, flash, list).error.None? <==> exists n: nat :: EndsAt(ports, store, flash, list, n)
    decreases |list|
  {
    if list == [] {
      assert EndsAt(ports, store, flash, list, 0);
    } else if list[0].portDevice in ports && ports[list[0].portDevice] == list[0].afu {
      assert EndsAt(ports, store, flash, list, 0);
    } else if Loads(ports, store, flash, list, 0) {
      var ports' := ports[list[0].portDevice := store[(list[0].region, list[0].afu)]];
      SucceedsExactly(ports', store, flash, list[1..]);
      SucceedsLater(ports, store, flash, list);
    } else {
      assert !Loads(ports, store, flash, list, 0);
      assert AfuBefore(ports, store, list, 0, list[0].portDevice) != Some(list[0].afu);
    }
  }

  lemma SucceedsLater(ports: Ports, store: Store, flash: Flash, list: seq<Params>)
    requires list != [] && Loads(ports, store, flash, list, 0)
    ensures var ports' := ports[list[0].portDevice := store[(list[0].region, list[0].afu)]];
            (exists n: nat :: EndsAt(ports, store, flash, list, n)) <==>
            exists n: nat :: EndsAt(ports', store, flash, list[1..], n)
  {
    var ports' := ports[list[0].portDevice := store[(list[0].region, list[0].afu)]];
    if n: nat :| EndsAt(ports, store, flash, list, n) {
      EndsAfterFirst(ports, store, flash, list, n);
      assert EndsAt(ports', store, flash, list[1..], n - 1);
    }
    if n: nat :| EndsAt(ports', store, flash, list[1..], n) {
      EndsAfterFirst(ports, store, flash, list, n + 1);
      assert EndsAt(ports, store, flash, list, n + 1);
    }
  }

  // ------------------------------------------------------------ every order

  predicate NoneHold(ports: Ports, list: seq<Params>) { forall i | 0 <= i < |list| :: !Holds(ports, list[i]) }

  predicate OnePort(list: seq<Params>) {
    forall i, j | 0 <= i < |list| && 0 <= j < |list| :: list[i].portDevice == list[j].portDevice
  }

  /** The ports all have their AFUs already, or none has and the entries are for ports of their
      own or all for one. */
  predicate Safe(ports: Ports, list: seq<Params>) {
    && Agree(list)
    && (AllHold(ports, list) || (NoneHold(ports, list) && (DistinctPorts(list) || OnePort(list))))
  }

  lemma SafeIsFreshFirst(ports: Ports, list: seq<Params>)
    requires Safe(ports, list)
    ensures FreshFirst(ports, list)
  {
    if NoneHold(ports, list) && DistinctPorts(list) {
      assert forall i | 0 <= i < |list| :: Fresh(ports, list, i);
    } else if NoneHold(ports, list) {
      assert forall j | 0 < j < |list| :: list[0].portDevice == list[j].portDevice && !Fresh(ports, list, j);
    } else {
      assert forall i | 0 <= i < |list| :: !Fresh(ports, list, i);
    }
  }

  lemma SameMembers<T>(a: seq<T>, b: seq<T>)
    requires multiset(a) == multiset(b)
    ensures forall x :: x in a <==> x in b
  {
    assert forall x :: x in a <==> x in multiset(a);
    assert forall x :: x in b <==> x in multiset(b);
  }

  lemma SafePermutation(ports: Ports, a: seq<Params>, b: seq<Params>)
    requires multiset(a) == multiset(b) && Safe(ports, a)
    ensures Safe(ports, b)
  {
    SameMembers(a, b);
    assert forall i | 0 <= i < |b| :: b[i] in a;
    if DistinctPorts(a) { DistinctPortsPermutation(a, b); }
  }

  lemma DistinctPortsPermutation(a: seq<Params>, b: seq<Params>)
    requires multiset(a) == multiset(b) && DistinctPorts(a)
    ensures DistinctPorts(b)
  {
    SameMembers(a, b);
    DistinctPermutation(a, b);
    forall i, j | 0 <= i < j < |b|
      ensures b[i].portDevice != b[j].portDevice
    {
      assert b[i] in a && b[j] in a && b[i] != b[j];
    }
  }

  /** If the entries are safe, success means in every order that all ports are programmed. */
  lemma EveryOrderProgrammed(ports: Ports, store: Store, flash: Flash, list: seq<Params>, l: seq<Params>)
    requires Labelled(store) && AllOpen(ports, list) && Safe(ports, list) && multiset(l) == multiset(list)
    requires Programmed(ports, store, flash, l).error.None?
    ensures AllHold(Programmed(ports, store, flash, l).ports, list)
  {
    SafePermutation(ports, list, l);
    SafeIsFreshFirst(ports, l);
    SameMembers(l, list);
    assert forall i | 0 <= i < |l| :: l[i] in list;
    ProgrammedExactly(ports, store, flash, l);
    assert forall i | 0 <= i < |list| :: list[i] in l;
  }

  lemma {:induction false} SeqOf<T>(m: multiset<T>) returns (s: seq<T>)
    ensures multiset(s) == m
    decreases |m|
  {
    if m == multiset{} {
      s := [];
    } else {
      var x :| x in m;
      var rest := SeqOf(m - multiset{x});
      s := [x] + rest;
    }
  }

  lemma StartingWith<T>(front: seq<T>, list: seq<T>) returns (l: seq<T>)
    requires multiset(front) <= multiset(list)
    ensures multiset(l) == multiset(list) && front <= l
  {
    var rest := SeqOf(multiset(list) - multiset(front));
    l := front + rest;
  }

  lemma TwoOf<T>(list: seq<T>, i: nat, j: nat)
    requires i < j < |list|
    ensures multiset{list[i], list[j]} <= multiset(list)
  {
    assert list == list[..i] + [list[i]] + list[i+1..j] + [list[j]] + list[j+1..];
  }

  /** If they agree without being safe, in some order a fresh entry comes after another one. */
  lemma SomeOrderUnsafe(ports: Ports, list: seq<Params>) returns (l: seq<Params>)
    requires Agree(list) && !Safe(ports, list)
    ensures multiset(l) == multiset(list) && !FreshFirst(ports, l)
  {
    if NoneHold(ports, list) {
      var i, j :| 0 <= i < j < |list| && list[i].portDevice == list[j].portDevice;
      var k := OtherPort(list, i);
      l := SharingFirst(list, i, j, k);
      SameMembers(l, list);
      assert l[2] in list;
      assert l[0].portDevice == l[1].portDevice;
      assert !Fresh(ports, l, 1) && Fresh(ports, l, 2);
    } else {
      var i :| 0 <= i < |list| && Holds(ports, list[i]);
      var j :| 0 <= j < |list| && !Holds(ports, list[j]);
      assert multiset([list[i], list[j]]) <= multiset(list);
      l := StartingWith([list[i], list[j]], list);
      assert l[0] == list[i] && l[1] == list[j];
      assert !Fresh(ports, l, 0) && Fresh(ports, l, 1);
    }
  }

  lemma OtherPort(list: seq<Params>, i: nat) returns (k: nat)
    requires i < |list| && !OnePort(list)
    ensures k < |list| && list[k].portDevice != list[i].portDevice
  {
    var a, b :| 0 <= a < |list| && 0 <= b < |list| && list[a].portDevice != list[b].portDevice;
    k := if list[a].portDevice != list[i].portDevice then a else b;
  }

  lemma SharingFirst(list: seq<Params>, i: nat, j: nat, k: nat) returns (l: seq<Params>)
    requires i < j < |list| && k < |list|
    requires list[i].portDevice == list[j].portDevice != list[k].portDevice
    ensures multiset(l) == multiset(list) && |l| >= 3
    ensures l[0] == list[i] && l[1] == list[j] && l[2] == list[k]
  {
    TwoOf(list, i, j);
    assert list[k] in multiset(list);
    var front := [list[i], list[j], list[k]];
    assert multiset(front) == multiset{list[i], list[j]} + multiset{list[k]};
    assert multiset(front) <= multiset(list);
    l := StartingWith(front, list);
    assert l[0] == front[0] && l[1] == front[1] && l[2] == front[2];
  }

  /** Every bitstream is there and reconfiguring a port with it succeeds. */
  predicate Works(store: Store, flash: Flash, list: seq<Params>) {
    forall p | p in list ::
      (p.region, p.afu) in store && flash(p.portDevice, store[(p.region, p.afu)]) == Ok(store[(p.region, p.afu)])
  }

  lemma {:induction false} WorksSucceeds(ports: Ports, store: Store, flash: Flash, list: seq<Params>)
    requires AllOpen(ports, list) && Works(store, flash, list)
    ensures Programmed(ports, store, flash, list).error.None?
  {
    if list == [] {
    } else if Holds(ports, list[0]) {
    } else {
      var p, rest := list[0], list[1..];
      assert p in list;
      assert forall q | q in rest :: q in list;
      assert forall i | 0 <= i < |rest| :: rest[i] == list[i+1];
      WorksSucceeds(ports[p.portDevice := store[(p.region, p.afu)]], store, flash, rest);
    }
  }

  /** If the entries are not safe, in some order success leaves a port without its AFU. */
  lemma SomeOrderUnprogrammed(ports: Ports, store: Store, flash: Flash, list: seq<Params>) returns (l: seq<Params>)
    requires Labelled(store) && AllOpen(ports, list) && !Safe(ports, list)
    ensures multiset(l) == multiset(list)
    ensures Works(store, flash, list) ==> Programmed(ports, store, flash, l).error.None?
    ensures Programmed(ports, store, flash, l).error.None? ==> !AllHold(Programmed(ports, store, flash, l).ports, l)
  {
    if Agree(list) {
      l := SomeOrderUnsafe(ports, list);
    } else {
      l := list;
    }
    SameMembers(l, list);
    assert forall i | 0 <= i < |l| :: l[i] in list;
    if Works(store, flash, list) { WorksSucceeds(ports, store, flash, l); }
    if Programmed(ports, store, flash, l).error.None? { ProgrammedExactly(ports, store, flash, l); }
  }
}
