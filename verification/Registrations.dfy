/** What the patcher knows after any history of custom resource events
    (pkg/fpgacontroller/patcher/patcher.go), read off the events themselves. */
module Registrations {
  import opened PatcherState

  predicate AllCallable(events: seq<Event>) { forall e | e in events :: Callable(e) }

  /** The event registers the name: every region, and every accelerator function but those in `af`
      mode whose ids make no device type. */
  predicate Registers(e: Event, name: string)
    requires Callable(e)
  {
    match e
    case AddAf(af) => af.name == name && (af.mode == AF ==> DevTypes.GetAfuDevType(af.interfaceID, af.afuID).Ok?)
    case AddRegion(region) => region.name == name
    case _ => false
  }

  /** The event takes the name away, whatever it was registered as. */
  predicate Unregisters(e: Event, name: string) {
    match e
    case RemoveAf(n) => n == name
    case RemoveRegion(n) => n == name
    case _ => false
  }

  /** Event `i` registers the name, and no later event registers it again or takes it away. */
  predicate Stands(events: seq<Event>, name: string, i: nat)
    requires AllCallable(events)
  {
    && i < |events| && Registers(events[i], name)
    && forall j | i < j < |events| :: !Registers(events[j], name) && !Unregisters(events[j], name)
  }

  /** What an event that registers a name says about it. */
  predicate Says(e: Event, mode: string, mapping: string)
    requires Callable(e)
  {
    match e
    case AddAf(af) =>
      && mode == af.mode
      && (if af.mode == AF then
            var devType := DevTypes.GetAfuDevType(af.interfaceID, af.afuID);
            devType.Ok? && mapping == Escape(NAMESPACE + "/" + devType.value)
          else mapping == Escape(NAMESPACE + "/region-" + af.interfaceID))
    case AddRegion(region) =>
      mode == REGIONDEVEL && mapping == Escape(NAMESPACE + "/region-" + region.interfaceID)
    case _ => false
  }

  /** Event `i` is about an accelerator function of the name, and no later event is. */
  predicate LastAf(events: seq<Event>, name: string, i: nat) {
    && i < |events| && events[i].AddAf? && events[i].af.name == name
    && forall j | i < j < |events| :: !ConcernsAf(events[j], name)
  }

  predicate ConcernsAf(e: Event, name: string) {
    match e
    case AddAf(af) => af.name == name
    case RemoveAf(n) => n == name
    case _ => false
  }

  lemma FullNameInjective(a: string, b: string)
    ensures FullName(a) == FullName(b) <==> a == b
  {
    var n := |NAMESPACE + "/"|;
    assert FullName(a)[n..] == a && FullName(b)[n..] == b;
  }

  /** What one event does to one name. */
  lemma StepName(s: State, e: Event, name: string)
    requires Callable(e)
    ensures var before, after, n := s, Step(s, e), FullName(name);
            && (Registers(e, name) ==>
                  n in after.resourceMap && n in after.modeMap && Says(e, after.modeMap[n], after.resourceMap[n]))
            && (Unregisters(e, name) ==> n !in after.resourceMap && n !in after.modeMap)
            && (!Registers(e, name) && !Unregisters(e, name) ==>
                  SameName(before.resourceMap, after.resourceMap, n) && SameName(before.modeMap, after.modeMap, n))
  {
    match e
    case AddAf(af) => FullNameInjective(af.name, name);
    case AddRegion(region) => FullNameInjective(region.name, name);
    case RemoveAf(m) => FullNameInjective(m, name);
    case RemoveRegion(m) => FullNameInjective(m, name);
  }

  predicate SameName<T(==)>(a: map<string, T>, b: map<string, T>, n: string) {
    (n in a <==> n in b) && (n in a ==> a[n] == b[n])
  }

  lemma StandsStep(front: seq<Event>, last: Event, name: string)
    requires AllCallable(front + [last])
    ensures AllCallable(front) && Callable(last)
    ensures forall i: nat :: Stands(front + [last], name, i) <==>
              if Registers(last, name) then i == |front| else !Unregisters(last, name) && Stands(front, name, i)
  {
    var all := front + [last];
    assert last in all && forall e | e in front :: e in all;
    assert all[|front|] == last && forall i | 0 <= i < |front| :: all[i] == front[i];
  }

  /** A name is registered exactly when some event for it stands, with the mode and the mapping this
      event says. */
  lemma {:induction false} RegisteredExactly(events: seq<Event>, name: string)
    requires AllCallable(events)
    ensures var s, n := Run(events), FullName(name);
            && (n in s.resourceMap <==> exists i: nat :: Stands(events, name, i))
            && (n in s.modeMap <==> exists i: nat :: Stands(events, name, i))
            && forall i: nat | Stands(events, name, i) :: Says(events[i], s.modeMap[n], s.resourceMap[n])
  {
    if events == [] {
    } else {
      var front, last := events[..|events|-1], events[|events|-1];
      assert events == front + [last];
      StandsStep(front, last, name);
      RegisteredExactly(front, name);
      StepName(Run(front), last, name);
      if Registers(last, name) {
        assert Stands(events, name, |front|);
      } else if !Unregisters(last, name) {
        StillStands(front, last, name);
      }
    }
  }

  lemma StillStands(front: seq<Event>, last: Event, name: string)
    requires AllCallable(front + [last]) && AllCallable(front)
    requires !Registers(last, name) && !Unregisters(last, name)
    ensures (exists i: nat :: Stands(front + [last], name, i)) <==> exists i: nat :: Stands(front, name, i)
  {
    StandsStep(front, last, name);
  }

  /** Nothing else is registered. */
  lemma {:induction false} OnlyFullNames(events: seq<Event>, n: string)
    requires AllCallable(events)
    requires n in Run(events).resourceMap || n in Run(events).modeMap || n in Run(events).afMap
    ensures exists name :: n == FullName(name)
  {
    if events != [] {
      var front, last := events[..|events|-1], events[|events|-1];
      assert last in events && forall e | e in front :: e in events;
      if n in Run(front).resourceMap || n in Run(front).modeMap || n in Run(front).afMap {
        OnlyFullNames(front, n);
      }
    }
  }

  /** The accelerator function of a name is that of the last event about one, even if it could not
      be registered. */
  lemma {:induction false} FunctionExactly(events: seq<Event>, name: string)
    requires AllCallable(events)
    ensures var s, n := Run(events), FullName(name);
            && (n in s.afMap <==> exists i: nat :: LastAf(events, name, i))
            && forall i: nat | LastAf(events, name, i) :: s.afMap[n] == events[i].af
  {
    if events == [] {
    } else {
      var front, last := events[..|events|-1], events[|events|-1];
      assert events == front + [last];
      assert last in events && forall e | e in front :: e in events;
      FunctionExactly(front, name);
      AfStep(Run(front), last, name);
      LastAfStep(front, last, name);
    }
  }

  lemma AfStep(s: State, e: Event, name: string)
    requires Callable(e)
    ensures var after, n := Step(s, e), FullName(name);
            if !ConcernsAf(e, name) then SameName(s.afMap, after.afMap, n)
            else if e.AddAf? then n in after.afMap && after.afMap[n] == e.af
            else n !in after.afMap
  {
    match e
    case AddAf(af) => FullNameInjective(af.name, name);
    case AddRegion(region) =>
    case RemoveAf(m) => FullNameInjective(m, name);
    case RemoveRegion(m) =>
  }

  lemma LastAfStep(front: seq<Event>, last: Event, name: string)
    ensures forall i: nat :: LastAf(front + [last], name, i) <==>
              if ConcernsAf(last, name) then last.AddAf? && i == |front| else LastAf(front, name, i)
    ensures (exists i: nat :: LastAf(front + [last], name, i)) <==>
              if ConcernsAf(last, name) then last.AddAf? else exists i: nat :: LastAf(front, name, i)
  {
    var all := front + [last];
    assert all[|front|] == last && forall i | 0 <= i < |front| :: all[i] == front[i];
    if ConcernsAf(last, name) && last.AddAf? { assert LastAf(all, name, |front|); }
  }

  /** A name registered by a function has this function exactly when the last function event of the
      name, which may have been refused, carries the same one. */
  lemma FunctionStands(events: seq<Event>, name: string, i: nat)
    requires AllCallable(events) && Stands(events, name, i) && events[i].AddAf?
    ensures FullName(name) in Run(events).afMap
    ensures Run(events).afMap[FullName(name)] == events[i].af <==>
            forall j: nat | LastAf(events, name, j) :: events[j].af == events[i].af
  {
    FunctionExactly(events, name);
    var j := LastAfAfter(events, name, i);
  }

  lemma {:induction false} LastAfAfter(events: seq<Event>, name: string, i: nat) returns (j: nat)
    requires i < |events| && events[i].AddAf? && events[i].af.name == name
    requires forall k | i < k < |events| :: ConcernsAf(events[k], name) ==> events[k].AddAf?
    ensures i <= j && LastAf(events, name, j)
    decreases |events| - i
  {
    if k :| i < k < |events| && ConcernsAf(events[k], name) {
      j := LastAfAfter(events, name, k);
    } else {
      j := i;
    }
  }

  /** A function whose ids make no device type is refused, and yet takes the place of the one the
      name stays registered for. */
  lemma RefusedButStored(good: AcceleratorFunction, bad: AcceleratorFunction)
    requires good.mode == REGION && bad.mode == AF && bad.name == good.name && bad != good
    requires DevTypes.HexDecode(bad.interfaceID + bad.afuID).None?
    ensures var s, n := Run([AddAf(good), AddAf(bad)]), FullName(good.name);
            && n in s.modeMap && s.modeMap[n] == REGION
            && n in s.resourceMap && s.resourceMap[n] == RegionMapping(good.interfaceID)
            && n in s.afMap && s.afMap[n] == bad
  {
    RunTwo(AddAf(good), AddAf(bad));
  }
}
