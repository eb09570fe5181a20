/** The name mappings of the FPGA admission webhook (pkg/fpgacontroller/patcher/patcher.go):
    what every sequence of registrations and removals keeps. */
module PatcherState {
  import opened Common
  import DevTypes

  const NAMESPACE := "fpga.intel.com"
  const AF := "af"
  const REGION := "region"
  const REGIONDEVEL := "regiondevel"

  datatype AcceleratorFunction = AcceleratorFunction(name: string, afuID: string, interfaceID: string, mode: string)

  datatype FpgaRegion = FpgaRegion(name: string, interfaceID: string)

  // ------------------------------------------------- JSON pointer escaping

  /** `strings.NewReplacer("~", "~0", "/", "~1")`, as section 3 of RFC 6901 asks. */
  function Escape(s: string): string {
    if s == [] then []
    else (if s[0] == '~' then "~0" else if s[0] == '/' then "~1" else [s[0]]) + Escape(s[1..])
  }

  /** Replaces every `~code` by `c`, from the left. */
  function ReplaceCode(s: string, code: char, c: char): string {
    if |s| < 2 then s
    else if s[0] == '~' && s[1] == code then [c] + ReplaceCode(s[2..], code, c)
    else [s[0]] + ReplaceCode(s[1..], code, c)
  }

  /** Section 4 of RFC 6901: first `~1` becomes `/`, then `~0` becomes `~`. */
  function Unescape(s: string): string { ReplaceCode(ReplaceCode(s, '1', '/'), '0', '~') }

  /** The text with only tildes escaped. */
  function EscapeTilde(s: string): string {
    if s == [] then [] else (if s[0] == '~' then "~0" else [s[0]]) + EscapeTilde(s[1..])
  }

  lemma ReplaceMatch(rest: string, code: char, c: char)
    ensures ReplaceCode(['~', code] + rest, code, c) == [c] + ReplaceCode(rest, code, c)
  {
    assert (['~', code] + rest)[2..] == rest;
  }

  lemma ReplaceOther(x: char, rest: string, code: char, c: char)
    requires x == '~' ==> rest != [] && rest[0] != code
    ensures ReplaceCode([x] + rest, code, c) == [x] + ReplaceCode(rest, code, c)
  {
    assert ([x] + rest)[1..] == rest;
  }

  lemma KeepsTilde(rest: string)
    ensures ReplaceCode("~0" + rest, '1', '/') == "~0" + ReplaceCode(rest, '1', '/')
  {
    assert ['~'] + ("0" + rest) == "~0" + rest;
    ReplaceOther('~', "0" + rest, '1', '/');
    ReplaceOther('0', rest, '1', '/');
  }

  lemma {:induction false} UnescapeSlashes(s: string)
    ensures ReplaceCode(Escape(s), '1', '/') == EscapeTilde(s)
  {
    if s == [] {
    } else {
      UnescapeSlashes(s[1..]);
      var rest := Escape(s[1..]);
      if s[0] == '~' {
        KeepsTilde(rest);
      } else if s[0] == '/' {
        ReplaceMatch(rest, '1', '/');
      } else {
        ReplaceOther(s[0], rest, '1', '/');
      }
    }
  }

  lemma {:induction false} UnescapeTildes(s: string)
    ensures ReplaceCode(EscapeTilde(s), '0', '~') == s
  {
    if s == [] {
    } else {
      UnescapeTildes(s[1..]);
      var rest := EscapeTilde(s[1..]);
      if s[0] == '~' {
        ReplaceMatch(rest, '0', '~');
      } else {
        ReplaceOther(s[0], rest, '0', '~');
      }
    }
  }

  /** Escaping loses nothing. */
  lemma UnescapeEscape(s: string)
    ensures Unescape(Escape(s)) == s
  {
    UnescapeSlashes(s);
    UnescapeTildes(s);
  }

  // ---------------------------------------------------------------- the state

  datatype State = State(
    afMap: map<string, AcceleratorFunction>,
    resourceMap: map<string, string>,
    modeMap: map<string, string>,
    identitySet: map<string, int>)

  const EMPTY := State(map[], map[], map[], map[])

  function FullName(name: string): string { NAMESPACE + "/" + name }

  function RegionMapping(interfaceID: string): string { Escape(NAMESPACE + "/region-" + interfaceID) }

  /** In `af` mode the ids must be long enough to be sliced once they decode. */
  predicate Sliceable(af: AcceleratorFunction) {
    af.mode == AF && DevTypes.HexDecode(af.interfaceID + af.afuID).Some? ==> |af.interfaceID| >= 3 && |af.afuID| >= 3
  }

  /** The actual resource an accelerator function stands for; ids that do not decode have none. */
  function AfMapping(af: AcceleratorFunction): Result<string>
    requires Sliceable(af)
  {
    if af.mode == AF then
      match DevTypes.GetAfuDevType(af.interfaceID, af.afuID)
      case Err(m) => Err(m)
      case Ok(devtype) => Ok(Escape(NAMESPACE + "/" + devtype))
    else Ok(RegionMapping(af.interfaceID))
  }

  function Count(ids: map<string, int>, id: string): int { if id in ids then ids[id] else 0 }

  function Inc(ids: map<string, int>, id: string): map<string, int> { ids[id := Count(ids, id) + 1] }

  function Dec(ids: map<string, int>, id: string): map<string, int> {
    if Count(ids, id) > 1 then ids[id := Count(ids, id) - 1] else ids - {id}
  }

  /** What the controller tells the patcher. */
  datatype Event =
    | AddAf(af: AcceleratorFunction)
    | AddRegion(region: FpgaRegion)
    | RemoveAf(name: string)
    | RemoveRegion(name: string)

  predicate Callable(e: Event) { e.AddAf? ==> Sliceable(e.af) }

  function MappingOf(s: State, name: string): string {
    if name in s.resourceMap then s.resourceMap[name] else ""
  }

  /** Files `name` under `mapping` with a mode. */
  function Register(s: State, name: string, mapping: string, mode: string): State {
    s.(resourceMap := s.resourceMap[name := mapping],
       modeMap := s.modeMap[name := mode],
       identitySet := Inc(s.identitySet, mapping))
  }

  function Unregister(s: State, name: string): State {
    s.(resourceMap := s.resourceMap - {name},
       modeMap := s.modeMap - {name},
       identitySet := Dec(s.identitySet, MappingOf(s, name)))
  }

  function Step(s: State, e: Event): State
    requires Callable(e)
  {
    match e
    case AddAf(af) =>
      var name := FullName(af.name);
      var s' := s.(afMap := s.afMap[name := af]);
      (match AfMapping(af)
       case Err(_) => s'
       case Ok(mapping) => Register(s', name, mapping, af.mode))
    case AddRegion(region) => Register(s, FullName(region.name), RegionMapping(region.interfaceID), REGIONDEVEL)
    case RemoveAf(n) => Unregister(s, FullName(n)).(afMap := s.afMap - {FullName(n)})
    case RemoveRegion(n) => Unregister(s, FullName(n))
  }

  function Run(events: seq<Event>): State
    requires forall e | e in events :: Callable(e)
  {
    if events == [] then EMPTY else Step(Run(events[..|events|-1]), events[|events|-1])
  }

  // ------------------------------------------------------------- the patcher

  class Patcher {
    var afMap: map<string, AcceleratorFunction>
    var resourceMap: map<string, string>
    var resourceModeMap: map<string, string>
    var identitySet: map<string, int>

    ghost function View(): State
      reads this
    {
      State(afMap, resourceMap, resourceModeMap, identitySet)
    }

    constructor ()
      ensures View() == EMPTY
    {
      afMap, resourceMap, resourceModeMap, identitySet := map[], map[], map[], map[];
    }

    method IncIdentity(id: string)
      modifies this`identitySet
      ensures identitySet == Inc(old(identitySet), id)
    {
      identitySet := identitySet[id := (if id in identitySet then identitySet[id] else 0) + 1];
    }

    method DecIdentity(id: string)
      modifies this`identitySet
      ensures identitySet == Dec(old(identitySet), id)
    {
      var counter := if id in identitySet then identitySet[id] else 0;
      if counter > 1 {
        identitySet := identitySet[id := counter - 1];
      } else {
        identitySet := identitySet - {id};
      }
    }

    method RegisterAf(af: AcceleratorFunction) returns (err: Option<string>)
      requires Sliceable(af)
      modifies this
      ensures View() == Step(old(View()), AddAf(af))
      ensures err.None? <==> AfMapping(af).Ok?
    {
      afMap := afMap[NAMESPACE + "/" + af.name := af];
      if af.mode == AF {
        var devtype := DevTypes.GetAfuDevType(af.interfaceID, af.afuID);
        if devtype.Err? { return Some(devtype.message); }
        var mapping := Escape(NAMESPACE + "/" + devtype.value);
        resourceMap := resourceMap[NAMESPACE + "/" + af.name := mapping];
        IncIdentity(mapping);
      } else {
        var mapping := Escape(NAMESPACE + "/region-" + af.interfaceID);
        resourceMap := resourceMap[NAMESPACE + "/" + af.name := mapping];
        IncIdentity(mapping);
      }
      resourceModeMap := resourceModeMap[NAMESPACE + "/" + af.name := af.mode];
      return None;
    }

    method RegisterRegion(region: FpgaRegion)
      modifies this
      ensures View() == Step(old(View()), AddRegion(region))
    {
      resourceModeMap := resourceModeMap[NAMESPACE + "/" + region.name := REGIONDEVEL];
      var mapping := Escape(NAMESPACE + "/region-" + region.interfaceID);
      resourceMap := resourceMap[NAMESPACE + "/" + region.name := mapping];
      IncIdentity(mapping);
    }

    method UnregisterAf(name: string)
      modifies this
      ensures View() == Step(old(View()), RemoveAf(name))
    {
      var nname := NAMESPACE + "/" + name;
      DecIdentity(if nname in resourceMap then resourceMap[nname] else "");
      afMap := afMap - {nname};
      resourceMap := resourceMap - {nname};
      resourceModeMap := resourceModeMap - {nname};
    }

    method UnregisterRegion(name: string)
      modifies this
      ensures View() == Step(old(View()), RemoveRegion(name))
    {
      var nname := NAMESPACE + "/" + name;
      DecIdentity(if nname in resourceMap then resourceMap[nname] else "");
      resourceMap := resourceMap - {nname};
      resourceModeMap := resourceModeMap - {nname};
    }
  }

  // ------------------------------------------------------------- invariants

  /** `mapping` is the escaped name of a resource in the FPGA namespace. */
  ghost predicate IsMapping(mapping: string) {
    exists t :: NAMESPACE + "/" <= t && mapping == Escape(t)
  }

  ghost predicate Consistent(s: State) {
    && s.resourceMap.Keys == s.modeMap.Keys
    && (forall n | n in s.modeMap && s.modeMap[n] == REGION :: n in s.afMap)
    && (forall n | n in s.resourceMap :: IsMapping(s.resourceMap[n]))
    && (forall id | id in s.identitySet :: s.identitySet[id] >= 1 && IsMapping(id))
  }

  lemma RegionMappingIs(interfaceID: string)
    ensures IsMapping(RegionMapping(interfaceID))
  {
    assert NAMESPACE + "/" <= NAMESPACE + "/region-" + interfaceID;
  }

  lemma AfMappingIs(af: AcceleratorFunction)
    requires Sliceable(af)
    ensures AfMapping(af).Ok? ==> IsMapping(AfMapping(af).value)
  {
    RegionMappingIs(af.interfaceID);
  }

  lemma StepConsistent(s: State, e: Event)
    requires Consistent(s) && Callable(e)
    ensures Consistent(Step(s, e))
  {
    match e
    case AddAf(af) => AfMappingIs(af);
    case AddRegion(r) => RegionMappingIs(r.interfaceID);
    case RemoveAf(_) =>
    case RemoveRegion(_) =>
  }

  /** In every reachable state the maps agree with each other. */
  lemma {:induction false} RunConsistent(events: seq<Event>)
    requires forall e | e in events :: Callable(e)
    ensures Consistent(Run(events))
  {
    if events == [] {
    } else {
      RunConsistent(events[..|events|-1]);
      StepConsistent(Run(events[..|events|-1]), events[|events|-1]);
    }
  }

  /** The registered names that stand for `mapping`. */
  ghost function NamesFor(s: State, mapping: string): set<string> {
    set n | n in s.resourceMap && s.resourceMap[n] == mapping
  }

  /** The event files a name that is already registered under `mapping`. */
  predicate Overwrites(s: State, e: Event, mapping: string)
    requires Callable(e)
  {
    match e
    case AddAf(af) => AfMapping(af).Ok? && FullName(af.name) in s.resourceMap && s.resourceMap[FullName(af.name)] == mapping
    case AddRegion(r) => FullName(r.name) in s.resourceMap && s.resourceMap[FullName(r.name)] == mapping
    case _ => false
  }

  /** How many times a name registered under `mapping` was registered again. */
  function Leaked(events: seq<Event>, mapping: string): nat
    requires forall e | e in events :: Callable(e)
  {
    if events == [] then 0
    else
      var before := events[..|events|-1];
      Leaked(before, mapping) + if Overwrites(Run(before), events[|events|-1], mapping) then 1 else 0
  }

  lemma RegisterNames(s: State, name: string, mapping: string, mode: string, m: string)
    ensures |NamesFor(Register(s, name, mapping, mode), m)| ==
            |NamesFor(s, m)| - (if MappingIs(s, name, m) then 1 else 0) + (if m == mapping then 1 else 0)
  {
    NamesAfterRegister(s, name, mapping, mode, m);
    assert name in NamesFor(s, m) <==> MappingIs(s, name, m);
  }

  lemma NamesAfterRegister(s: State, name: string, mapping: string, mode: string, m: string)
    ensures NamesFor(Register(s, name, mapping, mode), m) ==
            if m == mapping then NamesFor(s, m) + {name} else NamesFor(s, m) - {name}
  {
  }

  predicate MappingIs(s: State, name: string, m: string) { name in s.resourceMap && s.resourceMap[name] == m }

  lemma UnregisterNames(s: State, name: string, m: string)
    ensures |NamesFor(Unregister(s, name), m)| == |NamesFor(s, m)| - (if MappingIs(s, name, m) then 1 else 0)
  {
    assert NamesFor(Unregister(s, name), m) == NamesFor(s, m) - {name};
  }

  /** The reference count of a mapping is exactly the number of names registered for it plus
      the number of times such a name was registered again: re-registering loses a reference
      for good, nothing else does. */
  lemma {:induction false} IdentityCountExact(events: seq<Event>, m: string)
    requires forall e | e in events :: Callable(e)
    ensures Count(Run(events).identitySet, m) == |NamesFor(Run(events), m)| + Leaked(events, m)
  {
    if events == [] {
      assert NamesFor(EMPTY, m) == {};
    } else {
      var before, e := events[..|events|-1], events[|events|-1];
      IdentityCountExact(before, m);
      RunConsistent(before);
      assert e in events;
      CountStep(Run(before), e, m);
    }
  }

  lemma CountStep(s: State, e: Event, m: string)
    requires Consistent(s) && Callable(e) && Count(s.identitySet, m) >= |NamesFor(s, m)|
    ensures Count(Step(s, e).identitySet, m) - |NamesFor(Step(s, e), m)| ==
            Count(s.identitySet, m) - |NamesFor(s, m)| + if Overwrites(s, e, m) then 1 else 0
  {
    match e
    case AddAf(af) =>
      var s' := s.(afMap := s.afMap[FullName(af.name) := af]);
      assert NamesFor(s', m) == NamesFor(s, m);
      if AfMapping(af).Ok? { RegisterNames(s', FullName(af.name), AfMapping(af).value, af.mode, m); }
    case AddRegion(r) => RegisterNames(s, FullName(r.name), RegionMapping(r.interfaceID), REGIONDEVEL, m);
    case RemoveAf(n) =>
      UnregisterNames(s, FullName(n), m);
      assert NamesFor(Step(s, e), m) == NamesFor(Unregister(s, FullName(n)), m);
    case RemoveRegion(n) =>
      UnregisterNames(s, FullName(n), m);
  }

  /** An identity is accepted exactly while some name stands for it, or for good once a reference
      has leaked. */
  lemma AcceptedExactly(events: seq<Event>, m: string)
    requires forall e | e in events :: Callable(e)
    ensures m in Run(events).identitySet <==> NamesFor(Run(events), m) != {} || Leaked(events, m) > 0
  {
    IdentityCountExact(events, m);
    RunConsistent(events);
  }

  /** A region registered twice and then removed: nothing stands for its mapping any more, and
      yet the mapping stays accepted. */
  lemma RemovedButAccepted(region: FpgaRegion)
    ensures var events := [AddRegion(region), AddRegion(region), RemoveRegion(region.name)];
            var m := RegionMapping(region.interfaceID);
            NamesFor(Run(events), m) == {} && m in Run(events).identitySet
  {
    var m, name := RegionMapping(region.interfaceID), FullName(region.name);
    var e1, e2, e3 := AddRegion(region), AddRegion(region), RemoveRegion(region.name);
    RunThree(e1, e2, e3);
    var s2 := Step(Step(EMPTY, e1), e2);
    assert s2.resourceMap == map[name := m] && s2.identitySet == map[m := 2];
    var s3 := Step(s2, e3);
    assert s3.resourceMap == map[] && s3.identitySet == map[m := 1];
  }

  lemma RunOne(e: Event)
    requires Callable(e)
    ensures Run([e]) == Step(EMPTY, e)
  {
    var none: seq<Event> := [];
    assert [e][..0] == none && Run(none) == EMPTY;
  }

  lemma RunTwo(a: Event, b: Event)
    requires Callable(a) && Callable(b)
    ensures Run([a, b]) == Step(Step(EMPTY, a), b)
  {
    RunOne(a);
    assert [a, b][..1] == [a];
  }

  lemma RunThree(a: Event, b: Event, c: Event)
    requires Callable(a) && Callable(b) && Callable(c)
    ensures Run([a, b, c]) == Step(Step(Step(EMPTY, a), b), c)
  {
    RunTwo(a, b);
    assert [a, b, c][..2] == [a, b];
  }

  /** Every add is for a name that is not registered at that moment. */
  predicate FreshAdds(events: seq<Event>)
    requires forall e | e in events :: Callable(e)
  {
    events != [] ==>
      var before, e := events[..|events|-1], events[|events|-1];
      && FreshAdds(before)
      && (e.AddAf? ==> FullName(e.af.name) !in Run(before).resourceMap)
      && (e.AddRegion? ==> FullName(e.region.name) !in Run(before).resourceMap)
  }

  /** With fresh adds the count is the number of names, so an identity is accepted exactly as
      long as some name stands for it. */
  lemma FreshAddsCountExact(events: seq<Event>, m: string)
    requires (forall e | e in events :: Callable(e)) && FreshAdds(events)
    ensures Count(Run(events).identitySet, m) == |NamesFor(Run(events), m)|
    ensures m in Run(events).identitySet <==> m in Run(events).resourceMap.Values
  {
    NothingLeaks(events, m);
    IdentityCountExact(events, m);
    RunConsistent(events);
    var s := Run(events);
    if m in s.resourceMap.Values {
      var n :| n in s.resourceMap && s.resourceMap[n] == m;
      assert n in NamesFor(s, m);
    }
    if m in s.identitySet {
      assert NamesFor(s, m) != {};
    }
  }

  lemma {:induction false} NothingLeaks(events: seq<Event>, m: string)
    requires (forall e | e in events :: Callable(e)) && FreshAdds(events)
    ensures Leaked(events, m) == 0
  {
    if events == [] {
    } else {
      NothingLeaks(events[..|events|-1], m);
    }
  }

  /** In every reachable state the actual resource behind a registered name is accepted. */
  lemma MappingsAreIdentities(events: seq<Event>, name: string)
    requires forall e | e in events :: Callable(e)
    requires name in Run(events).resourceMap
    ensures Run(events).resourceMap[name] in Run(events).identitySet
  {
    var s := Run(events);
    IdentityCountExact(events, s.resourceMap[name]);
    assert name in NamesFor(s, s.resourceMap[name]);
  }
}
