/** Compiling a container's FPGA requests into JSON Patch operations
    (pkg/fpgacontroller/patcher/patcher.go) and what the operations do to the container. */
module PatchOps {
  import opened Common
  import opened Sorting
  import opened Text
  import opened Containers
  import opened PatcherState

  // ------------------------------------------------------------- JSON Patch

  datatype Field = Limits | Requests

  /** The operations the webhook emits; `token` is the last, escaped part of the JSON pointer
      and `container` its index. */
  datatype Op =
    | RemoveResource(container: nat, field: Field, token: string)
    | AddResource(container: nat, field: Field, token: string, quantity: Int64)
    | AddEnv(container: nat, env: seq<EnvVar>)

  /** Sections 4.1 and 4.2 of RFC 6902: `add` sets a member, `remove` needs it to exist. */
  function ApplyOp(op: Op, c: Container): Option<Container> {
    match op
    case RemoveResource(_, Limits, token) =>
      var name := Unescape(token);
      if name in c.limits then Some(c.(limits := c.limits - {name})) else None
    case RemoveResource(_, Requests, token) =>
      var name := Unescape(token);
      if name in c.requests then Some(c.(requests := c.requests - {name})) else None
    case AddResource(_, Limits, token, q) => Some(c.(limits := c.limits[Unescape(token) := Plain(q)]))
    case AddResource(_, Requests, token, q) => Some(c.(requests := c.requests[Unescape(token) := Plain(q)]))
    case AddEnv(_, env) => Some(c.(env := env))
  }

  function ApplyOps(ops: seq<Op>, c: Container): Option<Container> {
    if ops == [] then Some(c)
    else
      match ApplyOp(ops[0], c)
      case None => None
      case Some(c') => ApplyOps(ops[1..], c')
  }

  lemma {:induction false} ApplyConcat(a: seq<Op>, b: seq<Op>, c: Container)
    ensures ApplyOps(a + b, c) == match ApplyOps(a, c) case None => None case Some(c') => ApplyOps(b, c')
  {
    if a == [] {
      assert a + b == b;
    } else {
      assert (a + b)[1..] == a[1..] + b;
      match ApplyOp(a[0], c)
      case None =>
      case Some(c') => ApplyConcat(a[1..], b, c');
    }
  }

  // -------------------------------------------------------- reserved names

  predicate Reserved(name: string) { "FPGA_REGION" <= name || "FPGA_AFU" <= name }

  function Sanitized(env: seq<EnvVar>): seq<EnvVar> {
    if env == [] then []
    else
      var last := env[|env|-1];
      Sanitized(env[..|env|-1]) + if Reserved(last.name) then [] else [last]
  }

  /** `sanitizeContainer`: compacts the slice in place; the caller keeps the first `n`. */
  method SanitizeEnv(env: array<EnvVar>) returns (n: nat)
    modifies env
    ensures n <= env.Length
    ensures env[..n] == Sanitized(old(env[..]))
    ensures env[n..] == old(env[n..])
  {
    n := 0;
    for k := 0 to env.Length
      invariant n <= k
      invariant env[..n] == Sanitized(old(env[..])[..k])
      invariant forall j | n <= j < env.Length :: env[j] == old(env[j])
    {
      assert old(env[..])[..k+1][..k] == old(env[..])[..k];
      var v := env[k];
      if !Reserved(v.name) {
        env[n] := v;
        n := n + 1;
      }
    }
    assert old(env[..])[..env.Length] == old(env[..]);
  }

  lemma {:induction false} SanitizedContents(env: seq<EnvVar>)
    ensures forall v :: v in Sanitized(env) <==> v in env && !Reserved(v.name)
  {
    if env == [] {
    } else {
      var front, last := env[..|env|-1], env[|env|-1];
      SanitizedContents(front);
      assert env == front + [last];
    }
  }

  // ------------------------------------------------------ what is requested

  /** What one requested name contributes to an actual resource. */
  function Share(s: State, req: map<string, Int64>, target: string, r: string): int {
    if r in req && r in s.resourceMap && s.resourceMap[r] == target then req[r] else 0
  }

  /** The sum of the quantities of those names in `order` that stand for `target`. */
  function TotalFor(s: State, req: map<string, Int64>, order: seq<string>, target: string): int {
    if order == [] then 0
    else TotalFor(s, req, order[..|order|-1], target) + Share(s, req, target, order[|order|-1])
  }

  /** The actual resources behind the names in `order`. */
  function Targets(s: State, order: seq<string>): set<string> {
    set r | r in order && r in s.resourceMap :: s.resourceMap[r]
  }

  function Totals(s: State, req: map<string, Int64>, order: seq<string>): map<string, Int64> {
    map t | t in Targets(s, order) :: Wrap64(TotalFor(s, req, order, t))
  }

  /** One pair per requested device of a name in region mode. */
  function PairsOf(s: State, req: map<string, Int64>, r: string): seq<(string, string)> {
    if r in req && r in s.modeMap && s.modeMap[r] == REGION && r in s.afMap then
      Repeat((s.afMap[r].interfaceID, s.afMap[r].afuID), req[r])
    else []
  }

  /** The (interface id, AFU id) pairs the container has to get, in the order of the loop. */
  function Pairs(s: State, req: map<string, Int64>, order: seq<string>): seq<(string, string)> {
    if order == [] then []
    else Pairs(s, req, order[..|order|-1]) + PairsOf(s, req, order[|order|-1])
  }

  function Repeat<T>(x: T, n: int): (r: seq<T>)
    ensures |r| == if n < 0 then 0 else n
  {
    seq(if n < 0 then 0 else n, _ => x)
  }

  // ----------------------------------------------------------- environment

  function RegionVar(i: nat): string { "FPGA_REGION_" + Itoa(i) }

  function AfuVar(i: nat): string { "FPGA_AFU_" + Itoa(i) }

  /** `FPGA_REGION_i` and `FPGA_AFU_i` for the pairs, numbered from 1. */
  function Generated(pairs: seq<(string, string)>): map<string, string> {
    if pairs == [] then map[]
    else
      var (interfaceID, afuID) := pairs[|pairs|-1];
      Generated(pairs[..|pairs|-1])[RegionVar(|pairs|) := interfaceID][AfuVar(|pairs|) := afuID]
  }

  /** Later variables override earlier ones. */
  function Merged(vars: map<string, string>, env: seq<EnvVar>): map<string, string> {
    if env == [] then vars
    else Merged(vars, env[..|env|-1])[env[|env|-1].name := env[|env|-1].value]
  }

  /** Templates range over maps in the order of their keys. */
  ghost function EnvList(vars: map<string, string>): (r: seq<EnvVar>)
    ensures |r| == |AscendingStrings(vars.Keys)|
  {
    var keys := AscendingStrings(vars.Keys);
    seq(|keys|, i requires 0 <= i < |keys| => assert keys[i] in keys; EnvVar(keys[i], vars[keys[i]]))
  }

  ghost function EnvOps(idx: nat, pairs: seq<(string, string)>, env: seq<EnvVar>): seq<Op> {
    if pairs == [] then [] else [AddEnv(idx, EnvList(Merged(Generated(pairs), Sanitized(env))))]
  }

  // ---------------------------------------------------------- the operations

  function Removes(idx: nat, order: seq<string>): seq<Op> {
    if order == [] then []
    else
      var token := Escape(order[|order|-1]);
      Removes(idx, order[..|order|-1]) + [RemoveResource(idx, Limits, token), RemoveResource(idx, Requests, token)]
  }

  function Adds(idx: nat, totals: map<string, Int64>, order: seq<string>): seq<Op>
    requires forall t | t in order :: t in totals
  {
    if order == [] then []
    else
      var t := order[|order|-1];
      Adds(idx, totals, order[..|order|-1])
      + [AddResource(idx, Limits, t, totals[t]), AddResource(idx, Requests, t, totals[t])]
  }

  predicate KnownMode(mode: string) { mode == REGIONDEVEL || mode == AF || mode == REGION }

  /** How the loop over the requests ends: at the end, or early. */
  datatype Verdict = Continue | Noops | Fail

  function Check(s: State, first: string, r: string): Verdict {
    if r !in s.modeMap then (if Escape(r) in s.identitySet then Noops else Fail)
    else if !KnownMode(s.modeMap[r]) then Fail
    else if first in s.modeMap && s.modeMap[first] != s.modeMap[r] then Fail
    else Continue
  }

  function Scan(s: State, order: seq<string>): Verdict {
    if order == [] then Continue
    else
      var before := Scan(s, order[..|order|-1]);
      if before != Continue then before else Check(s, order[0], order[|order|-1])
  }

  /** `r` is registered in the same known mode as `first`. */
  predicate Usable(s: State, first: string, r: string) {
    first in s.modeMap && r in s.modeMap && KnownMode(s.modeMap[r]) && s.modeMap[r] == s.modeMap[first]
  }

  /** All names are registered, in one known mode. */
  predicate Uniform(s: State, order: seq<string>) {
    forall i | 0 <= i < |order| :: Usable(s, order[0], order[i])
  }

  /** The loop reaches its end exactly on uniform requests. */
  lemma {:induction false} ScanContinues(s: State, order: seq<string>)
    ensures Scan(s, order) == Continue <==> Uniform(s, order)
  {
    if order == [] {
    } else {
      var front, last := order[..|order|-1], order[|order|-1];
      ScanContinues(s, front);
      if front != [] {
        assert front[0] == order[0];
        assert Uniform(s, order) <==> Uniform(s, front) && Usable(s, order[0], last);
      }
    }
  }

  /** The operations for one container, given the orders in which Go ranges over the requested
      resources and over the sums. */
  ghost function OpsFor(s: State, idx: nat, c: Container, order: seq<string>, addOrder: seq<string>): Result<seq<Op>>
    requires Consistent(s) && Acceptable(c, NAMESPACE)
    requires Enumerates(order, Requested(c, NAMESPACE).Keys)
    requires Uniform(s, order) ==> Enumerates(addOrder, Targets(s, order))
  {
    match Scan(s, order)
    case Noops => Ok([])
    case Fail => Err("")
    case Continue =>
      ScanContinues(s, order);
      var req := Requested(c, NAMESPACE);
      assert forall t | t in addOrder :: t in Elements(addOrder);
      Ok(Removes(idx, order) + Adds(idx, Totals(s, req, order), addOrder) + EnvOps(idx, Pairs(s, req, order), c.env))
  }

  // ------------------------------------------------------------- the method

  lemma UniformStep(s: State, order: seq<string>, i: nat)
    requires i < |order| && Uniform(s, order[..i])
    ensures Scan(s, order[..i]) == Continue
    ensures Scan(s, order[..i+1]) == Check(s, order[0], order[i])
    ensures Uniform(s, order[..i+1]) <==> Check(s, order[0], order[i]) == Continue
  {
    ScanContinues(s, order[..i]);
    ScanContinues(s, order[..i+1]);
    assert order[..i+1][..i] == order[..i];
  }

  /** Once the loop stops early, the names it has not looked at make no difference. */
  lemma {:induction false} ScanStops(s: State, order: seq<string>, i: nat)
    requires i <= |order| && Scan(s, order[..i]) != Continue
    ensures Scan(s, order) == Scan(s, order[..i])
    decreases |order|
  {
    if i < |order| {
      var front := order[..|order|-1];
      assert front[..i] == order[..i];
      ScanStops(s, front, i);
    } else {
      assert order[..i] == order;
    }
  }

  lemma GeneratedAppend(pairs: seq<(string, string)>, pair: (string, string))
    ensures var number := Itoa(|pairs| + 1);
            Generated(pairs + [pair]) ==
            Generated(pairs)["FPGA_REGION_" + number := pair.0]["FPGA_AFU_" + number := pair.1]
  {
    assert (pairs + [pair])[..|pairs|] == pairs;
  }

  lemma RepeatAppend<T>(front: seq<T>, x: T, k: nat)
    ensures front + Repeat(x, k + 1) == front + Repeat(x, k) + [x]
  {
  }

  /** The inner loop: numbers `quantity` more devices. */
  method AddVars(vars0: map<string, string>, counter0: nat, pair: (string, string), quantity: Int64,
                 ghost pairs: seq<(string, string)>)
    returns (vars: map<string, string>, counter: nat)
    requires vars0 == Generated(pairs) && counter0 == |pairs|
    ensures vars == Generated(pairs + Repeat(pair, quantity)) && counter == |pairs + Repeat(pair, quantity)|
  {
    vars, counter := vars0, counter0;
    var k := 0;
    ghost var now := pairs;
    assert pairs + Repeat(pair, 0) == pairs;
    while k < quantity
      invariant 0 <= k && (k <= quantity || k == 0)
      invariant now == pairs + Repeat(pair, k)
      invariant vars == Generated(now) && counter == |now|
    {
      RepeatAppend(pairs, pair, k);
      GeneratedAppend(now, pair);
      now := now + [pair];
      counter := counter + 1;
      vars := vars["FPGA_REGION_" + Itoa(counter) := pair.0];
      vars := vars["FPGA_AFU_" + Itoa(counter) := pair.1];
      k := k + 1;
    }
    assert Repeat(pair, quantity) == Repeat(pair, k);
  }

  lemma TotalsStep(s: State, req: map<string, Int64>, order: seq<string>, i: nat)
    requires i < |order| && order[i] in req && order[i] in s.resourceMap
    ensures var before, t := Totals(s, req, order[..i]), s.resourceMap[order[i]];
            Totals(s, req, order[..i+1]) ==
            before[t := Plus64(if t in before then before[t] else 0, req[order[i]])]
  {
    assert order[..i+1] == order[..i] + [order[i]];
    TotalsAppend(s, req, order[..i], order[i]);
  }

  lemma TotalsAppend(s: State, req: map<string, Int64>, order: seq<string>, r: string)
    requires r in req && r in s.resourceMap
    ensures var before, t := Totals(s, req, order), s.resourceMap[r];
            Totals(s, req, order + [r]) == before[t := Plus64(if t in before then before[t] else 0, req[r])]
  {
    assert (order + [r])[..|order|] == order;
    var t := s.resourceMap[r];
    if t !in Targets(s, order) { TotalOfOthers(s, req, order, t); }
    WrapSum(TotalFor(s, req, order, t), req[r]);
  }

  lemma {:induction false} TotalOfOthers(s: State, req: map<string, Int64>, order: seq<string>, t: string)
    requires t !in Targets(s, order)
    ensures TotalFor(s, req, order, t) == 0
  {
    if order == [] {
    } else {
      var front, last := order[..|order|-1], order[|order|-1];
      assert order == front + [last];
      assert last in s.resourceMap ==> s.resourceMap[last] in Targets(s, order);
      assert Targets(s, front) <= Targets(s, order);
      TotalOfOthers(s, req, front, t);
    }
  }

  /** The variables of the loop over the requested resources. */
  datatype Loop = Loop(mode: string, resources: map<string, Int64>, vars: map<string, string>, counter: nat, ops: seq<Op>)

  /** Their values after the names in `done`. */
  ghost predicate LoopState(s: State, req: map<string, Int64>, idx: nat, done: seq<string>, l: Loop) {
    && Uniform(s, done)
    && l.mode == (if done == [] then "" else s.modeMap[done[0]])
    && l.resources == Totals(s, req, done)
    && l.vars == Generated(Pairs(s, req, done))
    && l.counter == |Pairs(s, req, done)|
    && l.ops == Removes(idx, done)
  }

  /** The loop's variables after a name that stands for `target`. */
  function NextLoop(idx: nat, r: string, mode: string, target: string, quantity: Int64, l: Loop,
                    vars: map<string, string>, counter: nat): Loop {
    Loop(mode, l.resources[target := Plus64(if target in l.resources then l.resources[target] else 0, quantity)],
         vars, counter, l.ops + [RemoveResource(idx, Limits, Escape(r)), RemoveResource(idx, Requests, Escape(r))])
  }

  /** One round of the loop on a usable name. */
  lemma LoopStep(s: State, req: map<string, Int64>, idx: nat, order: seq<string>, i: nat, l: Loop,
                 vars: map<string, string>, counter: nat)
    requires i < |order| && order[i] in req && order[i] in s.resourceMap
    requires LoopState(s, req, idx, order[..i], l)
    requires Check(s, order[0], order[i]) == Continue
    requires vars == Generated(Pairs(s, req, order[..i]) + PairsOf(s, req, order[i]))
    requires counter == |Pairs(s, req, order[..i]) + PairsOf(s, req, order[i])|
    ensures LoopState(s, req, idx, order[..i+1],
                      NextLoop(idx, order[i], s.modeMap[order[i]], s.resourceMap[order[i]], req[order[i]], l, vars, counter))
  {
    UniformStep(s, order, i);
    TotalsStep(s, req, order, i);
    StepLists(s, req, idx, order, i);
    assert Usable(s, order[..i+1][0], order[..i+1][i]);
  }

  lemma StepLists(s: State, req: map<string, Int64>, idx: nat, order: seq<string>, i: nat)
    requires i < |order|
    ensures Pairs(s, req, order[..i+1]) == Pairs(s, req, order[..i]) + PairsOf(s, req, order[i])
    ensures var token := Escape(order[i]);
            Removes(idx, order[..i+1]) ==
            Removes(idx, order[..i]) + [RemoveResource(idx, Limits, token), RemoveResource(idx, Requests, token)]
  {
    assert order[..i+1][..i] == order[..i];
  }

  /** `getNoopsOrError`: an actual resource is left as it is. */
  method GetNoopsOrError(p: Patcher, name: string) returns (r: Result<seq<Op>>)
    ensures r.Ok? <==> Escape(name) in p.View().identitySet
    ensures r.Ok? ==> r.value == []
  {
    if Escape(name) in p.identitySet { return Ok([]); }
    return Err("no such resource: " + name);
  }

  /** The early return a verdict stands for. */
  ghost predicate Returns(v: Verdict, early: Option<Result<seq<Op>>>) {
    match v
    case Continue => early.None?
    case Noops => early == Some(Ok([]))
    case Fail => early.Some? && early.value.Err?
  }

  /** The switch over the mode. */
  method VarsFor(p: Patcher, req: map<string, Int64>, r: string, vars0: map<string, string>, counter0: nat,
                 ghost pairs: seq<(string, string)>)
    returns (known: bool, vars: map<string, string>, counter: nat)
    requires Consistent(p.View()) && r in p.resourceModeMap && r in req
    requires vars0 == Generated(pairs) && counter0 == |pairs|
    ensures known <==> KnownMode(p.resourceModeMap[r])
    ensures known ==> var all := pairs + PairsOf(p.View(), req, r); vars == Generated(all) && counter == |all|
  {
    var mode := p.resourceModeMap[r];
    known, vars, counter := true, vars0, counter0;
    if mode == REGIONDEVEL || mode == AF {
      assert pairs + [] == pairs;
    } else if mode == REGION {
      vars, counter := AddVars(vars, counter, (p.afMap[r].interfaceID, p.afMap[r].afuID), req[r], pairs);
    } else {
      known := false;
    }
  }

  /** The loop body. */
  method ResolveOne(p: Patcher, idx: nat, req: map<string, Int64>, order: seq<string>, i: nat, l: Loop)
    returns (early: Option<Result<seq<Op>>>, l': Loop)
    requires Consistent(p.View())
    requires i < |order| && order[i] in req
    requires LoopState(p.View(), req, idx, order[..i], l)
    ensures Returns(Check(p.View(), order[0], order[i]), early)
    ensures early.None? ==> LoopState(p.View(), req, idx, order[..i+1], l')
  {
    var r := order[i];
    l' := l;
    if r !in p.resourceModeMap {
      var noops := GetNoopsOrError(p, r);
      return Some(noops), l;
    }
    var mode := p.resourceModeMap[r];
    ghost var pairs := Pairs(p.View(), req, order[..i]);
    var known, vars, counter := VarsFor(p, req, r, l.vars, l.counter, pairs);
    if !known {
      return Some(Err(r + " is registered with unknown mode")), l;
    }
    if l.mode != "" && l.mode != mode {
      return Some(Err("resources operated in different modes")), l;
    }
    LoopStep(p.View(), req, idx, order, i, l, vars, counter);
    var mappedName := p.resourceMap[r];
    return None, NextLoop(idx, r, mode, mappedName, req[r], l, vars, counter);
  }

  /** The loop over the requested resources. */
  method ResolveRequests(p: Patcher, idx: nat, req: map<string, Int64>, order: seq<string>)
    returns (early: Option<Result<seq<Op>>>, l: Loop)
    requires Consistent(p.View())
    requires forall r | r in order :: r in req
    ensures Returns(Scan(p.View(), order), early)
    ensures early.None? ==> LoopState(p.View(), req, idx, order, l)
  {
    l := Loop("", map[], map[], 0, []);
    for i := 0 to |order|
      invariant LoopState(p.View(), req, idx, order[..i], l)
    {
      UniformStep(p.View(), order, i);
      early, l := ResolveOne(p, idx, req, order, i, l);
      if early.Some? {
        ScanStops(p.View(), order, i + 1);
        return;
      }
    }
    assert order[..|order|] == order;
    ScanContinues(p.View(), order);
    early := None;
  }

  /** The result `OpsFor` prescribes; error texts are not compared. */
  ghost predicate Matches(spec: Result<seq<Op>>, r: Result<seq<Op>>) { if spec.Ok? then r == spec else r.Err? }

  method GetPatchOps(p: Patcher, containerIdx: nat, container: Container)
    returns (r: Result<seq<Op>>, order: seq<string>, addOrder: seq<string>)
    requires Consistent(p.View())
    ensures !Acceptable(container, NAMESPACE) ==> r.Err?
    ensures Acceptable(container, NAMESPACE) ==>
              && Enumerates(order, Requested(container, NAMESPACE).Keys)
              && (Uniform(p.View(), order) ==> Enumerates(addOrder, Targets(p.View(), order)))
              && Matches(OpsFor(p.View(), containerIdx, container, order, addOrder), r)
  {
    order, addOrder := [], [];
    var env := SanitizeContainer(container);
    var requested := GetRequestedResources(container, NAMESPACE);
    if requested.Err? { return Err(requested.message), order, addOrder; }
    order := Enumerate(requested.value.Keys);
    r, addOrder := CompileOps(p, containerIdx, container, env, order);
  }

  method SanitizeContainer(container: Container) returns (env: seq<EnvVar>)
    ensures env == Sanitized(container.env)
  {
    var slice := new EnvVar[|container.env|](i requires 0 <= i < |container.env| => container.env[i]);
    assert slice[..] == container.env;
    var n := SanitizeEnv(slice);
    env := slice[..n];
  }

  method CompileOps(p: Patcher, containerIdx: nat, container: Container, env: seq<EnvVar>, order: seq<string>)
    returns (r: Result<seq<Op>>, addOrder: seq<string>)
    requires Consistent(p.View()) && Acceptable(container, NAMESPACE) && env == Sanitized(container.env)
    requires Enumerates(order, Requested(container, NAMESPACE).Keys)
    ensures Uniform(p.View(), order) ==> Enumerates(addOrder, Targets(p.View(), order))
    ensures Matches(OpsFor(p.View(), containerIdx, container, order, addOrder), r)
  {
    addOrder := [];
    var req := Requested(container, NAMESPACE);
    assert forall r | r in order :: r in Elements(order);
    var early, l := ResolveRequests(p, containerIdx, req, order);
    ScanContinues(p.View(), order);
    if early.Some? { return early.value, addOrder; }
    addOrder := Enumerate(l.resources.Keys);
    var adds := AddOps(containerIdx, l.resources, addOrder);
    var envOps := EnvAddOp(containerIdx, l.vars, env, Pairs(p.View(), req, order));
    r := Ok(l.ops + adds + envOps);
  }

  /** The loop over the sums. */
  method AddOps(idx: nat, resources: map<string, Int64>, order: seq<string>) returns (ops: seq<Op>)
    requires Enumerates(order, resources.Keys)
    ensures forall t | t in order :: t in resources
    ensures ops == Adds(idx, resources, order)
  {
    assert forall t | t in order :: t in Elements(order);
    ops := [];
    for i := 0 to |order|
      invariant ops == Adds(idx, resources, order[..i])
    {
      assert order[..i+1][..i] == order[..i];
      var t := order[i];
      ops := ops + [AddResource(idx, Limits, t, resources[t])];
      ops := ops + [AddResource(idx, Requests, t, resources[t])];
    }
    assert order[..|order|] == order;
  }

  /** The operation that sets the environment, if there are variables to add. */
  method EnvAddOp(idx: nat, generated: map<string, string>, env: seq<EnvVar>, ghost pairs: seq<(string, string)>)
    returns (ops: seq<Op>)
    requires generated == Generated(pairs)
    ensures ops == if pairs == [] then [] else [AddEnv(idx, EnvList(Merged(Generated(pairs), env)))]
  {
    assert pairs != [] ==> AfuVar(|pairs|) in generated;
    if |generated| == 0 { return []; }
    var vars := generated;
    for i := 0 to |env|
      invariant vars == Merged(generated, env[..i])
    {
      assert env[..i+1][..i] == env[..i];
      vars := vars[env[i].name := env[i].value];
    }
    assert env[..|env|] == env;
    var list := PrintEnv(vars);
    return [AddEnv(idx, list)];
  }

  method PrintEnv(vars: map<string, string>) returns (list: seq<EnvVar>)
    ensures list == EnvList(vars)
  {
    var keys := SortedKeys(vars.Keys);
    list := [];
    ghost var all := EnvList(vars);
    for i := 0 to |keys|
      invariant list == all[..i]
    {
      assert keys[i] in keys;
      assert all[i] == EnvVar(keys[i], vars[keys[i]]);
      list := list + [EnvVar(keys[i], vars[keys[i]])];
    }
  }
}
