/** The CRI hook (cmd/fpga_crihook/main.go): reading back the variables the webhook wrote. */
module CriHook {
  import opened Common
  import opened Sorting
  import opened Text
  import opened Containers
  import opened PatcherState
  import opened PatchOps
  import opened PatchMeaning

  const REGION_PREFIX := "FPGA_REGION_"
  const AFU_PREFIX := "FPGA_AFU_"

  // ---------------------------------------------------------------- entries

  /** The text before the first "=". */
  function Key(entry: string): string { Split(entry, '=')[0] }

  /** The text after the first "="; the hook indexes it without a check. */
  function Value(entry: string): string
    requires '=' in entry
  {
    JoinSplit(entry, '=');
    entry[|Key(entry)|+1..]
  }

  lemma EntryParts(name: string, value: string)
    requires '=' !in name
    ensures var e := name + "=" + value; '=' in e && Key(e) == name && Value(e) == value
  {
    SplitHead(name, value, '=');
    assert (name + "=" + value)[|name|] == '=';
  }

  /** The key of an entry is a prefix of any name the entry was made from. */
  lemma KeyIsPrefix(name: string, value: string)
    ensures Key(name + "=" + value) <= name
  {
    var f := Split(name, '=');
    JoinSplit(name, '=');
    assert f[0] in f && '=' !in f[0];
    if |f| == 1 {
      SplitHead(name, value, '=');
    } else {
      var rest := Join(f[1..], "=");
      assert name == f[0] + ['='] + rest;
      SplitHead(f[0], rest + "=" + value, '=');
      assert name + "=" + value == f[0] + ['='] + (rest + "=" + value);
    }
  }

  /** The text before the first occurrence of `p`. */
  function UpTo(s: string, p: string): string {
    if p <= s || s == [] then [] else [s[0]] + UpTo(s[1..], p)
  }

  /** `strings.Split(key, prefix)[1]` of a key that starts with the prefix. */
  function Number(key: string, prefix: string): string
    requires prefix <= key
  {
    UpTo(key[|prefix|..], prefix)
  }

  lemma {:induction false} UpToWithout(s: string, p: string)
    requires p != [] && p[0] !in s
    ensures UpTo(s, p) == s
  {
    if s == [] {
    } else {
      UpToWithout(s[1..], p);
    }
  }

  // ------------------------------------------------------------ identifiers

  function WithoutDashes(s: string): string {
    if s == [] then [] else (if s[0] == '-' then [] else [s[0]]) + WithoutDashes(s[1..])
  }

  function LowerCase(s: string): string {
    seq(|s|, i requires 0 <= i < |s| => if 'A' <= s[i] <= 'Z' then (s[i] as int + 32) as char else s[i])
  }

  /** `fpga.CanonizeID`. */
  function CanonizeID(id: string): string { LowerCase(WithoutDashes(TrimSpace(id))) }

  lemma {:induction false} NoDashes(s: string)
    requires '-' !in s
    ensures WithoutDashes(s) == s
  {
    if s == [] {
    } else {
      NoDashes(s[1..]);
    }
  }

  lemma CanonizeLowerHex(id: string)
    requires DevTypes.LowerHex(id)
    ensures CanonizeID(id) == id
  {
    assert forall i | 0 <= i < |id| :: DevTypes.IsLowerHex(id[i]);
    NoDashes(id);
  }

  /** Hexadecimal digits of either case and dashes, as in a UUID. */
  predicate IsUuidText(s: string) { forall c | c in s :: c == '-' || DevTypes.IsHex(c) }

  /** The values of the digits of such a text. */
  function Digits(s: string): seq<int>
    requires IsUuidText(s)
  {
    if s == [] then []
    else
      assert s[0] in s;
      (if s[0] == '-' then [] else [DevTypes.HexValue(s[0])]) + Digits(s[1..])
  }

  /** The canonical form of an id has its digits in lower case and nothing else. */
  lemma CanonizeUuid(left: string, id: string, right: string)
    requires IsUuidText(id) && AllSpace(left) && AllSpace(right)
    ensures var canonical := CanonizeID(left + id + right);
            DevTypes.LowerHex(canonical) && IsUuidText(canonical) && Digits(canonical) == Digits(id)
  {
    assert forall c | c in id :: !IsSpace(c);
    TrimAround(left, id, right);
    WithoutDashesDigits(id);
    LowerCaseDigits(WithoutDashes(id));
  }

  lemma {:induction false} WithoutDashesDigits(s: string)
    requires IsUuidText(s)
    ensures forall c | c in WithoutDashes(s) :: DevTypes.IsHex(c)
    ensures Digits(WithoutDashes(s)) == Digits(s)
  {
    if s == [] {
    } else {
      assert s[0] in s;
      WithoutDashesDigits(s[1..]);
      if s[0] == '-' {
        assert WithoutDashes(s) == WithoutDashes(s[1..]);
      } else {
        assert WithoutDashes(s)[1..] == WithoutDashes(s[1..]);
      }
    }
  }

  lemma {:induction false} LowerCaseDigits(s: string)
    requires forall c | c in s :: DevTypes.IsHex(c)
    ensures DevTypes.LowerHex(LowerCase(s)) && IsUuidText(LowerCase(s)) && Digits(LowerCase(s)) == Digits(s)
  {
    if s == [] {
    } else {
      assert s[0] in s;
      LowerCaseDigits(s[1..]);
      assert LowerCase(s)[1..] == LowerCase(s[1..]);
      assert LowerCase(s) == [LowerCase(s)[0]] + LowerCase(s[1..]);
    }
  }

  // ---------------------------------------------------------- configuration

  /** A device of the container: its name, whether it is an FPGA port, and what opening the
      port yields: the interface id or an error. */
  datatype Device = Device(name: string, isPort: bool, port: Result<string>)

  datatype Params = Params(region: string, afu: string, portDevice: string)

  /** The two maps the hook fills. */
  datatype Env = Env(regions: map<string, string>, afus: map<string, string>)

  predicate IsRegionEntry(e: string) { REGION_PREFIX <= Key(e) }

  predicate IsAfuEntry(e: string) { !IsRegionEntry(e) && AFU_PREFIX <= Key(e) }

  /** Every entry with a reserved prefix has a value. */
  predicate Readable(entries: seq<string>) {
    forall e | e in entries && (IsRegionEntry(e) || IsAfuEntry(e)) :: '=' in e
  }

  function Parse(entries: seq<string>): Env
    requires Readable(entries)
  {
    if entries == [] then Env(map[], map[])
    else
      var env, e := Parse(entries[..|entries|-1]), entries[|entries|-1];
      assert e in entries;
      if IsRegionEntry(e) then
        env.(regions := env.regions[Number(Key(e), REGION_PREFIX) := CanonizeID(Value(e))])
      else if IsAfuEntry(e) then
        env.(afus := env.afus[Number(Key(e), AFU_PREFIX) := CanonizeID(Value(e))])
      else env
  }

  predicate IsRegion(e: string, num: string) { IsRegionEntry(e) && Number(Key(e), REGION_PREFIX) == num }

  predicate IsAfu(e: string, num: string) { IsAfuEntry(e) && Number(Key(e), AFU_PREFIX) == num }

  /** Entry `i` is the last one that gives this region. */
  predicate LastRegion(entries: seq<string>, num: string, i: nat) {
    i < |entries| && IsRegion(entries[i], num) && forall j | i < j < |entries| :: !IsRegion(entries[j], num)
  }

  predicate LastAfu(entries: seq<string>, num: string, i: nat) {
    i < |entries| && IsAfu(entries[i], num) && forall j | i < j < |entries| :: !IsAfu(entries[j], num)
  }

  /** The value the hook takes from an entry. */
  function CanonicalValue(entries: seq<string>, i: nat): string
    requires i < |entries| && Readable(entries) && (IsRegionEntry(entries[i]) || IsAfuEntry(entries[i]))
  {
    assert entries[i] in entries;
    CanonizeID(Value(entries[i]))
  }

  lemma ParseStep(front: seq<string>, last: string, num: string)
    requires Readable(front + [last])
    ensures Readable(front) && (IsRegionEntry(last) || IsAfuEntry(last) ==> '=' in last)
    ensures var before, after := Parse(front), Parse(front + [last]);
            && (if IsRegion(last, num) then num in after.regions && after.regions[num] == CanonizeID(Value(last))
                else SameEntry(before.regions, after.regions, num))
            && (if IsAfu(last, num) then num in after.afus && after.afus[num] == CanonizeID(Value(last))
                else SameEntry(before.afus, after.afus, num))
  {
    assert (front + [last])[..|front|] == front;
    assert last in front + [last] && forall e | e in front :: e in front + [last];
  }

  predicate SameEntry(a: map<string, string>, b: map<string, string>, key: string) {
    (key in a <==> key in b) && (key in a ==> a[key] == b[key])
  }

  /** The maps have the numbers of the reserved entries, with the canonical values of the last ones. */
  lemma ParseExactly(entries: seq<string>, num: string)
    requires Readable(entries)
    ensures num in Parse(entries).regions <==> exists i: nat :: LastRegion(entries, num, i)
    ensures forall i: nat | LastRegion(entries, num, i) ::
              num in Parse(entries).regions && Parse(entries).regions[num] == CanonicalValue(entries, i)
    ensures num in Parse(entries).afus <==> exists i: nat :: LastAfu(entries, num, i)
    ensures forall i: nat | LastAfu(entries, num, i) ::
              num in Parse(entries).afus && Parse(entries).afus[num] == CanonicalValue(entries, i)
  {
    RegionsExactly(entries, num);
    AfusExactly(entries, num);
  }

  lemma {:induction false} RegionsExactly(entries: seq<string>, num: string)
    requires Readable(entries)
    ensures num in Parse(entries).regions <==> exists i: nat :: LastRegion(entries, num, i)
    ensures forall i: nat | LastRegion(entries, num, i) ::
              num in Parse(entries).regions && Parse(entries).regions[num] == CanonicalValue(entries, i)
  {
    if entries == [] {
    } else {
      var front, last := entries[..|entries|-1], entries[|entries|-1];
      assert entries == front + [last];
      ParseStep(front, last, num);
      RegionsExactly(front, num);
      LastRegionStep(front, last, num);
      assert forall i | 0 <= i < |front| :: entries[i] == front[i];
    }
  }

  lemma {:induction false} AfusExactly(entries: seq<string>, num: string)
    requires Readable(entries)
    ensures num in Parse(entries).afus <==> exists i: nat :: LastAfu(entries, num, i)
    ensures forall i: nat | LastAfu(entries, num, i) ::
              num in Parse(entries).afus && Parse(entries).afus[num] == CanonicalValue(entries, i)
  {
    if entries == [] {
    } else {
      var front, last := entries[..|entries|-1], entries[|entries|-1];
      assert entries == front + [last];
      ParseStep(front, last, num);
      AfusExactly(front, num);
      LastAfuStep(front, last, num);
      assert forall i | 0 <= i < |front| :: entries[i] == front[i];
    }
  }

  lemma LastRegionStep(front: seq<string>, last: string, num: string)
    ensures forall i: nat :: LastRegion(front + [last], num, i) <==>
              if IsRegion(last, num) then i == |front| else LastRegion(front, num, i)
    ensures (exists i: nat :: LastRegion(front + [last], num, i)) <==>
              IsRegion(last, num) || exists i: nat :: LastRegion(front, num, i)
  {
    var all := front + [last];
    assert all[|front|] == last && forall i | 0 <= i < |front| :: all[i] == front[i];
    if IsRegion(last, num) { assert LastRegion(all, num, |front|); }
  }

  lemma LastAfuStep(front: seq<string>, last: string, num: string)
    ensures forall i: nat :: LastAfu(front + [last], num, i) <==>
              if IsAfu(last, num) then i == |front| else LastAfu(front, num, i)
    ensures (exists i: nat :: LastAfu(front + [last], num, i)) <==>
              IsAfu(last, num) || exists i: nat :: LastAfu(front, num, i)
  {
    var all := front + [last];
    assert all[|front|] == last && forall i | 0 <= i < |front| :: all[i] == front[i];
    if IsAfu(last, num) { assert LastAfu(all, num, |front|); }
  }

  /** The first FPGA port with the interface id. The `processed` mark is set on a copy of the
      device and so never skips one. */
  function FindPort(devices: seq<Device>, region: string): Result<string> {
    if devices == [] then Err("can't find appropriate device for region " + region)
    else if !devices[0].isPort then FindPort(devices[1..], region)
    else
      match devices[0].port
      case Err(m) => Err(m)
      case Ok(uuid) => if uuid == region then Ok(devices[0].name) else FindPort(devices[1..], region)
  }

  /** Device `i` is the first FPGA port with the interface id, and the ports before it can all be
      opened. */
  predicate IsFirstPort(devices: seq<Device>, region: string, i: nat) {
    && i < |devices| && devices[i].isPort && devices[i].port == Ok(region)
    && forall j | 0 <= j < i && devices[j].isPort :: devices[j].port.Ok? && devices[j].port.value != region
  }

  predicate HasPort(devices: seq<Device>, region: string) {
    exists i | 0 <= i < |devices| :: IsFirstPort(devices, region, i)
  }

  /** A port is found exactly when there is one that no port before it hides; it is the first. */
  lemma {:induction false} FindPortExactly(devices: seq<Device>, region: string)
    ensures FindPort(devices, region).Ok? <==> HasPort(devices, region)
    ensures forall i: nat | IsFirstPort(devices, region, i) :: FindPort(devices, region) == Ok(devices[i].name)
  {
    if devices == [] {
    } else if devices[0].isPort && (devices[0].port.Err? || devices[0].port.value == region) {
      assert devices[0].port.Ok? ==> IsFirstPort(devices, region, 0);
    } else {
      FindPortExactly(devices[1..], region);
      forall i: nat
        ensures IsFirstPort(devices, region, i) <==> i > 0 && IsFirstPort(devices[1..], region, i - 1)
      {
        LaterPort(devices, region, i);
      }
      if HasPort(devices[1..], region) {
        var i :| 0 <= i < |devices| - 1 && IsFirstPort(devices[1..], region, i);
        assert IsFirstPort(devices, region, i + 1);
      }
    }
  }

  lemma LaterPort(devices: seq<Device>, region: string, i: nat)
    requires devices != []
    requires devices[0].isPort ==> devices[0].port.Ok? && devices[0].port.value != region
    ensures IsFirstPort(devices, region, i) <==> i > 0 && IsFirstPort(devices[1..], region, i - 1)
  {
    var rest := devices[1..];
    if i > 0 && IsFirstPort(rest, region, i - 1) {
      forall j | 0 <= j < i && devices[j].isPort
        ensures devices[j].port.Ok? && devices[j].port.value != region
      {
        if j > 0 { assert rest[j-1] == devices[j]; }
      }
    }
    if i > 0 && IsFirstPort(devices, region, i) {
      assert forall j | 0 <= j < i - 1 :: rest[j] == devices[j+1];
    }
  }

  /** Every region has an AFU and a port. */
  predicate Complete(env: Env, devices: seq<Device>) {
    && env.regions != map[] && env.afus != map[]
    && forall num | num in env.regions :: num in env.afus && HasPort(devices, env.regions[num])
  }

  function PortName(devices: seq<Device>, region: string): string {
    if FindPort(devices, region).Ok? then FindPort(devices, region).value else ""
  }

  function ParamsOf(env: Env, devices: seq<Device>, num: string): Params {
    if num in env.regions && num in env.afus then
      Params(env.regions[num], env.afus[num], PortName(devices, env.regions[num]))
    else Params("", "", "")
  }

  /** The list to program, for one order of the Go map. */
  function ParamsFor(env: Env, devices: seq<Device>, order: seq<string>): (r: seq<Params>)
    ensures |r| == |order| && forall i | 0 <= i < |r| :: r[i] == ParamsOf(env, devices, order[i])
  {
    MapSeq(order, num => ParamsOf(env, devices, num))
  }

  method GetFPGAParams(entries: seq<string>, devices: seq<Device>)
    returns (r: Result<seq<Params>>, order: seq<string>)
    requires Readable(entries)
    ensures Enumerates(order, Parse(entries).regions.Keys)
    ensures r.Ok? <==> Complete(Parse(entries), devices)
    ensures r.Ok? ==> r.value == ParamsFor(Parse(entries), devices, order)
  {
    var regionEnv, afuEnv := ReadEnv(entries);
    var env := Env(regionEnv, afuEnv);
    order := Enumerate(regionEnv.Keys);
    if |regionEnv| == 0 { return Err("No FPGA_REGION_* environment variables are set"), order; }
    if |afuEnv| == 0 { return Err("No FPGA_AFU_* environment variables are set"), order; }
    assert Elements(order) == regionEnv.Keys;
    r := CollectParams(env, devices, order);
  }

  /** The loop over the regions. */
  method CollectParams(env: Env, devices: seq<Device>, order: seq<string>) returns (r: Result<seq<Params>>)
    requires Elements(order) == env.regions.Keys
    ensures r.Ok? <==> forall num | num in env.regions :: num in env.afus && HasPort(devices, env.regions[num])
    ensures r.Ok? ==> r.value == ParamsFor(env, devices, order)
  {
    var params: seq<Params> := [];
    for i := 0 to |order|
      invariant forall j | 0 <= j < i :: order[j] in env.afus && HasPort(devices, env.regions[order[j]])
      invariant |params| == i && forall j | 0 <= j < i :: params[j] == ParamsOf(env, devices, order[j])
    {
      var num := order[i];
      assert num in Elements(order);
      if num !in env.afus { return Err("Environment variable FPGA_AFU_" + num + " is not set"); }
      var found := LookForPort(devices, env.regions[num]);
      if found.Err? { return Err(found.message); }
      params := params + [Params(env.regions[num], env.afus[num], found.value)];
    }
    assert forall num | num in env.regions :: num in Elements(order);
    return Ok(params);
  }

  /** The loop over the environment. */
  method ReadEnv(entries: seq<string>) returns (regionEnv: map<string, string>, afuEnv: map<string, string>)
    requires Readable(entries)
    ensures Env(regionEnv, afuEnv) == Parse(entries)
  {
    regionEnv, afuEnv := map[], map[];
    for i := 0 to |entries|
      invariant Readable(entries[..i]) && Env(regionEnv, afuEnv) == Parse(entries[..i])
    {
      var e := entries[i];
      assert entries[..i+1][..i] == entries[..i];
      assert e in entries;
      assert forall x | x in entries[..i+1] :: x in entries;
      var key := Split(e, '=')[0];
      if REGION_PREFIX <= key {
        regionEnv := regionEnv[Number(key, REGION_PREFIX) := CanonizeID(Value(e))];
      } else if AFU_PREFIX <= key {
        afuEnv := afuEnv[Number(key, AFU_PREFIX) := CanonizeID(Value(e))];
      }
    }
    assert entries[..|entries|] == entries;
  }

  /** The loop over the devices. */
  method LookForPort(devices: seq<Device>, region: string) returns (r: Result<string>)
    ensures r.Ok? <==> HasPort(devices, region)
    ensures forall i: nat | IsFirstPort(devices, region, i) :: r == Ok(devices[i].name)
    ensures r.Ok? ==> r.value == PortName(devices, region)
  {
    FindPortExactly(devices, region);
    for i := 0 to |devices|
      invariant FindPort(devices, region) == FindPort(devices[i..], region)
    {
      if !devices[i].isPort { continue; }
      if devices[i].port.Err? { return Err(devices[i].port.message); }
      if devices[i].port.value == region { return Ok(devices[i].name); }
    }
    return Err("can't find appropriate device for region " + region);
  }

  lemma FoundPortFits(devices: seq<Device>, region: string)
    requires HasPort(devices, region)
    ensures exists d | d in devices :: d.isPort && d.port == Ok(region) && d.name == PortName(devices, region)
  {
    FindPortExactly(devices, region);
    var i :| 0 <= i < |devices| && IsFirstPort(devices, region, i);
    assert devices[i] in devices;
  }

  // ------------------------------------------------ from webhook to hook

  /** `map["1" := values[0], "2" := values[1], ...]`. */
  function Numbered(values: seq<string>): map<string, string> {
    if values == [] then map[] else Numbered(values[..|values|-1])[Itoa(|values|) := values[|values|-1]]
  }

  function Interfaces(pairs: seq<(string, string)>): (r: seq<string>)
    ensures |r| == |pairs|
  {
    seq(|pairs|, i requires 0 <= i < |pairs| => pairs[i].0)
  }

  function Afus(pairs: seq<(string, string)>): (r: seq<string>)
    ensures |r| == |pairs|
  {
    seq(|pairs|, i requires 0 <= i < |pairs| => pairs[i].1)
  }

  lemma {:induction false} NumberedAt(values: seq<string>, i: nat)
    requires 1 <= i <= |values|
    ensures Itoa(i) in Numbered(values) && Numbered(values)[Itoa(i)] == values[i-1]
  {
    if i < |values| {
      NumberedAt(values[..|values|-1], i);
      if Itoa(i) == Itoa(|values|) { ItoaInjective(i, |values|); }
    }
  }

  lemma {:induction false} NumberedKeys(values: seq<string>, num: string) returns (i: nat)
    requires num in Numbered(values)
    ensures 1 <= i <= |values| && num == Itoa(i)
  {
    if num == Itoa(|values|) {
      i := |values|;
    } else {
      i := NumberedKeys(values[..|values|-1], num);
    }
  }

  /** A generated variable is one of the pairs. */
  lemma {:induction false} GeneratedKeys(pairs: seq<(string, string)>, name: string) returns (i: nat)
    requires name in Generated(pairs)
    ensures 1 <= i <= |pairs| && (name == RegionVar(i) || name == AfuVar(i))
  {
    if name == RegionVar(|pairs|) || name == AfuVar(|pairs|) {
      i := |pairs|;
    } else {
      i := GeneratedKeys(pairs[..|pairs|-1], name);
    }
  }

  lemma VarsDiffer(i: nat, j: nat)
    ensures RegionVar(i) != AfuVar(j)
    ensures RegionVar(i) == RegionVar(j) <==> i == j
    ensures AfuVar(i) == AfuVar(j) <==> i == j
  {
    assert RegionVar(i)[5] == 'R' && AfuVar(j)[5] == 'A';
    assert RegionVar(i)[12..] == Itoa(i) && RegionVar(j)[12..] == Itoa(j);
    assert AfuVar(i)[9..] == Itoa(i) && AfuVar(j)[9..] == Itoa(j);
    if Itoa(i) == Itoa(j) { ItoaInjective(i, j); }
  }

  lemma {:induction false} GeneratedAt(pairs: seq<(string, string)>, i: nat)
    requires 1 <= i <= |pairs|
    ensures var g := Generated(pairs);
            && RegionVar(i) in g && g[RegionVar(i)] == pairs[i-1].0
            && AfuVar(i) in g && g[AfuVar(i)] == pairs[i-1].1
  {
    var n := |pairs|;
    VarsDiffer(i, n);
    VarsDiffer(n, i);
    VarsDiffer(n, n);
    if i < n { GeneratedAt(pairs[..n-1], i); }
  }

  /** The variables the container already had cannot replace the generated ones. */
  lemma {:induction false} MergedKeepsReserved(vars: map<string, string>, env: seq<EnvVar>, name: string)
    requires Reserved(name) && forall v | v in env :: !Reserved(v.name)
    ensures name in Merged(vars, env) <==> name in vars
    ensures name in vars ==> Merged(vars, env)[name] == vars[name]
  {
    if env == [] {
    } else {
      assert env[|env|-1] in env;
      MergedKeepsReserved(vars, env[..|env|-1], name);
    }
  }

  /** The reserved variables of a patched environment are exactly the generated ones. */
  lemma PatchedReserved(pairs: seq<(string, string)>, env: seq<EnvVar>, name: string, value: string)
    requires pairs != [] && Reserved(name)
    ensures EnvVar(name, value) in PatchedEnv(pairs, env) <==> name in Generated(pairs) && Generated(pairs)[name] == value
  {
    SanitizedContents(env);
    MergedKeepsReserved(Generated(pairs), Sanitized(env), name);
    EnvListContents(Merged(Generated(pairs), Sanitized(env)), EnvVar(name, value));
  }

  /** Entry `i` is the last one with the name. */
  predicate IsLastVar(env: seq<EnvVar>, name: string, i: nat) {
    i < |env| && env[i].name == name && forall j | i < j < |env| :: env[j].name != name
  }

  /** The value of the last entry with the name. */
  function LastValue(env: seq<EnvVar>, name: string): Option<string> {
    if env == [] then None
    else if env[|env|-1].name == name then Some(env[|env|-1].value)
    else LastValue(env[..|env|-1], name)
  }

  lemma {:induction false} LastValueIs(env: seq<EnvVar>, name: string, value: string)
    ensures LastValue(env, name) == Some(value) <==> exists i: nat :: IsLastVar(env, name, i) && env[i].value == value
  {
    if env == [] {
    } else {
      var n, front := |env| - 1, env[..|env|-1];
      LastValueIs(front, name, value);
      if env[n].name == name {
        assert forall i: nat :: IsLastVar(env, name, i) <==> i == n;
      } else {
        assert forall i | 0 <= i < n :: env[i] == front[i];
        assert forall i: nat :: IsLastVar(env, name, i) <==> IsLastVar(front, name, i);
      }
    }
  }

  lemma {:induction false} SanitizedLast(env: seq<EnvVar>, name: string)
    requires !Reserved(name)
    ensures LastValue(Sanitized(env), name) == LastValue(env, name)
  {
    if env == [] {
    } else {
      var front, last := env[..|env|-1], env[|env|-1];
      SanitizedLast(front, name);
      if Reserved(last.name) {
        assert Sanitized(env) == Sanitized(front);
      } else {
        assert Sanitized(env)[..|Sanitized(front)|] == Sanitized(front);
      }
    }
  }

  lemma {:induction false} MergedLast(vars: map<string, string>, env: seq<EnvVar>, name: string)
    requires name !in vars
    ensures name in Merged(vars, env) <==> LastValue(env, name).Some?
    ensures name in Merged(vars, env) ==> Some(Merged(vars, env)[name]) == LastValue(env, name)
  {
    if env == [] {
    } else {
      MergedLast(vars, env[..|env|-1], name);
    }
  }

  lemma GeneratedAreReserved(pairs: seq<(string, string)>, name: string)
    requires name in Generated(pairs)
    ensures Reserved(name)
  {
    var i := GeneratedKeys(pairs, name);
  }

  /** The variables of a patched container without a reserved prefix are exactly its own, each with
      the value of its last entry, and no name is there twice. A container that asks for no
      numbered devices keeps its list as it is. */
  lemma PatchedKeepsOwn(s: State, c: Container, order: seq<string>, name: string, value: string)
    requires Resolvable(s, c, order) && !Reserved(name)
    ensures ContainerPairs(s, c, order) == [] ==> Patched(s, c, order).env == c.env
    ensures ContainerPairs(s, c, order) != [] ==>
              && DistinctVars(Patched(s, c, order).env)
              && (EnvVar(name, value) in Patched(s, c, order).env <==>
                  exists i: nat :: IsLastVar(c.env, name, i) && c.env[i].value == value)
  {
    var pairs := ContainerPairs(s, c, order);
    if pairs != [] {
      KeepsOwn(pairs, c.env, name, value);
      EnvListDistinct(Merged(Generated(pairs), Sanitized(c.env)));
    }
  }

  predicate DistinctVars(env: seq<EnvVar>) { forall i, j | 0 <= i < j < |env| :: env[i].name != env[j].name }

  lemma EnvListDistinct(vars: map<string, string>)
    ensures DistinctVars(EnvList(vars))
  {
    var keys := AscendingStrings(vars.Keys);
    assert forall i | 0 <= i < |keys| :: EnvList(vars)[i].name == keys[i];
  }

  lemma KeepsOwn(pairs: seq<(string, string)>, env: seq<EnvVar>, name: string, value: string)
    requires pairs != [] && !Reserved(name)
    ensures EnvVar(name, value) in PatchedEnv(pairs, env) <==>
            exists i: nat :: IsLastVar(env, name, i) && env[i].value == value
  {
    if name in Generated(pairs) { GeneratedAreReserved(pairs, name); }
    MergedLast(Generated(pairs), Sanitized(env), name);
    SanitizedLast(env, name);
    LastValueIs(env, name, value);
    EnvListContents(Merged(Generated(pairs), Sanitized(env)), EnvVar(name, value));
  }

  lemma EnvListContents(vars: map<string, string>, v: EnvVar)
    ensures v in EnvList(vars) <==> v.name in vars && vars[v.name] == v.value
  {
    var keys, list := AscendingStrings(vars.Keys), EnvList(vars);
    if v in list {
      var i :| 0 <= i < |list| && list[i] == v;
      assert keys[i] in keys;
    }
    if v.name in vars && vars[v.name] == v.value {
      assert v.name in keys;
      var i :| 0 <= i < |keys| && keys[i] == v.name;
      assert list[i] == v;
    }
  }

  /** The process environment carries the container's variables; the runtime may add others,
      but none with a reserved prefix. */
  ghost predicate Carries(entries: seq<string>, env: seq<EnvVar>) {
    && (forall v | v in env :: v.name + "=" + v.value in entries)
    && (forall e | e in entries && (IsRegionEntry(e) || IsAfuEntry(e)) ::
          exists v | v in env :: e == v.name + "=" + v.value)
  }

  /** Every reserved entry of the process is one generated variable. */
  lemma ReservedEntry(entries: seq<string>, pairs: seq<(string, string)>, env: seq<EnvVar>,
                                         e: string) returns (i: nat)
    requires pairs != [] && Carries(entries, PatchedEnv(pairs, env))
    requires e in entries && (IsRegionEntry(e) || IsAfuEntry(e))
    ensures 1 <= i <= |pairs|
    ensures IsRegionEntry(e) ==> e == RegionVar(i) + "=" + pairs[i-1].0
    ensures IsAfuEntry(e) ==> e == AfuVar(i) + "=" + pairs[i-1].1
  {
    var v :| v in PatchedEnv(pairs, env) && e == v.name + "=" + v.value;
    KeyIsPrefix(v.name, v.value);
    PatchedReserved(pairs, env, v.name, v.value);
    i := WhichVar(pairs, v.name);
  }

  lemma WhichVar(pairs: seq<(string, string)>, name: string) returns (i: nat)
    requires name in Generated(pairs)
    ensures 1 <= i <= |pairs|
    ensures REGION_PREFIX <= name ==> name == RegionVar(i) && Generated(pairs)[name] == pairs[i-1].0
    ensures AFU_PREFIX <= name ==> name == AfuVar(i) && Generated(pairs)[name] == pairs[i-1].1
  {
    i := GeneratedKeys(pairs, name);
    GeneratedAt(pairs, i);
    assert RegionVar(i)[5] == 'R' && AfuVar(i)[5] == 'A';
    assert REGION_PREFIX[5] == 'R' && AFU_PREFIX[5] == 'A';
  }

  lemma RegionEntry(i: nat, value: string)
    ensures var e := RegionVar(i) + "=" + value;
            && '=' in e && Key(e) == RegionVar(i) && Value(e) == value
            && IsRegionEntry(e) && Number(Key(e), REGION_PREFIX) == Itoa(i)
  {
    assert forall c | c in Itoa(i) :: IsDigit(c);
    EntryParts(RegionVar(i), value);
    assert RegionVar(i)[12..] == Itoa(i);
    UpToWithout(Itoa(i), REGION_PREFIX);
  }

  lemma AfuEntry(i: nat, value: string)
    ensures var e := AfuVar(i) + "=" + value;
            '=' in e && Key(e) == AfuVar(i) && Value(e) == value && IsAfuEntry(e) && Number(Key(e), AFU_PREFIX) == Itoa(i)
  {
    assert forall c | c in Itoa(i) :: IsDigit(c);
    EntryParts(AfuVar(i), value);
    assert AfuVar(i)[5] == 'A';
    assert AfuVar(i)[9..] == Itoa(i);
    UpToWithout(Itoa(i), AFU_PREFIX);
  }

  /** If every region entry agrees with `goal`, so does the parsed map; likewise for AFUs. */
  lemma {:induction false} ParseAgrees(entries: seq<string>, regions: map<string, string>, afus: map<string, string>)
    requires Readable(entries)
    requires forall e | e in entries && IsRegionEntry(e) :: RegionAgrees(e, regions)
    requires forall e | e in entries && IsAfuEntry(e) :: AfuAgrees(e, afus)
    ensures forall num | num in Parse(entries).regions :: num in regions && Parse(entries).regions[num] == regions[num]
    ensures forall num | num in Parse(entries).afus :: num in afus && Parse(entries).afus[num] == afus[num]
    ensures forall e | e in entries && IsRegionEntry(e) :: Number(Key(e), REGION_PREFIX) in Parse(entries).regions
    ensures forall e | e in entries && IsAfuEntry(e) :: Number(Key(e), AFU_PREFIX) in Parse(entries).afus
  {
    if entries == [] {
    } else {
      var front, last := entries[..|entries|-1], entries[|entries|-1];
      assert entries == front + [last];
      ParseAgrees(front, regions, afus);
    }
  }

  predicate RegionAgrees(e: string, goal: map<string, string>)
    requires IsRegionEntry(e)
  {
    var num := Number(Key(e), REGION_PREFIX);
    '=' in e && num in goal && CanonizeID(Value(e)) == goal[num]
  }

  predicate AfuAgrees(e: string, goal: map<string, string>)
    requires IsAfuEntry(e)
  {
    var num := Number(Key(e), AFU_PREFIX);
    '=' in e && num in goal && CanonizeID(Value(e)) == goal[num]
  }

  predicate CanonicalPairs(pairs: seq<(string, string)>) {
    forall p | p in pairs :: DevTypes.LowerHex(p.0) && DevTypes.LowerHex(p.1)
  }

  lemma RegionEntriesAgree(entries: seq<string>, pairs: seq<(string, string)>, env: seq<EnvVar>)
    requires pairs != [] && CanonicalPairs(pairs) && Carries(entries, PatchedEnv(pairs, env))
    ensures forall e | e in entries && IsRegionEntry(e) :: RegionAgrees(e, Numbered(Interfaces(pairs)))
  {
    forall e | e in entries && IsRegionEntry(e)
      ensures RegionAgrees(e, Numbered(Interfaces(pairs)))
    {
      var i := ReservedEntry(entries, pairs, env, e);
      RegionPairAgrees(pairs, i);
    }
  }

  lemma RegionPairAgrees(pairs: seq<(string, string)>, i: nat)
    requires 1 <= i <= |pairs| && CanonicalPairs(pairs)
    ensures var e := RegionVar(i) + "=" + pairs[i-1].0;
            '=' in e && IsRegionEntry(e) && RegionAgrees(e, Numbered(Interfaces(pairs)))
  {
    assert pairs[i-1] in pairs;
    RegionVarAgrees(Interfaces(pairs), i);
  }

  lemma AfuEntriesAgree(entries: seq<string>, pairs: seq<(string, string)>, env: seq<EnvVar>)
    requires pairs != [] && CanonicalPairs(pairs) && Carries(entries, PatchedEnv(pairs, env))
    ensures forall e | e in entries && IsAfuEntry(e) :: AfuAgrees(e, Numbered(Afus(pairs)))
  {
    forall e | e in entries && IsAfuEntry(e)
      ensures AfuAgrees(e, Numbered(Afus(pairs)))
    {
      var i := ReservedEntry(entries, pairs, env, e);
      AfuPairAgrees(pairs, i);
    }
  }

  lemma AfuPairAgrees(pairs: seq<(string, string)>, i: nat)
    requires 1 <= i <= |pairs| && CanonicalPairs(pairs)
    ensures var e := AfuVar(i) + "=" + pairs[i-1].1;
            '=' in e && IsAfuEntry(e) && AfuAgrees(e, Numbered(Afus(pairs)))
  {
    assert pairs[i-1] in pairs;
    AfuVarAgrees(Afus(pairs), i);
  }

  lemma RegionVarAgrees(values: seq<string>, i: nat)
    requires 1 <= i <= |values| && DevTypes.LowerHex(values[i-1])
    ensures var e := RegionVar(i) + "=" + values[i-1];
            '=' in e && IsRegionEntry(e) && RegionAgrees(e, Numbered(values))
  {
    CanonizeLowerHex(values[i-1]);
    RegionEntry(i, values[i-1]);
    NumberedAt(values, i);
  }

  lemma AfuVarAgrees(values: seq<string>, i: nat)
    requires 1 <= i <= |values| && DevTypes.LowerHex(values[i-1])
    ensures var e := AfuVar(i) + "=" + values[i-1];
            '=' in e && IsAfuEntry(e) && AfuAgrees(e, Numbered(values))
  {
    CanonizeLowerHex(values[i-1]);
    AfuEntry(i, values[i-1]);
    NumberedAt(values, i);
  }

  /** The hook reads exactly the pairs the webhook wrote, under their numbers. */
  lemma HookReadsPairs(entries: seq<string>, pairs: seq<(string, string)>, env: seq<EnvVar>)
    requires pairs != [] && CanonicalPairs(pairs) && Carries(entries, PatchedEnv(pairs, env))
    ensures Readable(entries)
    ensures Parse(entries) == Env(Numbered(Interfaces(pairs)), Numbered(Afus(pairs)))
  {
    RegionEntriesAgree(entries, pairs, env);
    AfuEntriesAgree(entries, pairs, env);
    ParseAgrees(entries, Numbered(Interfaces(pairs)), Numbered(Afus(pairs)));
    forall num | num in Numbered(Interfaces(pairs)) || num in Numbered(Afus(pairs))
      ensures num in Parse(entries).regions && num in Parse(entries).afus
    {
      var i: nat;
      if num in Numbered(Interfaces(pairs)) {
        i := NumberedKeys(Interfaces(pairs), num);
      } else {
        i := NumberedKeys(Afus(pairs), num);
      }
      VarsArrive(entries, pairs, env, i);
    }
  }

  lemma VarsArrive(entries: seq<string>, pairs: seq<(string, string)>, env: seq<EnvVar>, i: nat)
    requires pairs != [] && Carries(entries, PatchedEnv(pairs, env)) && 1 <= i <= |pairs|
    ensures var e := RegionVar(i) + "=" + pairs[i-1].0;
            e in entries && IsRegionEntry(e) && Number(Key(e), REGION_PREFIX) == Itoa(i)
    ensures var e := AfuVar(i) + "=" + pairs[i-1].1;
            e in entries && IsAfuEntry(e) && Number(Key(e), AFU_PREFIX) == Itoa(i)
  {
    GeneratedAt(pairs, i);
    PatchedReserved(pairs, env, RegionVar(i), pairs[i-1].0);
    PatchedReserved(pairs, env, AfuVar(i), pairs[i-1].1);
    assert EnvVar(RegionVar(i), pairs[i-1].0) in PatchedEnv(pairs, env);
    assert EnvVar(AfuVar(i), pairs[i-1].1) in PatchedEnv(pairs, env);
    RegionEntry(i, pairs[i-1].0);
    AfuEntry(i, pairs[i-1].1);
  }

  /** "1", "2", ..., `n`. */
  function Numbers(n: nat): (r: seq<string>)
    ensures |r| == n
  {
    seq(n, i requires 0 <= i < n => Itoa(i + 1))
  }

  lemma NumbersDistinct(n: nat)
    ensures Distinct(Numbers(n))
  {
    forall i, j | 0 <= i < j < n
      ensures Numbers(n)[i] != Numbers(n)[j]
    {
      if Itoa(i + 1) == Itoa(j + 1) { ItoaInjective(i + 1, j + 1); }
    }
  }

  lemma NumbersMembers(values: seq<string>, num: string)
    ensures num in Numbers(|values|) <==> num in Numbered(values)
  {
    if num in Numbered(values) {
      var i := NumberedKeys(values, num);
      HasNumber(|values|, i);
    } else if num in Numbers(|values|) {
      var i := WhichNumber(|values|, num);
      NumberedAt(values, i);
    }
  }

  lemma HasNumber(n: nat, i: nat)
    requires 1 <= i <= n
    ensures Itoa(i) in Numbers(n)
  {
    assert Numbers(n)[i-1] == Itoa(i);
  }

  lemma WhichNumber(n: nat, num: string) returns (i: nat)
    requires num in Numbers(n)
    ensures 1 <= i <= n && num == Itoa(i)
  {
    var k :| 0 <= k < n && Numbers(n)[k] == num;
    i := k + 1;
  }

  lemma NumbersEnumerate(values: seq<string>)
    ensures Enumerates(Numbers(|values|), Numbered(values).Keys)
  {
    NumbersDistinct(|values|);
    forall num
      ensures num in Elements(Numbers(|values|)) <==> num in Numbered(values).Keys
    {
      NumbersMembers(values, num);
    }
  }

  /** Whatever the hook returns for the environment the webhook wrote, it is exactly the
      multiset of requested pairs, each on a port of its own interface. */
  lemma HookRoundTrip(entries: seq<string>, pairs: seq<(string, string)>, env: seq<EnvVar>,
                      devices: seq<Device>, order: seq<string>)
    requires pairs != [] && CanonicalPairs(pairs) && Carries(entries, PatchedEnv(pairs, env))
    requires Readable(entries) && Complete(Parse(entries), devices)
    requires Enumerates(order, Parse(entries).regions.Keys)
    ensures var params := ParamsFor(Parse(entries), devices, order);
            && multiset(MapSeq(params, (p: Params) => (p.region, p.afu))) == multiset(pairs)
            && forall p | p in params ::
                 exists i: nat :: IsFirstPort(devices, p.region, i) && devices[i].name == p.portDevice
  {
    HookReadsPairs(entries, pairs, env);
    ParamsArePairs(Parse(entries), pairs, devices, order);
    forall p | p in ParamsFor(Parse(entries), devices, order)
      ensures exists i: nat :: IsFirstPort(devices, p.region, i) && devices[i].name == p.portDevice
    {
      var params := ParamsFor(Parse(entries), devices, order);
      var i :| 0 <= i < |order| && params[i] == p;
      assert order[i] in Elements(order);
      FindPortExactly(devices, p.region);
    }
  }

  lemma ParamsArePairs(parsed: Env, pairs: seq<(string, string)>, devices: seq<Device>,
                                          order: seq<string>)
    requires parsed == Env(Numbered(Interfaces(pairs)), Numbered(Afus(pairs))) && Complete(parsed, devices)
    requires Enumerates(order, parsed.regions.Keys)
    ensures var params := ParamsFor(parsed, devices, order);
            multiset(MapSeq(params, (p: Params) => (p.region, p.afu))) == multiset(pairs)
  {
    var paramsOf := num => ParamsOf(parsed, devices, num);
    var pairOf := (p: Params) => (p.region, p.afu);
    var both := num => pairOf(paramsOf(num));
    assert MapSeq(ParamsFor(parsed, devices, order), pairOf) == MapSeq(order, both);
    var nums := Numbers(|pairs|);
    NumbersEnumerate(Interfaces(pairs));
    MapIgnoresOrder(order, nums, both);
    forall i | 0 <= i < |pairs|
      ensures both(nums[i]) == pairs[i]
    {
      ParamsOfNumber(parsed, pairs, devices, i);
    }
    assert MapSeq(nums, both) == pairs;
  }

  /** The entry of a requested pair. */
  function EntryFor(devices: seq<Device>, pair: (string, string)): Params {
    Params(pair.0, pair.1, PortName(devices, pair.0))
  }

  lemma ParamsOfNumber(parsed: Env, pairs: seq<(string, string)>, devices: seq<Device>, i: nat)
    requires parsed == Env(Numbered(Interfaces(pairs)), Numbered(Afus(pairs))) && Complete(parsed, devices)
    requires i < |pairs|
    ensures ParamsOf(parsed, devices, Numbers(|pairs|)[i]) == EntryFor(devices, pairs[i])
  {
    NumberedAt(Interfaces(pairs), i + 1);
    NumberedAt(Afus(pairs), i + 1);
  }

  predicate DistinctNames(devices: seq<Device>) {
    forall i, j | 0 <= i < j < |devices| :: devices[i].name != devices[j].name
  }

  /** Different interfaces get different ports; of one interface it is always the first port. */
  lemma PortDeterminesRegion(devices: seq<Device>, x: string, y: string)
    requires DistinctNames(devices) && HasPort(devices, x) && HasPort(devices, y)
    ensures PortName(devices, x) == PortName(devices, y) <==> x == y
  {
    FoundPortFits(devices, x);
    FoundPortFits(devices, y);
    var d :| d in devices && d.isPort && d.port == Ok(x) && d.name == PortName(devices, x);
    var e :| e in devices && e.isPort && e.port == Ok(y) && e.name == PortName(devices, y);
    if d.name == e.name {
      var i :| 0 <= i < |devices| && devices[i] == d;
      var j :| 0 <= j < |devices| && devices[j] == e;
      assert i == j;
    }
  }

  /** No two entries name the same port. */
  predicate DistinctPorts(params: seq<Params>) {
    forall i, j | 0 <= i < j < |params| :: params[i].portDevice != params[j].portDevice
  }

  predicate Injective(m: map<string, string>) { forall a, b | a in m && b in m && m[a] == m[b] :: a == b }

  /** The entries the hook returns have ports of their own if and only if the requested
      interfaces are all different: two devices of one interface share a port. */
  lemma PortsDistinctExactly(entries: seq<string>, pairs: seq<(string, string)>, env: seq<EnvVar>,
                             devices: seq<Device>, order: seq<string>)
    requires pairs != [] && CanonicalPairs(pairs) && Carries(entries, PatchedEnv(pairs, env))
    requires Readable(entries) && Complete(Parse(entries), devices) && DistinctNames(devices)
    requires Enumerates(order, Parse(entries).regions.Keys)
    ensures DistinctPorts(ParamsFor(Parse(entries), devices, order)) <==> Distinct(Interfaces(pairs))
  {
    HookReadsPairs(entries, pairs, env);
    NumberedInjective(Interfaces(pairs));
    PortsFollowRegions(Parse(entries), devices, order);
  }

  /** The container's process sees every variable as `name=value`. */
  function Environment(env: seq<EnvVar>): (r: seq<string>)
    ensures |r| == |env|
  {
    seq(|env|, i requires 0 <= i < |env| => env[i].name + "=" + env[i].value)
  }

  lemma EnvironmentCarries(env: seq<EnvVar>)
    ensures Carries(Environment(env), env)
  {
    var entries := Environment(env);
    forall v | v in env
      ensures v.name + "=" + v.value in entries
    {
      var i :| 0 <= i < |env| && env[i] == v;
      assert entries[i] == v.name + "=" + v.value;
    }
    forall e | e in entries
      ensures exists v | v in env :: e == v.name + "=" + v.value
    {
      var i :| 0 <= i < |entries| && entries[i] == e;
      assert env[i] in env;
    }
  }

  /** The pairs have ports, so for their environment the hook has nothing to complain about, and
      taking the numbers in ascending order it lists the pairs as they were requested. */
  lemma EnvironmentComplete(pairs: seq<(string, string)>, env: seq<EnvVar>, devices: seq<Device>)
    requires pairs != [] && CanonicalPairs(pairs) && HavePorts(devices, pairs)
    ensures var entries := Environment(PatchedEnv(pairs, env));
            && Carries(entries, PatchedEnv(pairs, env)) && Readable(entries) && Complete(Parse(entries), devices)
            && Enumerates(Numbers(|pairs|), Parse(entries).regions.Keys)
            && AsRequested(ParamsFor(Parse(entries), devices, Numbers(|pairs|)), devices, pairs)
  {
    EnvironmentCarries(PatchedEnv(pairs, env));
    HookReadsPairs(Environment(PatchedEnv(pairs, env)), pairs, env);
    NumberedComplete(pairs, devices);
  }

  predicate HavePorts(devices: seq<Device>, pairs: seq<(string, string)>) {
    forall p | p in pairs :: HasPort(devices, p.0)
  }

  predicate AsRequested(list: seq<Params>, devices: seq<Device>, pairs: seq<(string, string)>) {
    |list| == |pairs| && forall i | 0 <= i < |pairs| :: list[i] == EntryFor(devices, pairs[i])
  }

  lemma NumberedComplete(pairs: seq<(string, string)>, devices: seq<Device>)
    requires pairs != [] && HavePorts(devices, pairs)
    ensures var parsed := Env(Numbered(Interfaces(pairs)), Numbered(Afus(pairs)));
            && Complete(parsed, devices) && Enumerates(Numbers(|pairs|), parsed.regions.Keys)
            && AsRequested(ParamsFor(parsed, devices, Numbers(|pairs|)), devices, pairs)
  {
    var parsed := Env(Numbered(Interfaces(pairs)), Numbered(Afus(pairs)));
    NumberedAt(Interfaces(pairs), 1);
    NumberedAt(Afus(pairs), 1);
    forall num | num in parsed.regions
      ensures num in parsed.afus && HasPort(devices, parsed.regions[num])
    {
      var i := NumberedKeys(Interfaces(pairs), num);
      NumberedAt(Interfaces(pairs), i);
      NumberedAt(Afus(pairs), i);
      assert pairs[i-1] in pairs;
    }
    NumbersEnumerate(Interfaces(pairs));
    forall i | 0 <= i < |pairs|
      ensures ParamsOf(parsed, devices, Numbers(|pairs|)[i]) == EntryFor(devices, pairs[i])
    {
      ParamsOfNumber(parsed, pairs, devices, i);
    }
  }

  /** A pair requested twice gets two entries with one port. */
  lemma SharedPort(pair: (string, string), env: seq<EnvVar>, devices: seq<Device>)
    requires CanonicalPairs([pair]) && HavePorts(devices, [pair])
    ensures var entries := Environment(PatchedEnv([pair, pair], env));
            && Readable(entries) && Complete(Parse(entries), devices)
            && Enumerates(Numbers(2), Parse(entries).regions.Keys)
            && var list := ParamsFor(Parse(entries), devices, Numbers(2));
               list == [EntryFor(devices, pair), EntryFor(devices, pair)] && !DistinctPorts(list)
  {
    var pairs := [pair, pair];
    assert pair in [pair];
    assert forall p | p in pairs :: p == pair;
    EnvironmentComplete(pairs, env, devices);
    var list := ParamsFor(Parse(Environment(PatchedEnv(pairs, env))), devices, Numbers(2));
    assert list[0] == EntryFor(devices, pairs[0]) && list[1] == EntryFor(devices, pairs[1]);
  }

  lemma PortsFollowRegions(parsed: Env, devices: seq<Device>, order: seq<string>)
    requires Complete(parsed, devices) && DistinctNames(devices) && Enumerates(order, parsed.regions.Keys)
    ensures DistinctPorts(ParamsFor(parsed, devices, order)) <==> Injective(parsed.regions)
  {
    var params := ParamsFor(parsed, devices, order);
    assert forall i | 0 <= i < |order| :: order[i] in Elements(order);
    forall i, j | 0 <= i < j < |order|
      ensures params[i].portDevice == params[j].portDevice <==> parsed.regions[order[i]] == parsed.regions[order[j]]
    {
      PortDeterminesRegion(devices, parsed.regions[order[i]], parsed.regions[order[j]]);
    }
    if DistinctPorts(params) {
      forall a, b | a in parsed.regions && b in parsed.regions && parsed.regions[a] == parsed.regions[b]
        ensures a == b
      {
        assert a in Elements(order) && b in Elements(order);
        var i :| 0 <= i < |order| && order[i] == a;
        var j :| 0 <= j < |order| && order[j] == b;
        assert !(i < j) && !(j < i);
      }
    }
  }

  lemma NumberedApart(values: seq<string>, i: nat, j: nat)
    requires i < j < |values| && Injective(Numbered(values))
    ensures values[i] != values[j]
  {
    NumberedAt(values, i + 1);
    NumberedAt(values, j + 1);
    DifferentNumbers(i + 1, j + 1);
    DifferentValues(Numbered(values), Itoa(i + 1), Itoa(j + 1));
  }

  lemma DifferentNumbers(a: nat, b: nat)
    requires a != b
    ensures Itoa(a) != Itoa(b)
  {
    if Itoa(a) == Itoa(b) { ItoaInjective(a, b); }
  }

  lemma DifferentValues(m: map<string, string>, a: string, b: string)
    requires Injective(m) && a in m && b in m && a != b
    ensures m[a] != m[b]
  {
  }

  lemma NumberedInjective(values: seq<string>)
    ensures Injective(Numbered(values)) <==> Distinct(values)
  {
    var m := Numbered(values);
    if Injective(m) {
      forall i, j | 0 <= i < j < |values|
        ensures values[i] != values[j]
      {
        NumberedApart(values, i, j);
      }
    } else {
      var a, b :| a in m && b in m && m[a] == m[b] && a != b;
      var i := NumberedKeys(values, a);
      var j := NumberedKeys(values, b);
      NumberedAt(values, i);
      NumberedAt(values, j);
      assert values[i-1] == values[j-1] && i != j;
    }
  }

  /** How many devices with this pair one requested name asks for. */
  ghost function PairShare(s: State, req: map<string, Int64>, pair: (string, string), r: string): int {
    if r in req && r in s.modeMap && s.modeMap[r] == REGION && r in s.afMap &&
       (s.afMap[r].interfaceID, s.afMap[r].afuID) == pair && req[r] > 0
    then req[r] else 0
  }

  lemma {:induction false} PairsCount(s: State, req: map<string, Int64>, order: seq<string>, pair: (string, string))
    requires Distinct(order)
    ensures multiset(Pairs(s, req, order))[pair] == SumOver(Elements(order), r => PairShare(s, req, pair, r))
  {
    if order == [] {
    } else {
      var front, last := order[..|order|-1], order[|order|-1];
      PairsCount(s, req, front, pair);
      SumRemove(Elements(order), r => PairShare(s, req, pair, r), last);
      assert Elements(order) - {last} == Elements(front);
      PairsOfCount(s, req, last, pair);
      assert multiset(Pairs(s, req, order)) == multiset(Pairs(s, req, front)) + multiset(PairsOf(s, req, last));
    }
  }

  lemma PairsOfCount(s: State, req: map<string, Int64>, r: string, pair: (string, string))
    ensures multiset(PairsOf(s, req, r))[pair] == PairShare(s, req, pair, r)
  {
    if PairsOf(s, req, r) != [] {
      RepeatCount((s.afMap[r].interfaceID, s.afMap[r].afuID), req[r], pair);
    }
  }

  lemma {:induction false} RepeatCount<T>(x: T, n: int, y: T)
    requires n >= 0
    ensures multiset(Repeat(x, n))[y] == if x == y then n else 0
    decreases n
  {
    if n > 0 {
      RepeatCount(x, n - 1, y);
      assert Repeat(x, n) == Repeat(x, n - 1) + [x];
    }
  }

  /** From request to hook: the list of things to program has, for every (interface, AFU) pair,
      as many entries as the container requested devices of names registered with that pair. */
  lemma WebhookToHook(s: State, c: Container, order: seq<string>, entries: seq<string>,
                      devices: seq<Device>, hookOrder: seq<string>, pair: (string, string))
    requires Resolvable(s, c, order) && ContainerPairs(s, c, order) != []
    requires CanonicalPairs(ContainerPairs(s, c, order))
    requires Carries(entries, Patched(s, c, order).env)
    requires Readable(entries) && Complete(Parse(entries), devices)
    requires Enumerates(hookOrder, Parse(entries).regions.Keys)
    ensures var params := ParamsFor(Parse(entries), devices, hookOrder);
            multiset(MapSeq(params, (p: Params) => (p.region, p.afu)))[pair] ==
            SumOver(Requested(c, NAMESPACE).Keys, r => PairShare(s, Requested(c, NAMESPACE), pair, r))
  {
    HookRoundTrip(entries, ContainerPairs(s, c, order), c.env, devices, hookOrder);
    PairsCount(s, Requested(c, NAMESPACE), order, pair);
  }
}
