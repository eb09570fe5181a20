/** NUMA topology hints from sysfs (pkg/topology/topology.go). */
module Topology {
  import opened Common
  import opened Sorting
  import opened Text

  /** An absolute path as its components. */
  type Path = seq<string>

  const SYS_DEVICES: Path := ["sys", "devices"]

  /** The path starts with "/sys/devices/". */
  predicate InSysDevices(p: Path) { SYS_DEVICES <= p && |p| > 2 }

  function Dir(p: Path): Path
    requires p != []
  {
    p[..|p|-1]
  }

  /** What reading a sysfs file gives. */
  datatype FileRead = Missing | Text(text: string) | Unreadable

  /** The parts of sysfs the hints depend on: resolved symbolic links, two files per directory,
      and the devices a device is made of (its slaves, then the members of its IOMMU group). */
  datatype Sysfs = Sysfs(
    links: map<Path, Path>,
    localCpulist: map<Path, FileRead>,
    numaNode: map<Path, FileRead>,
    slaves: map<Path, seq<Path>>,
    iommuGroup: map<Path, seq<Path>>)

  function FileAt(files: map<Path, FileRead>, p: Path): FileRead { if p in files then files[p] else Missing }

  function Contents(f: FileRead): string { if f.Text? then TrimSpace(f.text) else "" }

  function Members(fs: Sysfs, p: Path): seq<Path> {
    (if p in fs.slaves then fs.slaves[p] else []) + (if p in fs.iommuGroup then fs.iommuGroup[p] else [])
  }

  /** Going to the parent directory or to a member leads to a lower rank. */
  ghost predicate Descends(fs: Sysfs, rank: Path -> nat) {
    && (forall p | InSysDevices(p) :: rank(Dir(p)) < rank(p))
    && (forall p | InSysDevices(p) && Dir(p) in fs.links :: rank(fs.links[Dir(p)]) < rank(p))
    && (forall p, d | d in Members(fs, p) && d in fs.links :: rank(fs.links[d]) < rank(p))
  }

  /** A point of the computation: the branches taken by the calls that lead to it. */
  type Visit = seq<nat>

  /** The order in which a Go map of the given keys is listed at a point of the computation; the
      same keys may come in another order at another point. */
  type Listing = (Visit, set<string>) -> seq<string>

  ghost predicate IsListing(listing: Listing) { forall v, s :: Enumerates(listing(v, s), s) }

  datatype Hint = Hint(provider: Path, cpus: string, numas: string, sockets: string)

  type Hints = map<Path, Hint>

  predicate IsEmpty(h: Hint) { h.cpus == "" && h.numas == "" && h.sockets == "" }

  /** `MergeTopologyHints`: hints already there win. */
  function Merge(org: Hints, more: Hints): Hints { more + org }

  // ------------------------------------------------------------ specification

  function CpuTexts(hs: Hints): set<string> { set k | k in hs && hs[k].cpus != "" :: hs[k].cpus }

  function NumaTexts(hs: Hints): set<string> { set k | k in hs && hs[k].numas != "" :: hs[k].numas }

  /** A NUMA node without CPUs is taken over by the parent's hints, or else counts as a socket. */
  function Repair(p: Path, numas: string, parent: Result<Hints>, listing: Listing, v: Visit): Hint {
    var cpus := if parent.Ok? then Join(listing(v + [0], CpuTexts(parent.value)), ",") else "";
    var parentNumas := if parent.Ok? then Join(listing(v + [1], NumaTexts(parent.value)), ",") else "";
    var numas' := if parentNumas != "" then parentNumas else numas;
    if cpus == "" then Hint(p, "", "", numas') else Hint(p, cpus, numas', "")
  }

  function RankOf(fs: Sysfs, rank: Path -> nat, dev: Path): nat {
    if dev in fs.links then rank(fs.links[dev]) else 0
  }

  function HintAt(fs: Sysfs, listing: Listing, rank: Path -> nat, v: Visit, p: Path): Result<Hint>
    requires Descends(fs, rank) && InSysDevices(p)
    decreases rank(p), 1, 0
  {
    var cpuFile, numaFile := FileAt(fs.localCpulist, p), FileAt(fs.numaNode, p);
    if cpuFile.Unreadable? || numaFile.Unreadable? then Err("unable to read file")
    else
      var cpus, numas := Contents(cpuFile), Contents(numaFile);
      if numas == "-1" then Ok(Hint(p, cpus, "", ""))
      else if numas != "" && cpus == "" then
        assert rank(Dir(p)) < rank(p);
        Ok(Repair(p, numas, HintsOf(fs, listing, rank, v + [2], Dir(p)), listing, v))
      else Ok(Hint(p, cpus, numas, ""))
  }

  /** The first non-empty hint on the way up. */
  function Climb(fs: Sysfs, listing: Listing, rank: Path -> nat, v: Visit, p: Path): Result<Hints>
    requires Descends(fs, rank)
    decreases rank(p), 2, 0
  {
    if !InSysDevices(p) then Ok(map[])
    else
      match HintAt(fs, listing, rank, v + [0], p)
      case Err(m) => Err(m)
      case Ok(h) =>
        assert rank(Dir(p)) < rank(p);
        if IsEmpty(h) then Climb(fs, listing, rank, v + [1], Dir(p)) else Ok(map[h.provider := h])
  }

  /** Adds the hints of the given members of `p`. */
  function AddMembers(fs: Sysfs, listing: Listing, rank: Path -> nat, v: Visit, p: Path, members: seq<Path>,
                      hints: Hints): Result<Hints>
    requires Descends(fs, rank) && forall d | d in members :: d in Members(fs, p)
    decreases rank(p), 2, |members|
  {
    if members == [] then Ok(hints)
    else if members[0] !in fs.links then Err("failed get realpath")
    else
      assert members[0] in members;
      match HintsOf(fs, listing, rank, v + [0], members[0])
      case Err(m) => Err(m)
      case Ok(more) => AddMembers(fs, listing, rank, v + [1], p, members[1..], Merge(hints, more))
  }

  function HintsOf(fs: Sysfs, listing: Listing, rank: Path -> nat, v: Visit, dev: Path): Result<Hints>
    requires Descends(fs, rank)
    decreases RankOf(fs, rank, dev), 3, 0
  {
    if dev !in fs.links then Err("failed get realpath")
    else
      var p := fs.links[dev];
      match Climb(fs, listing, rank, v + [0], p)
      case Err(m) => Err(m)
      case Ok(hints) => AddMembers(fs, listing, rank, v + [1], p, Members(fs, p), hints)
  }

  // ---------------------------------------------------------------- soundness

  /** The hint names its directory, says something, gives NUMA nodes only together with CPUs,
      and sockets only instead of both. */
  predicate Sound(k: Path, h: Hint) {
    && h.provider == k && !IsEmpty(h)
    && (h.numas != "" ==> h.cpus != "")
    && (h.sockets != "" ==> h.cpus == "" && h.numas == "")
  }

  predicate AllSound(hs: Hints) { forall k | k in hs :: Sound(k, hs[k]) }

  lemma {:induction false} ClimbSound(fs: Sysfs, listing: Listing, rank: Path -> nat, v: Visit, p: Path)
    requires Descends(fs, rank)
    ensures var r := Climb(fs, listing, rank, v, p); r.Ok? ==> AllSound(r.value)
    decreases rank(p), 2, 0
  {
    if InSysDevices(p) {
      assert rank(Dir(p)) < rank(p);
      ClimbSound(fs, listing, rank, v + [1], Dir(p));
    }
  }

  lemma {:induction false} MembersSound(fs: Sysfs, listing: Listing, rank: Path -> nat, v: Visit, p: Path, members: seq<Path>,
                                        hints: Hints)
    requires Descends(fs, rank) && (forall d | d in members :: d in Members(fs, p)) && AllSound(hints)
    ensures var r := AddMembers(fs, listing, rank, v, p, members, hints); r.Ok? ==> AllSound(r.value)
    decreases rank(p), 2, |members|
  {
    if members != [] && members[0] in fs.links {
      assert members[0] in members;
      HintsSound(fs, listing, rank, v + [0], members[0]);
      match HintsOf(fs, listing, rank, v + [0], members[0])
      case Err(_) =>
      case Ok(more) => MembersSound(fs, listing, rank, v + [1], p, members[1..], Merge(hints, more));
    }
  }

  /** No hint ever has NUMA nodes but no CPUs, whatever sysfs reports. */
  lemma {:induction false} HintsSound(fs: Sysfs, listing: Listing, rank: Path -> nat, v: Visit, dev: Path)
    requires Descends(fs, rank)
    ensures var r := HintsOf(fs, listing, rank, v, dev); r.Ok? ==> AllSound(r.value)
    decreases RankOf(fs, rank, dev), 3, 0
  {
    if dev in fs.links {
      var p := fs.links[dev];
      ClimbSound(fs, listing, rank, v + [0], p);
      match Climb(fs, listing, rank, v + [0], p)
      case Err(_) =>
      case Ok(hints) => MembersSound(fs, listing, rank, v + [1], p, Members(fs, p), hints);
    }
  }

  // ------------------------------------------------------------------ methods

  method GetTopologyHint(fs: Sysfs, listing: Listing, ghost rank: Path -> nat, v: Visit, p: Path) returns (r: Result<Hint>)
    requires Descends(fs, rank) && InSysDevices(p)
    ensures r == HintAt(fs, listing, rank, v, p)
    decreases rank(p), 1
  {
    var cpuFile, numaFile := FileAt(fs.localCpulist, p), FileAt(fs.numaNode, p);
    if cpuFile.Unreadable? || numaFile.Unreadable? { return Err("unable to read file"); }
    var hint := Hint(p, Contents(cpuFile), Contents(numaFile), "");
    if hint.numas == "-1" { hint := hint.(numas := ""); }
    if hint.numas != "" && hint.cpus == "" {
      assert rank(Dir(p)) < rank(p);
      var parentHints := NewTopologyHints(fs, listing, rank, v + [2], Dir(p));
      if parentHints.Ok? {
        var cpulist, numalist := CollectTexts(parentHints.value);
        var cpus := Join(listing(v + [0], cpulist), ",");
        if cpus != "" { hint := hint.(cpus := cpus); }
        var numas := Join(listing(v + [1], numalist), ",");
        if numas != "" { hint := hint.(numas := numas); }
      }
      if hint.cpus == "" && hint.numas != "" {
        hint := hint.(sockets := hint.numas, numas := "");
      }
    }
    return Ok(hint);
  }

  method CollectTexts(hints: Hints) returns (cpulist: set<string>, numalist: set<string>)
    ensures cpulist == CpuTexts(hints) && numalist == NumaTexts(hints)
  {
    cpulist, numalist := {}, {};
    var todo := hints.Keys;
    while todo != {}
      invariant todo <= hints.Keys
      invariant cpulist == set k | k in hints && k !in todo && hints[k].cpus != "" :: hints[k].cpus
      invariant numalist == set k | k in hints && k !in todo && hints[k].numas != "" :: hints[k].numas
      decreases todo
    {
      var k :| k in todo;
      todo := todo - {k};
      if hints[k].cpus != "" { cpulist := cpulist + {hints[k].cpus}; }
      if hints[k].numas != "" { numalist := numalist + {hints[k].numas}; }
    }
  }

  method NewTopologyHints(fs: Sysfs, listing: Listing, ghost rank: Path -> nat, v: Visit, dev: Path)
    returns (r: Result<Hints>)
    requires Descends(fs, rank)
    ensures r == HintsOf(fs, listing, rank, v, dev)
    decreases RankOf(fs, rank, dev), 3
  {
    if dev !in fs.links { return Err("failed get realpath"); }
    var realDevPath := fs.links[dev];
    var own := OwnHints(fs, listing, rank, v + [0], realDevPath);
    if own.Err? { return own; }
    r := MemberHints(fs, listing, rank, v + [1], realDevPath, own.value);
  }

  /** The loop towards the root. */
  method OwnHints(fs: Sysfs, listing: Listing, ghost rank: Path -> nat, v: Visit, start: Path) returns (r: Result<Hints>)
    requires Descends(fs, rank)
    ensures r == Climb(fs, listing, rank, v, start)
    decreases rank(start), 2
  {
    var p, at := start, v;
    while InSysDevices(p)
      invariant rank(p) <= rank(start)
      invariant Climb(fs, listing, rank, v, start) == Climb(fs, listing, rank, at, p)
      decreases rank(p)
    {
      var hint := GetTopologyHint(fs, listing, rank, at + [0], p);
      if hint.Err? { return Err(hint.message); }
      if hint.value.cpus != "" || hint.value.numas != "" || hint.value.sockets != "" {
        return Ok(map[hint.value.provider := hint.value]);
      }
      assert rank(Dir(p)) < rank(p);
      p, at := Dir(p), at + [1];
    }
    return Ok(map[]);
  }

  /** The loop over slaves and IOMMU group members. */
  method MemberHints(fs: Sysfs, listing: Listing, ghost rank: Path -> nat, v: Visit, p: Path, start: Hints)
    returns (r: Result<Hints>)
    requires Descends(fs, rank)
    ensures r == AddMembers(fs, listing, rank, v, p, Members(fs, p), start)
    decreases rank(p), 2
  {
    var members, hints, at := Members(fs, p), start, v;
    for i := 0 to |members|
      invariant AddMembers(fs, listing, rank, v, p, members, start)
             == AddMembers(fs, listing, rank, at, p, members[i..], hints)
    {
      assert members[i] in members && members[i..][0] == members[i] && members[i..][1..] == members[i+1..];
      if members[i] !in fs.links { return Err("failed get realpath"); }
      var more := NewTopologyHints(fs, listing, rank, at + [0], members[i]);
      if more.Err? { return more; }
      hints, at := Merge(hints, more.value), at + [1];
    }
    return Ok(hints);
  }

  // ------------------------------------------------------------ NUMA node ids

  /** `strconv.ParseInt(s, 10, 64)`. */
  function ParseInt(s: string): Option<int> {
    var negative := s != [] && s[0] == '-';
    var digits := if s != [] && (s[0] == '-' || s[0] == '+') then s[1..] else s;
    if digits == [] || !AllDigits(digits) then None
    else
      var n: int := if negative then 0 - Atoi(digits) as int else Atoi(digits);
      if -0x8000_0000_0000_0000 <= n < 0x8000_0000_0000_0000 then Some(n) else None
  }

  function NodeId(token: string): Option<int> { ParseInt(TrimSpace(token)) }

  predicate IsNode(token: string) { NodeId(token).Some? && NodeId(token).value >= 0 }

  predicate IsMalformed(token: string) { NodeId(token).None? }

  predicate IsNegative(token: string) { NodeId(token).Some? && NodeId(token).value < 0 }

  /** The comma-separated parts of a hint's NUMA list. */
  function Tokens(h: Hint): seq<string> { if h.numas == "" then [] else Split(h.numas, ',') }

  ghost function HintTokens(hs: Hints): set<string> { set k, t | k in hs && t in Tokens(hs[k]) :: t }

  /** What looking up a device node in sysfs gave: an error, nothing, or a path. */
  type Lookup = Result<Option<Path>>

  /** The device exists and its hints can be read. */
  predicate Resolves(fs: Sysfs, listing: Listing, rank: Path -> nat, v: Visit, dev: Lookup)
    requires Descends(fs, rank)
  {
    dev.Ok? && dev.value.Some? && HintsOf(fs, listing, rank, v, dev.value.value).Ok?
  }

  ghost function DeviceTokens(fs: Sysfs, listing: Listing, rank: Path -> nat, v: Visit, dev: Lookup): set<string>
    requires Descends(fs, rank)
  {
    if Resolves(fs, listing, rank, v, dev) then HintTokens(HintsOf(fs, listing, rank, v, dev.value.value).value) else {}
  }

  /** All parts of the NUMA lists of the devices. */
  ghost function AllTokens(fs: Sysfs, listing: Listing, rank: Path -> nat, devs: seq<Lookup>): set<string>
    requires Descends(fs, rank)
  {
    if devs == [] then {}
    else
      var last := |devs| - 1;
      AllTokens(fs, listing, rank, devs[..last]) + DeviceTokens(fs, listing, rank, [last], devs[last])
  }

  predicate AllNodes(tokens: set<string>) { forall t | t in tokens :: IsNode(t) }

  /** The node ids written in the parts. */
  ghost function Ids(tokens: set<string>): set<int> { set t | t in tokens && IsNode(t) :: NodeId(t).value }

  ghost predicate AllResolve(fs: Sysfs, listing: Listing, rank: Path -> nat, devs: seq<Lookup>)
    requires Descends(fs, rank)
  {
    forall i | 0 <= i < |devs| :: Resolves(fs, listing, rank, [i], devs[i])
  }

  /** Every device resolves and every part of its NUMA lists is a node id. */
  ghost predicate Clean(fs: Sysfs, listing: Listing, rank: Path -> nat, devs: seq<Lookup>)
    requires Descends(fs, rank)
  {
    AllResolve(fs, listing, rank, devs) && AllNodes(AllTokens(fs, listing, rank, devs))
  }

  predicate StrictlyAscending(s: seq<int>) { forall i, j | 0 <= i < j < |s| :: s[i] < s[j] }

  /** A return value the Go code gives up with: an error, or neither result nor error. */
  type GiveUp = r: Result<Option<seq<int>>> | r.Ok? ==> r.value.None? witness Ok(None)

  /** Giving up has its cause in the parts: an error comes from one that is no number, and
      neither result nor error from a negative one. */
  ghost predicate Causes(tokens: set<string>, r: GiveUp) {
    if r.Err? then exists t | t in tokens :: IsMalformed(t) else exists t | t in tokens :: IsNegative(t)
  }

  lemma MoreCauses(tokens: set<string>, more: set<string>, r: GiveUp)
    requires Causes(tokens, r) && tokens <= more
    ensures Causes(more, r) && !AllNodes(more)
  {
    if r.Err? {
      var t :| t in tokens && IsMalformed(t);
      assert t in more && !IsNode(t);
    } else {
      var t :| t in tokens && IsNegative(t);
      assert t in more && !IsNode(t);
    }
  }

  /** The ids of `tokens` have been added to `start`. */
  ghost predicate Collected(start: seq<int>, tokens: set<string>, nodes: seq<int>) {
    AllNodes(tokens) && Distinct(nodes) && Elements(nodes) == Elements(start) + Ids(tokens)
  }

  /** One node id. Wrapping a nil error makes a negative id return neither a result nor an
      error. */
  method AddNode(t: string, start: seq<int>) returns (err: Option<GiveUp>, nodes: seq<int>)
    requires Distinct(start)
    ensures err.None? ==> Collected(start, {t}, nodes)
    ensures err.Some? ==> Causes({t}, err.value)
  {
    nodes := start;
    var id := NodeId(t);
    assert t in {t};
    if id.None? { return Some(Err("unable to convert numa node")), nodes; }
    if id.value < 0 { return Some(Ok(None)), nodes; }
    assert Ids({t}) == {id.value};
    if id.value !in start {
      assert Elements(start + [id.value]) == Elements(start) + {id.value};
      nodes := start + [id.value];
    }
    err := None;
  }

  /** One NUMA list: `nodes` grows by the ids in it that are new. */
  method AddNodes(h: Hint, start: seq<int>) returns (err: Option<GiveUp>, nodes: seq<int>)
    requires Distinct(start)
    ensures err.None? ==> Collected(start, Elements(Tokens(h)), nodes)
    ensures err.Some? ==> Causes(Elements(Tokens(h)), err.value)
  {
    nodes := start;
    var tokens := Tokens(h);
    ghost var done: set<string> := {};
    for i := 0 to |tokens|
      invariant done == Elements(tokens[..i]) && Collected(start, done, nodes)
    {
      assert tokens[i] in Elements(tokens);
      assert Elements(tokens[..i+1]) == done + {tokens[i]};
      err, nodes := AddNode(tokens[i], nodes);
      if err.Some? {
        MoreCauses({tokens[i]}, Elements(tokens), err.value);
        return;
      }
      done := done + {tokens[i]};
    }
    assert tokens[..|tokens|] == tokens;
    err := None;
  }

  ghost function TokensOf(hs: Hints, keys: set<Path>): set<string> {
    set k, t | k in keys && k in hs && t in Tokens(hs[k]) :: t
  }

  /** The loop over the hints of one device. */
  method AddHints(hs: Hints, start: seq<int>) returns (err: Option<GiveUp>, nodes: seq<int>)
    requires Distinct(start)
    ensures err.None? ==> Collected(start, HintTokens(hs), nodes)
    ensures err.Some? ==> Causes(HintTokens(hs), err.value)
  {
    nodes := start;
    var todo := hs.Keys;
    ghost var done: set<Path> := {};
    assert TokensOf(hs, hs.Keys) == HintTokens(hs);
    assert TokensOf(hs, {}) == {};
    while todo != {}
      invariant done + todo == hs.Keys && done !! todo
      invariant Collected(start, TokensOf(hs, done), nodes)
      decreases todo
    {
      var k :| k in todo;
      todo := todo - {k};
      err, nodes := AddNodes(hs[k], nodes);
      if err.Some? {
        MoreCauses(Elements(Tokens(hs[k])), HintTokens(hs), err.value);
        return;
      }
      done := done + {k};
    }
    assert done == hs.Keys;
    err := None;
  }

  /** The loop body for one device. */
  method AddDevice(fs: Sysfs, listing: Listing, ghost rank: Path -> nat, v: Visit, dev: Lookup, start: seq<int>)
    returns (err: Option<GiveUp>, nodes: seq<int>)
    requires Descends(fs, rank) && Distinct(start)
    ensures err.None? ==> Resolves(fs, listing, rank, v, dev) &&
                          Collected(start, DeviceTokens(fs, listing, rank, v, dev), nodes)
    ensures err.Some? ==>
              if Resolves(fs, listing, rank, v, dev) then Causes(DeviceTokens(fs, listing, rank, v, dev), err.value)
              else err.value.Err?
  {
    nodes := start;
    if dev.Err? { return Some(Err(dev.message)), nodes; }
    if dev.value.None? { return Some(Err("device doesn't exist")), nodes; }
    var hints := NewTopologyHints(fs, listing, rank, v, dev.value.value);
    if hints.Err? { return Some(Err(hints.message)), nodes; }
    err, nodes := AddHints(hints.value, start);
  }

  /** The node list exists exactly when all devices resolve and all ids are well formed; then
      it is strictly ascending and holds exactly the ids in the hints of the devices. An error
      comes from a device that does not resolve or an id that is no number, and neither result
      nor error from a negative id; so when all resolve and all are numbers there is no error,
      and no list exactly when some id is negative. */
  method GetTopologyInfo(fs: Sysfs, listing: Listing, ghost rank: Path -> nat, devs: seq<Lookup>)
    returns (r: Result<Option<seq<int>>>)
    requires Descends(fs, rank)
    ensures r.Ok? && r.value.Some? <==> Clean(fs, listing, rank, devs)
    ensures r.Ok? && r.value.Some? ==>
              StrictlyAscending(r.value.value) && Elements(r.value.value) == Ids(AllTokens(fs, listing, rank, devs))
    ensures r == Ok(None) ==> exists t | t in AllTokens(fs, listing, rank, devs) :: IsNegative(t)
    ensures r.Err? ==> !AllResolve(fs, listing, rank, devs) ||
                       exists t | t in AllTokens(fs, listing, rank, devs) :: IsMalformed(t)
    ensures AllResolve(fs, listing, rank, devs) && (forall t | t in AllTokens(fs, listing, rank, devs) :: !IsMalformed(t)) ==>
              r.Ok? && (r.value.None? <==> exists t | t in AllTokens(fs, listing, rank, devs) :: IsNegative(t))
  {
    var nodes: seq<int> := [];
    for i := 0 to |devs|
      invariant Gathered(fs, listing, rank, devs, i, nodes)
    {
      ghost var before := nodes;
      var err: Option<GiveUp>;
      err, nodes := AddDevice(fs, listing, rank, [i], devs[i], nodes);
      TokensGrow(fs, listing, rank, devs, i);
      if err.Some? {
        if Resolves(fs, listing, rank, [i], devs[i]) {
          MoreCauses(DeviceTokens(fs, listing, rank, [i], devs[i]), AllTokens(fs, listing, rank, devs), err.value);
        }
        return err.value;
      }
    }
    assert devs[..|devs|] == devs;
    nodes := SortById(nodes);
    return Ok(Some(nodes));
  }

  /** One device with the two files. */
  function OneDevice(p: Path, cpus: string, numas: string): Sysfs {
    Sysfs(map[p := p], map[p := Text(cpus)], map[p := Text(numas)], map[], map[])
  }

  function Depth(p: Path): nat { |p| }

  lemma OneDeviceHints(listing: Listing, v: Visit, p: Path, cpus: string, numas: string)
    requires InSysDevices(p) && TrimSpace(cpus) == cpus != "" && TrimSpace(numas) == numas != "-1"
    ensures var fs := OneDevice(p, cpus, numas);
            Descends(fs, Depth) && HintsOf(fs, listing, Depth, v, p) == Ok(map[p := Hint(p, cpus, numas, "")])
  {
    var fs, h := OneDevice(p, cpus, numas), Hint(p, cpus, numas, "");
    assert Descends(fs, Depth);
    assert HintAt(fs, listing, Depth, v + [0] + [0], p) == Ok(h);
    assert Climb(fs, listing, Depth, v + [0], p) == Ok(map[p := h]);
    assert Members(fs, p) == [];
  }

  lemma OneDeviceTokens(listing: Listing, p: Path, cpus: string, numas: string)
    requires InSysDevices(p) && TrimSpace(cpus) == cpus != "" && TrimSpace(numas) == numas != "-1" && numas != ""
    ensures var fs, devs := OneDevice(p, cpus, numas), [Ok(Some(p))];
            && Descends(fs, Depth) && AllResolve(fs, listing, Depth, devs)
            && AllTokens(fs, listing, Depth, devs) == Elements(Split(numas, ','))
  {
    var fs, h := OneDevice(p, cpus, numas), Hint(p, cpus, numas, "");
    var devs: seq<Lookup> := [Ok(Some(p))];
    OneDeviceHints(listing, [0], p, cpus, numas);
    assert devs[..0] == [];
    var hs := map[p := h];
    assert HintTokens(hs) == Elements(Tokens(hs[p]));
    assert DeviceTokens(fs, listing, Depth, [0], devs[0]) == HintTokens(hs);
  }

  const CARD: Path := ["sys", "devices", "card"]

  /** For a device on node -2 there is neither a node list nor an error. */
  method InfoOfNegative(listing: Listing) returns (r: Result<Option<seq<int>>>)
    ensures r == Ok(None)
  {
    MinusTwo();
    OneDeviceTokens(listing, CARD, "0-3", "-2");
    assert "-2" in Elements(["-2"]);
    r := GetTopologyInfo(OneDevice(CARD, "0-3", "-2"), listing, Depth, [Ok(Some(CARD))]);
  }

  lemma MinusTwo()
    ensures TrimSpace("0-3") == "0-3" && TrimSpace("-2") == "-2" && NodeId("-2") == Some(-2)
    ensures Split("-2", ',') == ["-2"]
  {
    assert Atoi("2") == 2 by { assert "2"[..0] == ""; }
    assert "-2"[1..] == "2";
    SplitHead("-2", "", ',');
  }

  /** The first `n` devices have been dealt with. */
  ghost predicate Gathered(fs: Sysfs, listing: Listing, rank: Path -> nat, devs: seq<Lookup>, n: nat, nodes: seq<int>)
    requires Descends(fs, rank) && n <= |devs|
  {
    && (forall k | 0 <= k < n :: Resolves(fs, listing, rank, [k], devs[k]))
    && Collected([], AllTokens(fs, listing, rank, devs[..n]), nodes)
  }

  method SortById(nodes: seq<int>) returns (sorted: seq<int>)
    requires Distinct(nodes)
    ensures StrictlyAscending(sorted) && Elements(sorted) == Elements(nodes)
  {
    SortedNodes(nodes);
    sorted := Sort(nodes, IntLeq);
  }

  predicate IntLeq(a: int, b: int) { a <= b }

  lemma SortedNodes(nodes: seq<int>)
    requires Distinct(nodes)
    ensures TotalOrder(IntLeq)
    ensures StrictlyAscending(Sort(nodes, IntLeq)) && Elements(Sort(nodes, IntLeq)) == Elements(nodes)
  {
    var sorted := Sort(nodes, IntLeq);
    DistinctPermutation(nodes, sorted);
    assert forall x :: x in sorted <==> x in multiset(sorted);
    assert forall x :: x in nodes <==> x in multiset(nodes);
  }

  lemma {:induction false} TokensGrow(fs: Sysfs, listing: Listing, rank: Path -> nat, devs: seq<Lookup>, i: nat)
    requires Descends(fs, rank) && i < |devs|
    ensures var before := AllTokens(fs, listing, rank, devs[..i]);
            var more := DeviceTokens(fs, listing, rank, [i], devs[i]);
            && AllTokens(fs, listing, rank, devs[..i+1]) == before + more
            && Ids(before + more) == Ids(before) + Ids(more)
            && (AllNodes(before + more) <==> AllNodes(before) && AllNodes(more))
    ensures AllTokens(fs, listing, rank, devs[..i+1]) <= AllTokens(fs, listing, rank, devs)
    decreases |devs|
  {
    assert devs[..i+1][..i] == devs[..i];
    if i + 1 < |devs| {
      var front := devs[..|devs|-1];
      assert front[..i+1] == devs[..i+1] && front[..i] == devs[..i];
      TokensGrow(fs, listing, rank, front, i);
    } else {
      assert devs[..i+1] == devs;
    }
  }

  // ------------------------------------------- independence of map order

  /** The entries of a comma-separated list. */
  ghost function Parts(text: string): set<string> { if text == "" then {} else Elements(Split(text, ',')) }

  ghost function PartsOf(texts: set<string>): set<string> { set x, t | x in texts && t in Parts(x) :: t }

  lemma PartsNonEmpty(text: string)
    ensures Parts(text) == {} <==> text == ""
  {
    if text != "" { assert Split(text, ',')[0] in Parts(text); }
  }

  lemma PartsOfMore(x: string, texts: set<string>)
    ensures PartsOf({x} + texts) == Parts(x) + PartsOf(texts)
  {
    forall t | t in Parts(x)
      ensures t in PartsOf({x} + texts)
    {
      assert x in {x} + texts;
    }
  }

  lemma {:induction false} JoinParts(texts: seq<string>)
    requires "" !in texts
    ensures Parts(Join(texts, ",")) == PartsOf(Elements(texts))
  {
    if texts == [] {
    } else if |texts| == 1 {
      assert Elements(texts) == {texts[0]};
    } else {
      var rest := texts[1..];
      assert rest[0] in texts && texts[0] in texts;
      JoinParts(rest);
      assert Join(rest, ",") != "";
      SplitConcat(texts[0], Join(rest, ","), ',');
      assert Elements(texts) == {texts[0]} + Elements(rest);
      var a, b := Split(texts[0], ','), Split(Join(rest, ","), ',');
      assert Elements(a + b) == Elements(a) + Elements(b);
      PartsOfMore(texts[0], Elements(rest));
    }
  }

  /** The same hint up to the order and repetition of list entries. */
  ghost predicate Alike(a: Hint, b: Hint) {
    a.provider == b.provider && Parts(a.cpus) == Parts(b.cpus) && Parts(a.numas) == Parts(b.numas) &&
    Parts(a.sockets) == Parts(b.sockets)
  }

  ghost predicate AllAlike(a: Hints, b: Hints) { a.Keys == b.Keys && forall k | k in a :: Alike(a[k], b[k]) }

  ghost predicate ResultsAlike(a: Result<Hints>, b: Result<Hints>) {
    match (a, b)
    case (Ok(x), Ok(y)) => AllAlike(x, y)
    case (Err(_), Err(_)) => true
    case _ => false
  }

  /** Alike hints are empty together. */
  lemma EmptyAlike(a: Hint, b: Hint)
    requires Alike(a, b)
    ensures IsEmpty(a) <==> IsEmpty(b)
  {
    PartsNonEmpty(a.cpus);
    PartsNonEmpty(b.cpus);
    PartsNonEmpty(a.numas);
    PartsNonEmpty(b.numas);
    PartsNonEmpty(a.sockets);
    PartsNonEmpty(b.sockets);
  }

  lemma CpuPartsWithin(a: Hints, b: Hints)
    requires AllAlike(a, b)
    ensures PartsOf(CpuTexts(a)) <= PartsOf(CpuTexts(b))
  {
    forall t | t in PartsOf(CpuTexts(a))
      ensures t in PartsOf(CpuTexts(b))
    {
      var x :| x in CpuTexts(a) && t in Parts(x);
      var k :| k in a && a[k].cpus != "" && a[k].cpus == x;
      assert t in Parts(b[k].cpus) && b[k].cpus in CpuTexts(b);
    }
  }

  lemma NumaPartsWithin(a: Hints, b: Hints)
    requires AllAlike(a, b)
    ensures PartsOf(NumaTexts(a)) <= PartsOf(NumaTexts(b))
  {
    forall t | t in PartsOf(NumaTexts(a))
      ensures t in PartsOf(NumaTexts(b))
    {
      var x :| x in NumaTexts(a) && t in Parts(x);
      var k :| k in a && a[k].numas != "" && a[k].numas == x;
      assert t in Parts(b[k].numas) && b[k].numas in NumaTexts(b);
    }
  }

  lemma ListedParts(listing: Listing, v: Visit, texts: set<string>)
    requires IsListing(listing) && "" !in texts
    ensures Parts(Join(listing(v, texts), ",")) == PartsOf(texts)
  {
    var order := listing(v, texts);
    assert Enumerates(order, texts);
    assert forall x | x in order :: x in Elements(order);
    JoinParts(order);
  }

  /** The two lists taken over from the parent. */
  lemma TakenOverAlike(x: Hints, y: Hints, l: Listing, m: Listing, v: Visit, w: Visit)
    requires IsListing(l) && IsListing(m) && AllAlike(x, y)
    ensures Parts(Join(l(v + [0], CpuTexts(x)), ",")) == Parts(Join(m(w + [0], CpuTexts(y)), ","))
    ensures Parts(Join(l(v + [1], NumaTexts(x)), ",")) == Parts(Join(m(w + [1], NumaTexts(y)), ","))
  {
    CpuPartsWithin(x, y);
    CpuPartsWithin(y, x);
    NumaPartsWithin(x, y);
    NumaPartsWithin(y, x);
    ListedParts(l, v + [0], CpuTexts(x));
    ListedParts(m, w + [0], CpuTexts(y));
    ListedParts(l, v + [1], NumaTexts(x));
    ListedParts(m, w + [1], NumaTexts(y));
  }

  lemma RepairAlike(p: Path, numas: string, x: Result<Hints>, y: Result<Hints>, l: Listing, m: Listing, v: Visit, w: Visit)
    requires IsListing(l) && IsListing(m) && ResultsAlike(x, y)
    ensures Alike(Repair(p, numas, x, l, v), Repair(p, numas, y, m, w))
  {
    if x.Ok? {
      TakenOverAlike(x.value, y.value, l, m, v, w);
      PartsNonEmpty(Join(l(v + [0], CpuTexts(x.value)), ","));
      PartsNonEmpty(Join(m(w + [0], CpuTexts(y.value)), ","));
      PartsNonEmpty(Join(l(v + [1], NumaTexts(x.value)), ","));
      PartsNonEmpty(Join(m(w + [1], NumaTexts(y.value)), ","));
    }
  }

  lemma {:induction false} HintAlike(fs: Sysfs, l: Listing, m: Listing, rank: Path -> nat, v: Visit, w: Visit, p: Path)
    requires Descends(fs, rank) && InSysDevices(p) && IsListing(l) && IsListing(m)
    ensures var a, b := HintAt(fs, l, rank, v, p), HintAt(fs, m, rank, w, p);
            (a.Ok? <==> b.Ok?) && (a.Ok? ==> Alike(a.value, b.value))
    decreases rank(p), 1, 0
  {
    var numas := Contents(FileAt(fs.numaNode, p));
    if Contents(FileAt(fs.localCpulist, p)) == "" && numas != "" && numas != "-1" {
      assert rank(Dir(p)) < rank(p);
      HintsAlike(fs, l, m, rank, v + [2], w + [2], Dir(p));
      RepairAlike(p, numas, HintsOf(fs, l, rank, v + [2], Dir(p)), HintsOf(fs, m, rank, w + [2], Dir(p)), l, m, v, w);
    }
  }

  lemma {:induction false} ClimbAlike(fs: Sysfs, l: Listing, m: Listing, rank: Path -> nat, v: Visit, w: Visit, p: Path)
    requires Descends(fs, rank) && IsListing(l) && IsListing(m)
    ensures ResultsAlike(Climb(fs, l, rank, v, p), Climb(fs, m, rank, w, p))
    decreases rank(p), 2, 0
  {
    if InSysDevices(p) {
      HintAlike(fs, l, m, rank, v + [0], w + [0], p);
      var a, b := HintAt(fs, l, rank, v + [0], p), HintAt(fs, m, rank, w + [0], p);
      if a.Ok? { EmptyAlike(a.value, b.value); }
      assert rank(Dir(p)) < rank(p);
      ClimbAlike(fs, l, m, rank, v + [1], w + [1], Dir(p));
    }
  }

  lemma {:induction false} MembersAlike(fs: Sysfs, l: Listing, m: Listing, rank: Path -> nat, v: Visit, w: Visit, p: Path,
                                        members: seq<Path>, a: Hints, b: Hints)
    requires Descends(fs, rank) && IsListing(l) && IsListing(m)
    requires (forall d | d in members :: d in Members(fs, p)) && AllAlike(a, b)
    ensures ResultsAlike(AddMembers(fs, l, rank, v, p, members, a), AddMembers(fs, m, rank, w, p, members, b))
    decreases rank(p), 2, |members|
  {
    if members != [] && members[0] in fs.links {
      assert members[0] in members;
      HintsAlike(fs, l, m, rank, v + [0], w + [0], members[0]);
      var x, y := HintsOf(fs, l, rank, v + [0], members[0]), HintsOf(fs, m, rank, w + [0], members[0]);
      if x.Ok? {
        MembersAlike(fs, l, m, rank, v + [1], w + [1], p, members[1..], Merge(a, x.value), Merge(b, y.value));
      }
    }
  }

  /** Listing the Go maps in other orders, differently at every visit, or visiting at another point
      changes hints only in the order and repetition of list entries. */
  lemma {:induction false} HintsAlike(fs: Sysfs, l: Listing, m: Listing, rank: Path -> nat, v: Visit, w: Visit, dev: Path)
    requires Descends(fs, rank) && IsListing(l) && IsListing(m)
    ensures ResultsAlike(HintsOf(fs, l, rank, v, dev), HintsOf(fs, m, rank, w, dev))
    decreases RankOf(fs, rank, dev), 3, 0
  {
    if dev in fs.links {
      var p := fs.links[dev];
      ClimbAlike(fs, l, m, rank, v + [0], w + [0], p);
      var x, y := Climb(fs, l, rank, v + [0], p), Climb(fs, m, rank, w + [0], p);
      if x.Ok? { MembersAlike(fs, l, m, rank, v + [1], w + [1], p, Members(fs, p), x.value, y.value); }
    }
  }

  lemma DeviceTokensAlike(fs: Sysfs, l: Listing, m: Listing, rank: Path -> nat, v: Visit, dev: Lookup)
    requires Descends(fs, rank) && IsListing(l) && IsListing(m)
    ensures Resolves(fs, l, rank, v, dev) <==> Resolves(fs, m, rank, v, dev)
    ensures DeviceTokens(fs, l, rank, v, dev) == DeviceTokens(fs, m, rank, v, dev)
  {
    if dev.Ok? && dev.value.Some? {
      HintsAlike(fs, l, m, rank, v, v, dev.value.value);
      if Resolves(fs, l, rank, v, dev) {
        var a, b := HintsOf(fs, l, rank, v, dev.value.value).value, HintsOf(fs, m, rank, v, dev.value.value).value;
        TokensWithin(a, b);
        TokensWithin(b, a);
      }
    }
  }

  lemma TokensWithin(a: Hints, b: Hints)
    requires AllAlike(a, b)
    ensures HintTokens(a) <= HintTokens(b)
  {
    forall t | t in HintTokens(a)
      ensures t in HintTokens(b)
    {
      var k :| k in a && t in Tokens(a[k]);
      assert t in Parts(a[k].numas);
      assert t in Tokens(b[k]);
    }
  }

  /** So the NUMA nodes kubelet gets do not depend on map iteration order. */
  lemma {:induction false} NodesIgnoreListing(fs: Sysfs, l: Listing, m: Listing, rank: Path -> nat, devs: seq<Lookup>)
    requires Descends(fs, rank) && IsListing(l) && IsListing(m)
    ensures AllTokens(fs, l, rank, devs) == AllTokens(fs, m, rank, devs)
    ensures Clean(fs, l, rank, devs) <==> Clean(fs, m, rank, devs)
  {
    if devs != [] {
      var last := |devs| - 1;
      NodesIgnoreListing(fs, l, m, rank, devs[..last]);
      DeviceTokensAlike(fs, l, m, rank, [last], devs[last]);
    }
    forall i | 0 <= i < |devs|
      ensures Resolves(fs, l, rank, [i], devs[i]) <==> Resolves(fs, m, rank, [i], devs[i])
    {
      DeviceTokensAlike(fs, l, m, rank, [i], devs[i]);
    }
  }
}
