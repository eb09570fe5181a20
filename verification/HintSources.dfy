/** Where the topology hints of a device come from (pkg/topology/topology.go), read off the files
    of sysfs: its nearest ancestor that says something, and the devices it is made of. */
module HintSources {
  import opened Common
  import opened Text
  import opened Topology

  predicate ReadableAt(fs: Sysfs, p: Path) {
    !FileAt(fs.localCpulist, p).Unreadable? && !FileAt(fs.numaNode, p).Unreadable?
  }

  function CpuList(fs: Sysfs, p: Path): string { Contents(FileAt(fs.localCpulist, p)) }

  function NumaNode(fs: Sysfs, p: Path): string { Contents(FileAt(fs.numaNode, p)) }

  /** The files give no CPUs and no NUMA node. */
  predicate SilentAt(fs: Sysfs, p: Path) {
    ReadableAt(fs, p) && CpuList(fs, p) == "" && (NumaNode(fs, p) == "" || NumaNode(fs, p) == "-1")
  }

  // --------------------------------------------------------- the hint of a path

  /** The CPU list entries of all hints. */
  ghost function CpuEntries(hs: Hints): set<string> { set k, t | k in hs && t in Parts(hs[k].cpus) :: t }

  ghost function NumaEntries(hs: Hints): set<string> { set k, t | k in hs && t in Parts(hs[k].numas) :: t }

  /** The hint of a path with a node but no CPUs: the CPUs of the parent's hints, with their nodes
      if there are any; without such CPUs the nodes are taken for sockets. */
  ghost predicate Repaired(h: Hint, node: string, parent: Result<Hints>) {
    var cpus := if parent.Ok? then CpuEntries(parent.value) else {};
    var theirs := if parent.Ok? then NumaEntries(parent.value) else {};
    var nodes := if theirs != {} then theirs else Parts(node);
    if cpus == {} then h.cpus == "" && h.numas == "" && Parts(h.sockets) == nodes
    else Parts(h.cpus) == cpus && Parts(h.numas) == nodes && h.sockets == ""
  }

  lemma EntriesAreParts(hs: Hints)
    ensures PartsOf(CpuTexts(hs)) == CpuEntries(hs) && PartsOf(NumaTexts(hs)) == NumaEntries(hs)
  {
    forall t
      ensures t in PartsOf(CpuTexts(hs)) <==> t in CpuEntries(hs)
      ensures t in PartsOf(NumaTexts(hs)) <==> t in NumaEntries(hs)
    {
      if k :| k in hs && t in Parts(hs[k].cpus) { assert hs[k].cpus in CpuTexts(hs); }
      if k :| k in hs && t in Parts(hs[k].numas) { assert hs[k].numas in NumaTexts(hs); }
    }
  }

  lemma EntriesAlike(a: Hints, b: Hints)
    requires AllAlike(a, b)
    ensures CpuEntries(a) == CpuEntries(b) && NumaEntries(a) == NumaEntries(b)
  {
  }

  lemma RepairedFrom(p: Path, node: string, parent: Result<Hints>, listing: Listing, v: Visit)
    requires IsListing(listing) && node != ""
    ensures var h := Repair(p, node, parent, listing, v);
            h.provider == p && !IsEmpty(h) && Repaired(h, node, parent)
  {
    PartsNonEmpty(node);
    if parent.Ok? {
      var hs := parent.value;
      EntriesAreParts(hs);
      ListedParts(listing, v + [0], CpuTexts(hs));
      ListedParts(listing, v + [1], NumaTexts(hs));
      PartsNonEmpty(Join(listing(v + [0], CpuTexts(hs)), ","));
      PartsNonEmpty(Join(listing(v + [1], NumaTexts(hs)), ","));
    }
  }

  /** The hint of a path, by its two files and, if they are broken, by the parent's hints. */
  lemma HintFromFiles(fs: Sysfs, listing: Listing, rank: Path -> nat, v: Visit, p: Path)
    requires Descends(fs, rank) && InSysDevices(p) && IsListing(listing)
    ensures HintAt(fs, listing, rank, v, p).Ok? <==> ReadableAt(fs, p)
    ensures ReadableAt(fs, p) ==>
              var h, cpus, node := HintAt(fs, listing, rank, v, p).value, CpuList(fs, p), NumaNode(fs, p);
              && h.provider == p && (IsEmpty(h) <==> SilentAt(fs, p))
              && (if cpus == "" && node != "" && node != "-1"
                  then Repaired(h, node, HintsOf(fs, listing, rank, [], Dir(p)))
                  else h == Hint(p, cpus, if node == "-1" then "" else node, ""))
  {
    var node := NumaNode(fs, p);
    if CpuList(fs, p) == "" && node != "" && node != "-1" {
      var parent := HintsOf(fs, listing, rank, v + [2], Dir(p));
      RepairedFrom(p, node, parent, listing, v);
      HintsAlike(fs, listing, listing, rank, v + [2], [], Dir(p));
      if parent.Ok? { EntriesAlike(parent.value, HintsOf(fs, listing, rank, [], Dir(p)).value); }
    }
  }

  // -------------------------------------------------------------- the own hint

  /** All ancestors of `p` under /sys/devices with more than `n` components are silent. */
  predicate SilentBelow(fs: Sysfs, p: Path, n: nat) {
    n <= |p| && forall m | n < m <= |p| && InSysDevices(p[..m]) :: SilentAt(fs, p[..m])
  }

  /** `p[..n]` is the nearest ancestor that says something. */
  predicate Speaks(fs: Sysfs, p: Path, n: nat) {
    SilentBelow(fs, p, n) && InSysDevices(p[..n]) && ReadableAt(fs, p[..n]) && !SilentAt(fs, p[..n])
  }

  /** `p[..n]` is the nearest ancestor that is not silent, and it cannot be read. */
  predicate Breaks(fs: Sysfs, p: Path, n: nat) {
    SilentBelow(fs, p, n) && InSysDevices(p[..n]) && !ReadableAt(fs, p[..n])
  }

  lemma AncestorsInSysDevices(p: Path, n: nat)
    requires n <= |p| && InSysDevices(p[..n])
    ensures InSysDevices(p)
  {
    assert SYS_DEVICES == p[..n][..2] == p[..2];
  }

  lemma UpOne(fs: Sysfs, p: Path, n: nat)
    requires InSysDevices(p) && SilentAt(fs, p)
    ensures Speaks(fs, p, n) <==> Speaks(fs, Dir(p), n)
    ensures Breaks(fs, p, n) <==> Breaks(fs, Dir(p), n)
  {
    var up := Dir(p);
    assert p[..|p|] == p;
    assert forall m | 0 <= m <= |up| :: up[..m] == p[..m];
    if n <= |up| {
      if SilentBelow(fs, up, n) {
        forall m | n < m <= |p| && InSysDevices(p[..m])
          ensures SilentAt(fs, p[..m])
        {
          if m <= |up| { assert up[..m] == p[..m]; }
        }
      }
      if SilentBelow(fs, p, n) {
        forall m | n < m <= |up| && InSysDevices(up[..m])
          ensures SilentAt(fs, up[..m])
        {
          assert up[..m] == p[..m];
        }
      }
    }
  }

  lemma AtOnce(fs: Sysfs, p: Path, n: nat)
    requires InSysDevices(p) && !SilentAt(fs, p) && SilentBelow(fs, p, n)
    ensures n == |p| && p[..n] == p
  {
    assert p[..|p|] == p;
  }

  /** The own hint is that of the nearest ancestor that says something; there is none exactly when
      no ancestor does, and an error exactly when one that cannot be read comes first. */
  lemma {:induction false} ClimbExactly(fs: Sysfs, listing: Listing, rank: Path -> nat, v: Visit, p: Path)
    requires Descends(fs, rank) && IsListing(listing)
    ensures Climb(fs, listing, rank, v, p).Err? <==> exists n: nat :: Breaks(fs, p, n)
    ensures Climb(fs, listing, rank, v, p) == Ok(map[]) <==> forall n: nat :: !Speaks(fs, p, n) && !Breaks(fs, p, n)
    ensures forall n: nat | Speaks(fs, p, n) :: OwnHint(fs, listing, rank, Climb(fs, listing, rank, v, p), p[..n])
    decreases |p|
  {
    if !InSysDevices(p) {
      forall n: nat
        ensures !Speaks(fs, p, n) && !Breaks(fs, p, n)
      {
        if n <= |p| && InSysDevices(p[..n]) { AncestorsInSysDevices(p, n); }
      }
    } else {
      HintFromFiles(fs, listing, rank, v + [0], p);
      if SilentAt(fs, p) {
        ClimbExactly(fs, listing, rank, v + [1], Dir(p));
        ClimbOn(fs, listing, rank, v, p);
      } else {
        ClimbStops(fs, listing, rank, v, p);
      }
    }
  }

  /** A result with one hint, that of the path. */
  ghost predicate OwnHint(fs: Sysfs, listing: Listing, rank: Path -> nat, r: Result<Hints>, p: Path)
    requires Descends(fs, rank)
  {
    && r.Ok? && r.value.Keys == {p} && InSysDevices(p) && ReadableAt(fs, p)
    && HintAt(fs, listing, rank, [], p).Ok? && Alike(r.value[p], HintAt(fs, listing, rank, [], p).value)
  }

  lemma ClimbOn(fs: Sysfs, listing: Listing, rank: Path -> nat, v: Visit, p: Path)
    requires Descends(fs, rank) && IsListing(listing) && InSysDevices(p) && SilentAt(fs, p)
    ensures Climb(fs, listing, rank, v, p) == Climb(fs, listing, rank, v + [1], Dir(p))
    ensures forall n: nat :: Speaks(fs, p, n) <==> Speaks(fs, Dir(p), n)
    ensures forall n: nat :: Breaks(fs, p, n) <==> Breaks(fs, Dir(p), n)
    ensures forall n: nat | Speaks(fs, p, n) :: n <= |Dir(p)| && p[..n] == Dir(p)[..n]
  {
    HintFromFiles(fs, listing, rank, v + [0], p);
    forall n: nat
      ensures Speaks(fs, p, n) <==> Speaks(fs, Dir(p), n)
      ensures Breaks(fs, p, n) <==> Breaks(fs, Dir(p), n)
    {
      UpOne(fs, p, n);
    }
  }

  lemma ClimbStops(fs: Sysfs, listing: Listing, rank: Path -> nat, v: Visit, p: Path)
    requires Descends(fs, rank) && IsListing(listing) && InSysDevices(p) && !SilentAt(fs, p)
    ensures var r := Climb(fs, listing, rank, v, p);
            if ReadableAt(fs, p) then Speaks(fs, p, |p|) && OwnHint(fs, listing, rank, r, p)
            else r.Err? && Breaks(fs, p, |p|)
    ensures forall n: nat | Speaks(fs, p, n) || Breaks(fs, p, n) :: n == |p| && p[..n] == p
  {
    HintFromFiles(fs, listing, rank, v + [0], p);
    HintAlike(fs, listing, listing, rank, v + [0], [], p);
    assert p[..|p|] == p;
    forall n: nat | Speaks(fs, p, n) || Breaks(fs, p, n)
      ensures n == |p| && p[..n] == p
    {
      AtOnce(fs, p, n);
    }
  }

  // ------------------------------------------------------------------ all hints

  lemma {:induction false} AddMembersExactly(fs: Sysfs, listing: Listing, rank: Path -> nat, v: Visit, p: Path,
                                             members: seq<Path>, hints: Hints)
    requires Descends(fs, rank) && IsListing(listing) && forall d | d in members :: d in Members(fs, p)
    ensures var r := AddMembers(fs, listing, rank, v, p, members, hints);
            && (r.Ok? <==> forall d | d in members :: HintsOf(fs, listing, rank, [], d).Ok?)
            && (r.Ok? ==> forall k :: k in r.value <==> k in hints || InMember(fs, listing, rank, members, k))
    decreases |members|
  {
    if members == [] {
    } else {
      var d, rest := members[0], members[1..];
      assert members == [d] + rest && d in members;
      HintsAlike(fs, listing, listing, rank, v + [0], [], d);
      var more := HintsOf(fs, listing, rank, v + [0], d);
      if more.Ok? { AddMembersExactly(fs, listing, rank, v + [1], p, rest, Merge(hints, more.value)); }
    }
  }

  /** One of the members has a hint of the path. */
  ghost predicate InMember(fs: Sysfs, listing: Listing, rank: Path -> nat, members: seq<Path>, k: Path)
    requires Descends(fs, rank)
  {
    exists d | d in members ::
      HintsOf(fs, listing, rank, [], d).Ok? && k in HintsOf(fs, listing, rank, [], d).value
  }

  /** The hints of a device are its own one and those of its slaves and IOMMU group members, and
      nothing else; the lookup fails exactly when the device has no real path, when its nearest
      ancestor that is not silent cannot be read, or when it fails for a member. */
  lemma HintsExactly(fs: Sysfs, listing: Listing, rank: Path -> nat, v: Visit, dev: Path)
    requires Descends(fs, rank) && IsListing(listing)
    ensures HintsOf(fs, listing, rank, v, dev).Ok? <==>
            && dev in fs.links
            && (forall n: nat :: !Breaks(fs, fs.links[dev], n))
            && forall d | d in Members(fs, fs.links[dev]) :: HintsOf(fs, listing, rank, [], d).Ok?
    ensures HintsOf(fs, listing, rank, v, dev).Ok? ==>
              forall k :: k in HintsOf(fs, listing, rank, v, dev).value <==>
                          || (exists n: nat :: Speaks(fs, fs.links[dev], n) && k == fs.links[dev][..n])
                          || InMember(fs, listing, rank, Members(fs, fs.links[dev]), k)
  {
    if dev in fs.links {
      var p := fs.links[dev];
      ClimbExactly(fs, listing, rank, v + [0], p);
      var own := Climb(fs, listing, rank, v + [0], p);
      if own.Ok? {
        OwnKeys(fs, listing, rank, own, p);
        AddMembersExactly(fs, listing, rank, v + [1], p, Members(fs, p), own.value);
      }
    }
  }

  lemma OwnKeys(fs: Sysfs, listing: Listing, rank: Path -> nat, own: Result<Hints>, p: Path)
    requires Descends(fs, rank) && own.Ok? && forall n: nat :: !Breaks(fs, p, n)
    requires own == Ok(map[]) <==> forall n: nat :: !Speaks(fs, p, n) && !Breaks(fs, p, n)
    requires forall n: nat | Speaks(fs, p, n) :: OwnHint(fs, listing, rank, own, p[..n])
    ensures forall k :: k in own.value <==> exists n: nat :: Speaks(fs, p, n) && k == p[..n]
  {
    if own.value != map[] {
      var n: nat :| Speaks(fs, p, n);
      assert own.value.Keys == {p[..n]};
    }
  }

  // ------------------------------------------------------ hints and their files

  /** Every hint is the one its own directory gives. */
  ghost predicate FromFiles(fs: Sysfs, listing: Listing, rank: Path -> nat, hs: Hints)
    requires Descends(fs, rank)
  {
    forall k | k in hs :: InSysDevices(k) && GivenBy(fs, listing, rank, hs[k], k)
  }

  ghost predicate GivenBy(fs: Sysfs, listing: Listing, rank: Path -> nat, h: Hint, k: Path)
    requires Descends(fs, rank) && InSysDevices(k)
  {
    HintAt(fs, listing, rank, [], k).Ok? && Alike(h, HintAt(fs, listing, rank, [], k).value)
  }

  lemma {:induction false} MembersFromFiles(fs: Sysfs, listing: Listing, rank: Path -> nat, v: Visit, p: Path,
                                            members: seq<Path>, hints: Hints)
    requires Descends(fs, rank) && IsListing(listing) && forall d | d in members :: d in Members(fs, p)
    requires FromFiles(fs, listing, rank, hints)
    ensures var r := AddMembers(fs, listing, rank, v, p, members, hints); r.Ok? ==> FromFiles(fs, listing, rank, r.value)
    decreases rank(p), 2, |members|
  {
    if members != [] && members[0] in fs.links {
      assert members[0] in members;
      HintsFromFiles(fs, listing, rank, v + [0], members[0]);
      match HintsOf(fs, listing, rank, v + [0], members[0])
      case Err(_) =>
      case Ok(more) => MembersFromFiles(fs, listing, rank, v + [1], p, members[1..], Merge(hints, more));
    }
  }

  /** Whatever device a hint is found for, it is the one the files of its directory give. */
  lemma {:induction false} HintsFromFiles(fs: Sysfs, listing: Listing, rank: Path -> nat, v: Visit, dev: Path)
    requires Descends(fs, rank) && IsListing(listing)
    ensures var r := HintsOf(fs, listing, rank, v, dev); r.Ok? ==> FromFiles(fs, listing, rank, r.value)
    decreases RankOf(fs, rank, dev), 3, 0
  {
    if dev in fs.links {
      var p := fs.links[dev];
      var own := Climb(fs, listing, rank, v + [0], p);
      if own.Ok? {
        ClimbExactly(fs, listing, rank, v + [0], p);
        OwnKeys(fs, listing, rank, own, p);
        assert FromFiles(fs, listing, rank, own.value);
        MembersFromFiles(fs, listing, rank, v + [1], p, Members(fs, p), own.value);
      }
    }
  }

  /** The parts of all devices are those in the NUMA list of some hint of one that resolves. */
  lemma {:induction false} AllTokensExactly(fs: Sysfs, listing: Listing, rank: Path -> nat, devs: seq<Lookup>, t: string)
    requires Descends(fs, rank)
    ensures t in AllTokens(fs, listing, rank, devs) <==> exists i: nat :: TokenAt(fs, listing, rank, devs, t, i)
  {
    if devs == [] {
    } else {
      var front, last := devs[..|devs|-1], devs[|devs|-1];
      assert devs == front + [last];
      AllTokensExactly(fs, listing, rank, front, t);
      DeviceTokensAre(fs, listing, rank, [|front|], last, t);
      TokenAtStep(fs, listing, rank, front, last, t);
    }
  }

  /** Device `i` has the part. */
  ghost predicate TokenAt(fs: Sysfs, listing: Listing, rank: Path -> nat, devs: seq<Lookup>, t: string, i: nat)
    requires Descends(fs, rank)
  {
    i < |devs| && TokenOf(fs, listing, rank, [i], devs[i], t)
  }

  lemma TokenAtStep(fs: Sysfs, listing: Listing, rank: Path -> nat, front: seq<Lookup>, last: Lookup, t: string)
    requires Descends(fs, rank)
    ensures (exists i: nat :: TokenAt(fs, listing, rank, front + [last], t, i)) <==>
              (exists i: nat :: TokenAt(fs, listing, rank, front, t, i)) ||
              TokenOf(fs, listing, rank, [|front|], last, t)
  {
    var all := front + [last];
    assert all[|front|] == last && forall i | 0 <= i < |front| :: all[i] == front[i];
    if TokenOf(fs, listing, rank, [|front|], last, t) { assert TokenAt(fs, listing, rank, all, t, |front|); }
    if i: nat :| TokenAt(fs, listing, rank, front, t, i) { assert TokenAt(fs, listing, rank, all, t, i); }
    if i: nat :| TokenAt(fs, listing, rank, all, t, i) {
      assert i == |front| || TokenAt(fs, listing, rank, front, t, i);
    }
  }

  lemma DeviceTokensAre(fs: Sysfs, listing: Listing, rank: Path -> nat, v: Visit, dev: Lookup, t: string)
    requires Descends(fs, rank)
    ensures t in DeviceTokens(fs, listing, rank, v, dev) <==> TokenOf(fs, listing, rank, v, dev, t)
  {
    if Resolves(fs, listing, rank, v, dev) { HintTokensAre(HintsOf(fs, listing, rank, v, dev.value.value).value, t); }
  }

  lemma HintTokensAre(hs: Hints, t: string)
    ensures t in HintTokens(hs) <==> exists k | k in hs :: t in Parts(hs[k].numas)
  {
    if k :| k in hs && t in Parts(hs[k].numas) { assert t in Tokens(hs[k]); }
    if t in HintTokens(hs) {
      var k :| k in hs && t in Tokens(hs[k]);
      assert t in Parts(hs[k].numas);
    }
  }

  ghost predicate TokenOf(fs: Sysfs, listing: Listing, rank: Path -> nat, v: Visit, dev: Lookup, t: string)
    requires Descends(fs, rank)
  {
    && dev.Ok? && dev.value.Some? && HintsOf(fs, listing, rank, v, dev.value.value).Ok?
    && exists k | k in HintsOf(fs, listing, rank, v, dev.value.value).value ::
         t in Parts(HintsOf(fs, listing, rank, v, dev.value.value).value[k].numas)
  }

  // ------------------------------------------------------------------- node ids

  /** A node id is the decimal number of its token, with or without white space around it. */
  lemma NodeIdReads(left: string, n: Int64, right: string)
    requires AllSpace(left) && AllSpace(right)
    ensures NodeId(left + FormatInt(n) + right) == Some(n as int)
  {
    var s := FormatInt(n);
    NumberText(n);
    TrimAround(left, s, right);
  }

  lemma NumberText(n: Int64)
    ensures ParseInt(FormatInt(n)) == Some(n as int)
    ensures forall c | c in FormatInt(n) :: !IsSpace(c)
  {
    var m: int := n;
    var s := FormatInt(m);
    if m < 0 {
      AtoiItoa(-m);
      assert s[1..] == Itoa(-m);
      assert forall c | c in s :: c == '-' || c in Itoa(-m);
    } else {
      AtoiItoa(m);
      assert s[0] in s;
    }
  }

  /** A token with any other character is no node id. */
  lemma NodeIdRejects(token: string, i: nat)
    requires i < |token| && !IsDigit(token[i]) && !IsSpace(token[i]) && token[i] != '-' && token[i] != '+'
    ensures NodeId(token).None?
  {
    TrimKeeps(token, token[i]);
    var s := TrimSpace(token);
    var k :| 0 <= k < |s| && s[k] == token[i];
    if s[0] == '-' || s[0] == '+' { assert s[1..][k-1] == token[i]; }
  }

  lemma TrimKeeps(s: string, c: char)
    requires c in s && !IsSpace(c)
    ensures c in TrimSpace(s)
  {
    TrimLeftKeeps(s, c);
    TrimRightKeeps(TrimLeft(s), c);
  }

  lemma {:induction false} TrimLeftKeeps(s: string, c: char)
    requires c in s && !IsSpace(c)
    ensures c in TrimLeft(s)
  {
    if IsSpace(s[0]) {
      assert s == [s[0]] + s[1..];
      TrimLeftKeeps(s[1..], c);
    }
  }

  lemma {:induction false} TrimRightKeeps(s: string, c: char)
    requires c in s && !IsSpace(c)
    ensures c in TrimRight(s)
  {
    var n := |s| - 1;
    if IsSpace(s[n]) {
      assert s == s[..n] + [s[n]];
      TrimRightKeeps(s[..n], c);
    }
  }
}
