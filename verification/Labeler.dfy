/** The list-valued labels of the GPU labeler (cmd/internal/labeler/labeler.go). */
module Labeler {
  import opened Common
  import opened Sorting
  import opened Text
  import opened LabelSplit

  const LABEL_NAMESPACE := "gpu.intel.com/"
  const LABEL_MAX_LENGTH: nat := 63
  const LABEL_CONTROL_CHARS := "Z"

  /** The digits after "card" in a device name. */
  type GpuNum = s: string | s != [] && AllDigits(s) witness "0"

  /** What the scan finds out about one card: its NUMA node (negative when unknown), the path
      its sysfs link resolves to, and its numbers of tiles and bytes of memory. */
  datatype Gpu = Gpu(num: GpuNum, numaNode: int, realPath: Option<string>, tiles: nat, memory: nat)

  // ---------------------------------------------------- numbered label values

  function ChunkKey(base: string, i: nat): string {
    if i == 0 then base else base + Itoa(i + 1)
  }

  /** `labels` holds exactly these chunks under `base`, `base2`, `base3`, ... */
  ghost predicate Stores(labels: map<string, string>, base: string, chunks: seq<string>) {
    && chunks != []
    && (forall i | 0 <= i < |chunks| :: ChunkKey(base, i) in labels && labels[ChunkKey(base, i)] == chunks[i])
    && ChunkKey(base, |chunks|) !in labels
  }

  /** Reading the numbered keys until one is missing is unambiguous. */
  lemma StoredChunksUnique(labels: map<string, string>, base: string, a: seq<string>, b: seq<string>)
    requires Stores(labels, base, a) && Stores(labels, base, b)
    ensures a == b
  {
    var endA, endB := ChunkKey(base, |a|), ChunkKey(base, |b|);
    assert endA !in labels && endB !in labels;
    assert |a| == |b|;
    assert forall i | 0 <= i < |a| :: a[i] == labels[ChunkKey(base, i)] == b[i];
  }

  lemma ChunkKeyInjective(base: string, i: nat, j: nat)
    requires ChunkKey(base, i) == ChunkKey(base, j)
    ensures i == j
  {
    if i != 0 && j != 0 {
      assert ChunkKey(base, i)[|base|..] == Itoa(i + 1) && ChunkKey(base, j)[|base|..] == Itoa(j + 1);
      ItoaInjective(i + 1, j + 1);
    } else {
      assert |ChunkKey(base, i)| == |ChunkKey(base, j)|;
    }
  }

  /** The label map after storing the first `n` chunks. */
  function Put(labels: map<string, string>, base: string, chunks: seq<string>, n: nat): map<string, string>
    requires n <= |chunks|
  {
    if n == 0 then labels
    else Put(labels, base, chunks, n - 1)[ChunkKey(base, n - 1) := chunks[n-1]]
  }

  lemma PutContents(labels: map<string, string>, base: string, chunks: seq<string>, n: nat)
    requires n <= |chunks|
    ensures var r := Put(labels, base, chunks, n);
            && (forall i | 0 <= i < n :: ChunkKey(base, i) in r && r[ChunkKey(base, i)] == chunks[i])
            && (forall k | (forall i | 0 <= i < n :: k != ChunkKey(base, i)) ::
                  (k in r <==> k in labels) && (k in r ==> r[k] == labels[k]))
  {
    forall i | 0 <= i < n
      ensures ChunkKey(base, i) in Put(labels, base, chunks, n)
      ensures Put(labels, base, chunks, n)[ChunkKey(base, i)] == chunks[i]
    {
      PutHas(labels, base, chunks, n, i);
    }
    forall k | (forall i | 0 <= i < n :: k != ChunkKey(base, i))
      ensures SameAt(Put(labels, base, chunks, n), labels, k)
    {
      PutKeeps(labels, base, chunks, n, k);
    }
  }

  predicate SameAt(a: map<string, string>, b: map<string, string>, k: string) {
    (k in a <==> k in b) && (k in a ==> a[k] == b[k])
  }

  lemma {:induction false} PutHas(labels: map<string, string>, base: string, chunks: seq<string>, n: nat, i: nat)
    requires i < n <= |chunks|
    ensures ChunkKey(base, i) in Put(labels, base, chunks, n)
    ensures Put(labels, base, chunks, n)[ChunkKey(base, i)] == chunks[i]
    decreases n
  {
    if i == n - 1 {
    } else {
      PutHas(labels, base, chunks, n - 1, i);
      if ChunkKey(base, i) == ChunkKey(base, n - 1) { ChunkKeyInjective(base, i, n - 1); }
    }
  }

  lemma {:induction false} PutKeeps(labels: map<string, string>, base: string, chunks: seq<string>, n: nat, k: string)
    requires n <= |chunks| && forall i | 0 <= i < n :: k != ChunkKey(base, i)
    ensures SameAt(Put(labels, base, chunks, n), labels, k)
    decreases n
  {
    if n == 0 {
    } else {
      PutKeeps(labels, base, chunks, n - 1, k);
      assert k != ChunkKey(base, n - 1);
    }
  }

  /** No key of `base` is in use yet. */
  ghost predicate Unused(labels: map<string, string>, base: string) {
    forall i: nat :: ChunkKey(base, i) !in labels
  }

  /** A cuttable value stored in unused keys can be read back whole. */
  lemma PutReadsBack(labels: map<string, string>, base: string, value: string)
    requires Unused(labels, base)
    requires NoAdjacentSeparators(value)
    ensures var chunks := Chunks(value, LABEL_MAX_LENGTH, LABEL_CONTROL_CHARS);
            && chunks != []
            && Stores(Put(labels, base, chunks, |chunks|), base, chunks)
            && (forall i | 0 <= i < |chunks| :: |chunks[i]| <= LABEL_MAX_LENGTH)
            && (forall i | 1 <= i < |chunks| :: LABEL_CONTROL_CHARS <= chunks[i])
            && Rejoin(chunks, LABEL_CONTROL_CHARS) == value
            && (value == "" || Cuttable(value) ==> forall i | 0 <= i < |chunks| :: LegalValue(chunks[i]))
  {
    SplitExists(value, LABEL_MAX_LENGTH, LABEL_CONTROL_CHARS);
    SplitRejoin(value, LABEL_MAX_LENGTH, LABEL_CONTROL_CHARS);
    if value == "" || Cuttable(value) { ChunksAreLegal(value, LABEL_MAX_LENGTH, LABEL_CONTROL_CHARS); }
    var chunks := Chunks(value, LABEL_MAX_LENGTH, LABEL_CONTROL_CHARS);
    PutContents(labels, base, chunks, |chunks|);
    var next := ChunkKey(base, |chunks|);
    forall i | 0 <= i < |chunks|
      ensures next != ChunkKey(base, i)
    {
      if next == ChunkKey(base, i) { ChunkKeyInjective(base, |chunks|, i); }
    }
  }

  // ------------------------------------------------------------------ grouping

  /** Appends each value to the list of its key, as the labeler does with Go maps of slices. */
  function Grouped<K>(items: seq<(K, GpuNum)>): map<K, seq<GpuNum>> {
    if items == [] then map[]
    else
      var m := Grouped(items[..|items|-1]);
      var (k, v) := items[|items|-1];
      m[k := (if k in m then m[k] else []) + [v]]
  }

  /** The values filed under one key, in order. */
  function ValuesOf<K(==)>(items: seq<(K, GpuNum)>, k: K): seq<GpuNum> {
    if items == [] then []
    else
      var last := items[|items|-1];
      ValuesOf(items[..|items|-1], k) + (if last.0 == k then [last.1] else [])
  }

  lemma {:induction false} GroupNonEmpty<K>(items: seq<(K, GpuNum)>, k: K)
    requires k in Grouped(items)
    ensures Grouped(items)[k] != []
  {
    var front, last := items[..|items|-1], items[|items|-1];
    assert items == front + [last];
    if k != last.0 { GroupNonEmpty(front, k); }
  }

  ghost predicate HasKey<K>(items: seq<(K, GpuNum)>, k: K) {
    exists i | 0 <= i < |items| :: items[i].0 == k
  }

  /** Grouping is a partition by key: every value is in the list of its key, in order, and
      there is no other list. */
  lemma {:induction false} GroupedContents<K(!new)>(items: seq<(K, GpuNum)>)
    ensures var m := Grouped(items);
            && (forall k :: k in m <==> HasKey(items, k))
            && (forall k | k in m :: m[k] == ValuesOf(items, k))
            && (forall k | k !in m :: ValuesOf(items, k) == [])
  {
    if items == [] {
    } else {
      var front, last := items[..|items|-1], items[|items|-1];
      GroupedContents(front);
      assert items == front + [last];
      forall k
        ensures HasKey(items, k) <==> HasKey(front, k) || k == last.0
      {
        if HasKey(front, k) {
          var i :| 0 <= i < |front| && front[i].0 == k;
          assert items[i].0 == k;
        }
        assert items[|items|-1].0 == last.0;
      }
    }
  }

  // ------------------------------------------------------- printing the groups

  function GroupText(gpus: seq<GpuNum>): string { Join(gpus, ".") }

  lemma GroupTextReadsBack(gpus: seq<GpuNum>)
    requires gpus != []
    ensures Split(GroupText(gpus), '.') == gpus
    ensures Cuttable(GroupText(gpus))
    ensures '_' !in GroupText(gpus) && '-' !in GroupText(gpus)
  {
    forall g | g in gpus
      ensures Cuttable(g) && '.' !in g
    {
      var h: GpuNum := g;
      DigitsCuttable(h);
      assert forall c | c in h :: IsDigit(c);
    }
    SplitJoin(gpus, '.');
    JoinCuttable(gpus, '.');
    GroupTextCharacters(gpus);
  }

  lemma {:induction false} GroupTextCharacters(gpus: seq<GpuNum>)
    ensures forall c | c in GroupText(gpus) :: IsDigit(c) || c == '.'
  {
    if gpus == [] {
    } else {
      GroupTextCharacters(gpus[1..]);
      assert forall c | c in gpus[0] :: IsDigit(c);
    }
  }

  /** The groups of the listed keys, in that order. */
  function InOrder<K>(groups: map<K, seq<GpuNum>>, keys: seq<K>): (r: seq<seq<GpuNum>>)
    requires forall k | k in keys :: k in groups
    ensures |r| == |keys|
  {
    seq(|keys|, i requires 0 <= i < |keys| => assert keys[i] in keys; groups[keys[i]])
  }

  function GroupTexts(groups: seq<seq<GpuNum>>): (r: seq<string>)
    ensures |r| == |groups|
  {
    seq(|groups|, i requires 0 <= i < |groups| => GroupText(groups[i]))
  }

  // -------------------------------------------------------------- PCI grouping

  predicate NamesPci(part: string) { "pci" <= part }

  /** Position of the first path component that starts with "pci". */
  function FirstPci(parts: seq<string>): (f: nat)
    ensures f <= |parts|
    ensures forall i | 0 <= i < f :: !NamesPci(parts[i])
    ensures f < |parts| ==> NamesPci(parts[f])
  {
    if parts == [] || NamesPci(parts[0]) then 0 else 1 + FirstPci(parts[1..])
  }

  /** `numFolders` components from the "pci" one on, or "" if there are too few. */
  function PciPart(parts: seq<string>, numFolders: nat): string {
    var f := FirstPci(parts);
    if |parts| == 1 || f + numFolders > |parts| then "" else Join(parts[f..f+numFolders], "/")
  }

  function PciPath(numFolders: nat, fullPath: string): string {
    PciPart(Split(fullPath, '/'), numFolders)
  }

  /** Component `f` is the first one that starts with "pci"; it is behind the end when there is none. */
  predicate IsFirstPci(parts: seq<string>, f: nat) {
    f <= |parts| && (forall i | 0 <= i < f :: !("pci" <= parts[i])) && (f < |parts| ==> "pci" <= parts[f])
  }

  /** The group of a path is named by so many of its folders, from the first one on that starts with
      "pci"; a path without such folders, or with too few of them, has no group. */
  lemma PciPathExactly(numFolders: nat, fullPath: string, f: nat)
    requires numFolders > 0 && IsFirstPci(Split(fullPath, '/'), f)
    ensures var parts := Split(fullPath, '/');
            if |parts| > 1 && f + numFolders <= |parts|
            then PciPath(numFolders, fullPath) != "" &&
                 Split(PciPath(numFolders, fullPath), '/') == parts[f..f+numFolders]
            else PciPath(numFolders, fullPath) == ""
  {
    JoinSplit(fullPath, '/');
    PciPartExactly(Split(fullPath, '/'), numFolders, f);
  }

  lemma PciPartExactly(parts: seq<string>, numFolders: nat, f: nat)
    requires numFolders > 0 && IsFirstPci(parts, f) && Slashless(parts)
    ensures if |parts| > 1 && f + numFolders <= |parts|
            then PciPart(parts, numFolders) != "" && Split(PciPart(parts, numFolders), '/') == parts[f..f+numFolders]
            else PciPart(parts, numFolders) == ""
  {
    FirstPciIs(parts, f);
    if |parts| > 1 && f + numFolders <= |parts| {
      var folders := parts[f..f+numFolders];
      assert folders[0] == parts[f];
      SlashlessSlice(parts, f, f + numFolders);
      JoinedFolders(folders);
    }
  }

  predicate Slashless(parts: seq<string>) { forall x | x in parts :: '/' !in x }

  lemma SlashlessSlice(parts: seq<string>, i: nat, j: nat)
    requires i <= j <= |parts| && Slashless(parts)
    ensures Slashless(parts[i..j])
  {
    assert forall x | x in parts[i..j] :: x in parts;
  }

  lemma FirstPciIs(parts: seq<string>, f: nat)
    requires IsFirstPci(parts, f)
    ensures FirstPci(parts) == f
  {
  }

  lemma JoinedFolders(folders: seq<string>)
    requires folders != [] && folders[0] != "" && Slashless(folders)
    ensures Join(folders, "/") != "" && Split(Join(folders, "/"), '/') == folders
  {
    SplitJoin(folders, '/');
  }

  method GetPCIPathParts(numFolders: nat, fullPath: string) returns (subPath: string)
    ensures subPath == PciPath(numFolders, fullPath)
  {
    var parts := Split(fullPath, '/');
    if |parts| == 1 { return ""; }
    subPath := TakeFromPci(parts, numFolders);
  }

  /** The loop over the path components. */
  method TakeFromPci(parts: seq<string>, numFolders: nat) returns (subPath: string)
    requires |parts| > 1
    ensures subPath == PciPart(parts, numFolders)
  {
    ghost var f := FirstPci(parts);
    var foundPci, left, separator := false, numFolders, "";
    subPath := "";
    for i := 0 to |parts|
      invariant foundPci <==> f < i
      invariant left == if foundPci then numFolders - (i - f) else numFolders
      invariant i > 0 ==> 0 < left
      invariant subPath == if foundPci then Join(parts[f..i], "/") else ""
      invariant separator == if foundPci then "/" else ""
    {
      if !foundPci && NamesPci(parts[i]) { foundPci := true; }
      if foundPci && left > 0 {
        JoinSlice(parts, f, i, "/");
        subPath := subPath + separator + parts[i];
        separator := "/";
        left := left - 1;
      }
      if left == 0 { return; }
    }
    subPath := "";
  }

  /** The cards that take part in the grouping, with their group. */
  function PciItems(gpus: seq<Gpu>, level: nat): seq<(string, GpuNum)> {
    if gpus == [] then []
    else
      var last := gpus[|gpus|-1];
      PciItems(gpus[..|gpus|-1], level) +
      (if last.realPath.Some? && PciPath(level, last.realPath.value) != "" then
         [(PciPath(level, last.realPath.value), last.num)]
       else [])
  }

  ghost function PciGroups(gpus: seq<Gpu>, level: nat): seq<seq<GpuNum>> {
    var groups := Grouped(PciItems(gpus, level));
    InOrder(groups, AscendingStrings(groups.Keys))
  }

  ghost function PciText(gpus: seq<Gpu>, level: nat): string {
    if level == 0 then "" else Join(GroupTexts(PciGroups(gpus, level)), "_")
  }

  lemma PciItemsStep(gpus: seq<Gpu>, i: nat, level: nat)
    requires i < |gpus|
    ensures var before := PciItems(gpus[..i], level);
            PciItems(gpus[..i+1], level) ==
            if gpus[i].realPath.Some? && PciPath(level, gpus[i].realPath.value) != "" then
              before + [(PciPath(level, gpus[i].realPath.value), gpus[i].num)]
            else before
  {
    assert gpus[..i+1][..i] == gpus[..i];
  }

  lemma GroupedAppend<K>(items: seq<(K, GpuNum)>, k: K, v: GpuNum)
    ensures var m := Grouped<K>(items); Grouped<K>(items + [(k, v)]) == m[k := (if k in m then m[k] else []) + [v]]
  {
    assert (items + [(k, v)])[..|items|] == items;
  }

  lemma PciGroupStep(gpus: seq<Gpu>, i: nat, level: nat, part: string)
    requires i < |gpus|
    requires part == if gpus[i].realPath.Some? then PciPath(level, gpus[i].realPath.value) else ""
    ensures var before := Grouped<string>(PciItems(gpus[..i], level));
            Grouped<string>(PciItems(gpus[..i+1], level)) ==
            if part == "" then before
            else before[part := (if part in before then before[part] else []) + [gpus[i].num]]
  {
    PciItemsStep(gpus, i, level);
    if part != "" { GroupedAppend<string>(PciItems(gpus[..i], level), part, gpus[i].num); }
  }

  method GroupByPath(gpus: seq<Gpu>, level: nat) returns (groups: map<string, seq<GpuNum>>)
    ensures groups == Grouped(PciItems(gpus, level))
  {
    groups := map[];
    for i := 0 to |gpus|
      invariant groups == Grouped(PciItems(gpus[..i], level))
    {
      if gpus[i].realPath.None? {
        PciGroupStep(gpus, i, level, "");
      } else {
        var part := GetPCIPathParts(level, gpus[i].realPath.value);
        PciGroupStep(gpus, i, level, part);
        if part != "" {
          groups := groups[part := (if part in groups then groups[part] else []) + [gpus[i].num]];
        }
      }
    }
    assert gpus[..|gpus|] == gpus;
  }

  method CreatePCIGroupLabel(gpus: seq<Gpu>, level: nat) returns (labelValue: string)
    ensures labelValue == PciText(gpus, level)
  {
    if level == 0 { return ""; }
    var groups := GroupByPath(gpus, level);
    var keys := SortedKeys(groups.Keys);
    labelValue := PrintGroups(groups, keys);
  }

  method PrintGroups(groups: map<string, seq<GpuNum>>, keys: seq<string>) returns (labelValue: string)
    requires forall k | k in keys :: k in groups
    ensures labelValue == Join(GroupTexts(InOrder(groups, keys)), "_")
  {
    labelValue := "";
    var separator := "";
    ghost var texts := GroupTexts(InOrder(groups, keys));
    for i := 0 to |keys|
      invariant labelValue == Join(texts[..i], "_")
      invariant separator == if i == 0 then "" else "_"
    {
      assert keys[i] in keys;
      JoinSlice(texts, 0, i, "_");
      labelValue := labelValue + separator + Join(groups[keys[i]], ".");
      separator := "_";
    }
    assert texts[..|keys|] == texts;
  }

  // ---------------------------------------------------------------- NUMA label

  predicate NatLeq(a: nat, b: nat) { a <= b }

  function NumaPart(node: nat, gpus: seq<GpuNum>): string { Itoa(node) + "-" + GroupText(gpus) }

  function NumaParts(mapping: map<nat, seq<GpuNum>>, nodes: seq<nat>): (r: seq<string>)
    requires forall n | n in nodes :: n in mapping
    ensures |r| == |nodes|
  {
    seq(|nodes|, i requires 0 <= i < |nodes| => assert nodes[i] in nodes; NumaPart(nodes[i], mapping[nodes[i]]))
  }

  /** The NUMA nodes of the mapping in ascending order. */
  ghost function Nodes(mapping: map<nat, seq<GpuNum>>): (r: seq<nat>)
    ensures Lists(r, mapping.Keys, NatLeq)
  {
    Ascending(mapping.Keys, NatLeq)
  }

  ghost function NumaText(mapping: map<nat, seq<GpuNum>>): string {
    Join(NumaParts(mapping, Nodes(mapping)), "_")
  }

  method SortedNodes(mapping: map<nat, seq<GpuNum>>) returns (nodes: seq<nat>)
    ensures nodes == Nodes(mapping)
  {
    nodes := SortedElements(mapping.Keys, NatLeq);
  }

  method CreateNumaNodeMappingLabel(mapping: map<nat, seq<GpuNum>>) returns (r: string)
    ensures r == NumaText(mapping)
  {
    var nodes := SortedNodes(mapping);
    var parts := PrintNodes(mapping, nodes);
    r := Join(parts, "_");
  }

  /** The loop over the nodes. */
  method PrintNodes(mapping: map<nat, seq<GpuNum>>, nodes: seq<nat>) returns (parts: seq<string>)
    requires forall n | n in nodes :: n in mapping
    ensures parts == NumaParts(mapping, nodes)
  {
    parts := [];
    ghost var all := NumaParts(mapping, nodes);
    for i := 0 to |nodes|
      invariant parts == all[..i]
    {
      assert nodes[i] in nodes;
      assert all[i] == NumaPart(nodes[i], mapping[nodes[i]]);
      parts := parts + [Itoa(nodes[i]) + "-" + Join(mapping[nodes[i]], ".")];
    }
    assert parts == all;
  }

  /** What the labels look like. */
  lemma LabelFormats()
    ensures Join(GroupTexts([["0", "1"], ["2"]]), "_") == "0.1_2"
    ensures NumaPart(1, ["2", "3"]) == "1-2.3"
    ensures ChunkKey("gpu-numbers", 0) == "gpu-numbers" && ChunkKey("gpu-numbers", 1) == "gpu-numbers2"
  {
    var groups: seq<seq<GpuNum>> := [["0", "1"], ["2"]];
    assert ["0", "1"][1..] == ["1"] && ["2", "3"][1..] == ["3"];
    assert GroupText(["0", "1"]) == "0.1" && GroupText(["2"]) == "2" && GroupText(["2", "3"]) == "2.3";
    assert GroupTexts(groups) == ["0.1", "2"] && ["0.1", "2"][1..] == ["2"];
  }

  // --------------------------------------------------------- reading them back

  function DecodeGroups(text: string): seq<seq<string>> {
    if text == "" then [] else Fields(Split(text, '_'))
  }

  function Fields(parts: seq<string>): seq<seq<string>> {
    seq(|parts|, i requires 0 <= i < |parts| => Split(parts[i], '.'))
  }

  lemma GroupTextsReadBack(groups: seq<seq<GpuNum>>)
    requires forall g | g in groups :: g != []
    ensures DecodeGroups(Join(GroupTexts(groups), "_")) == groups
    ensures groups != [] ==> Cuttable(Join(GroupTexts(groups), "_"))
  {
    var texts := GroupTexts(groups);
    if groups != [] {
      forall i | 0 <= i < |groups|
        ensures Cuttable(texts[i]) && '_' !in texts[i] && Split(texts[i], '.') == groups[i]
      {
        assert groups[i] in groups;
        GroupTextReadsBack(groups[i]);
      }
      SplitJoin(texts, '_');
      JoinCuttable(texts, '_');
      assert Fields(texts) == groups;
    }
  }

  /** The PCI group label decodes to the groups, in the order of their paths. */
  lemma PciLabelRoundTrip(gpus: seq<Gpu>, level: nat)
    requires level > 0
    ensures DecodeGroups(PciText(gpus, level)) == PciGroups(gpus, level)
    ensures PciText(gpus, level) != "" ==> Cuttable(PciText(gpus, level))
  {
    var groups := Grouped(PciItems(gpus, level));
    var keys := AscendingStrings(groups.Keys);
    forall k | k in keys
      ensures k in groups && groups[k] != []
    {
      GroupNonEmpty(PciItems(gpus, level), k);
    }
    GroupTextsReadBack(PciGroups(gpus, level));
  }

  /** There is no PCI group label exactly when no card has a long enough PCI path. */
  lemma PciLabelEmpty(gpus: seq<Gpu>, level: nat)
    requires level > 0
    ensures PciText(gpus, level) == "" <==> PciItems(gpus, level) == []
  {
    PciLabelRoundTrip(gpus, level);
    var items := PciItems(gpus, level);
    var groups := Grouped(items);
    GroupedContents(items);
    if items != [] {
      assert HasKey(items, items[0].0);
      assert items[0].0 in AscendingStrings(groups.Keys);
    }
  }

  function DecodeNuma(text: string): seq<(string, seq<string>)> {
    var parts := Split(text, '_');
    seq(|parts|, i requires 0 <= i < |parts| => DecodeNumaPart(parts[i]))
  }

  function DecodeNumaPart(part: string): (string, seq<string>) {
    var f := Split(part, '-');
    (f[0], if |f| < 2 then [] else Split(f[1], '.'))
  }

  lemma NumaPartReadsBack(node: nat, gpus: seq<GpuNum>)
    requires gpus != []
    ensures DecodeNumaPart(NumaPart(node, gpus)) == (Itoa(node), gpus)
    ensures '_' !in NumaPart(node, gpus)
    ensures Cuttable(NumaPart(node, gpus))
  {
    GroupTextReadsBack(gpus);
    assert forall c | c in Itoa(node) :: IsDigit(c);
    DigitsCuttable(Itoa(node));
    SplitHead(GroupText(gpus), [], '-');
    SplitHead(Itoa(node), GroupText(gpus), '-');
    CuttableConcat(Itoa(node), '-', GroupText(gpus));
  }

  /** Every part of the label text is one node of the mapping, and can be read and cut. */
  lemma NumaPartsReadBack(mapping: map<nat, seq<GpuNum>>, nodes: seq<nat>)
    requires forall n | n in nodes :: n in mapping && mapping[n] != []
    ensures forall i | 0 <= i < |nodes| ::
              && Cuttable(NumaParts(mapping, nodes)[i])
              && '_' !in NumaParts(mapping, nodes)[i]
              && DecodeNumaPart(NumaParts(mapping, nodes)[i]) == (Itoa(nodes[i]), mapping[nodes[i]])
  {
    forall i | 0 <= i < |nodes|
      ensures Cuttable(NumaParts(mapping, nodes)[i])
      ensures '_' !in NumaParts(mapping, nodes)[i]
      ensures DecodeNumaPart(NumaParts(mapping, nodes)[i]) == (Itoa(nodes[i]), mapping[nodes[i]])
    {
      assert nodes[i] in nodes;
      NumaPartReadsBack(nodes[i], mapping[nodes[i]]);
    }
  }

  /** The NUMA label decodes to the whole mapping, node by node in ascending order. */
  lemma NumaLabelRoundTrip(mapping: map<nat, seq<GpuNum>>)
    requires mapping != map[]
    requires forall n | n in mapping :: mapping[n] != []
    ensures var nodes := Nodes(mapping);
            var decoded := DecodeNuma(NumaText(mapping));
            && |decoded| == |nodes|
            && forall i | 0 <= i < |nodes| :: decoded[i] == (Itoa(nodes[i]), mapping[nodes[i]])
    ensures Cuttable(NumaText(mapping))
  {
    var nodes := Nodes(mapping);
    var parts := NumaParts(mapping, nodes);
    NumaPartsReadBack(mapping, nodes);
    var n :| n in mapping;
    assert n in nodes;
    SplitJoin(parts, '_');
    JoinCuttable(parts, '_');
  }
}
