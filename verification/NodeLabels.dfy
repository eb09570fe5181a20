/** All labels of a node (`createLabels` in cmd/internal/labeler/labeler.go). */
module NodeLabels {
  import opened Common
  import opened Text
  import opened LabelSplit
  import opened Labeler

  const MEMORY := LABEL_NAMESPACE + "memory.max"
  const TILES := LABEL_NAMESPACE + "tiles"
  const CARDS := LABEL_NAMESPACE + "cards"
  const GPU_NUMBERS := LABEL_NAMESPACE + "gpu-numbers"
  const NUMA_MAPPING := LABEL_NAMESPACE + "numa-gpu-map"
  const MILLICORES := LABEL_NAMESPACE + "millicores"
  const PCI_GROUPS := LABEL_NAMESPACE + "pci-groups"
  const MILLICORES_PER_GPU: nat := 1000
  const MAX_INT64: nat := 0x7fff_ffff_ffff_ffff

  // ------------------------------------------------------------ specification

  function Nums(gpus: seq<Gpu>): (r: seq<GpuNum>)
    ensures |r| == |gpus|
  {
    seq(|gpus|, i requires 0 <= i < |gpus| => gpus[i].num)
  }

  function CardNames(gpus: seq<Gpu>): (r: seq<string>)
    ensures |r| == |gpus|
  {
    seq(|gpus|, i requires 0 <= i < |gpus| => "card" + gpus[i].num)
  }

  /** The cards whose NUMA node is known. */
  function NumaItems(gpus: seq<Gpu>): seq<(nat, GpuNum)> {
    if gpus == [] then []
    else
      var last := gpus[|gpus|-1];
      NumaItems(gpus[..|gpus|-1]) + (if last.numaNode >= 0 then [(last.numaNode, last.num)] else [])
  }

  function TileTotal(gpus: seq<Gpu>): nat {
    if gpus == [] then 0 else TileTotal(gpus[..|gpus|-1]) + gpus[|gpus|-1].tiles
  }

  /** The amount of memory of the card makes a label. */
  predicate HasMemory(g: Gpu) { g.memory < MAX_INT64 }

  function MemoryTotal(gpus: seq<Gpu>): nat {
    if gpus == [] then 0
    else
      var last := gpus[|gpus|-1];
      MemoryTotal(gpus[..|gpus|-1]) + if HasMemory(last) then last.memory else 0
  }

  function ChunksOf(value: string): seq<string> { Chunks(value, LABEL_MAX_LENGTH, LABEL_CONTROL_CHARS) }

  function PutValue(labels: map<string, string>, base: string, value: string): map<string, string> {
    Put(labels, base, ChunksOf(value), |ChunksOf(value)|)
  }

  /** Adds to the number a label holds; a label that is not there holds 0. */
  function AddNumber(labels: map<string, string>, name: string, value: Int64): map<string, string> {
    var number := if name in labels then Wrap64(ScanInt(labels[name])) else 0;
    labels[name := FormatInt(Plus64(number, value))]
  }

  ghost function NumaValue(gpus: seq<Gpu>): string {
    if NumaItems(gpus) == [] then "" else NumaText(Grouped<nat>(NumaItems(gpus)))
  }

  /** A list label; "" is no label. */
  ghost function WithValue(labels: map<string, string>, base: string, value: string): map<string, string> {
    if value == "" then labels else PutValue(labels, base, value)
  }

  /** A label with a number, if there is one. */
  function NumberLabel(name: string, present: bool, n: int): map<string, string> {
    if present then map[name := FormatInt(Wrap64(n))] else map[]
  }

  function MemoryLabel(gpus: seq<Gpu>): map<string, string> { NumberLabel(MEMORY, SomeMemory(gpus), MemoryTotal(gpus)) }

  lemma FreshNumber(labels: map<string, string>, name: string, value: Int64)
    requires name !in labels
    ensures AddNumber(labels, name, value) == labels[name := FormatInt(value)]
  {
    WrapSum(value, 0);
  }

  /** The labels written whether or not there are cards. */
  function FirstLabels(gpus: seq<Gpu>): map<string, string> {
    MemoryLabel(gpus)[TILES := FormatInt(Wrap64(TileTotal(gpus)))]
  }

  ghost function ListLabels(gpus: seq<Gpu>): map<string, string>
    requires gpus != []
  {
    ListsAreCuttable(gpus);
    var start := FirstLabels(gpus)[CARDS := ChunksOf(Join(CardNames(gpus), "."))[0]];
    WithValue(PutValue(start, GPU_NUMBERS, Join(Nums(gpus), ".")), NUMA_MAPPING, NumaValue(gpus))
  }

  ghost function NumberedLabels(gpus: seq<Gpu>): map<string, string>
    requires gpus != []
  {
    ListLabels(gpus)[MILLICORES := FormatInt(Wrap64(MILLICORES_PER_GPU * |gpus|))]
  }

  /** Every label of the node. */
  ghost function AllLabels(gpus: seq<Gpu>, level: nat): map<string, string> {
    if gpus == [] then FirstLabels(gpus) else WithValue(NumberedLabels(gpus), PCI_GROUPS, PciText(gpus, level))
  }

  // ------------------------------------------------------------------ methods

  class Labels {
    var labels: map<string, string>

    constructor ()
      ensures labels == map[]
    {
      labels := map[];
    }

    method AddNumericLabel(labelName: string, valueToAdd: Int64)
      modifies this
      ensures labels == AddNumber(old(labels), labelName, valueToAdd)
    {
      var value: Int64 := 0;
      if labelName in labels { value := Wrap64(ScanInt(labels[labelName])); }
      value := Plus64(value, valueToAdd);
      labels := labels[labelName := FormatInt(value)];
    }

    /** Indexes the first chunk without a check, so the value must split. */
    method AddSplittableString(base: string, fullValue: string)
      requires ChunksOf(fullValue) != []
      modifies this
      ensures labels == PutValue(old(labels), base, fullValue)
    {
      var splitList := SplitAtLastAlphaNum(fullValue, LABEL_MAX_LENGTH, LABEL_CONTROL_CHARS);
      labels := labels[base := splitList[0]];
      for i := 1 to |splitList|
        invariant labels == Put(old(labels), base, splitList, i)
      {
        labels := labels[base + Itoa(i + 1) := splitList[i]];
      }
    }

    /** The loop over the cards. */
    method ReadCards(gpus: seq<Gpu>) returns (tileCount: Int64, numaMapping: map<nat, seq<GpuNum>>)
      requires labels == map[]
      modifies this
      ensures labels == MemoryLabel(gpus) && tileCount == Wrap64(TileTotal(gpus))
      ensures numaMapping == Grouped<nat>(NumaItems(gpus))
    {
      tileCount, numaMapping := 0, map[];
      for i := 0 to |gpus|
        invariant labels == MemoryLabel(gpus[..i]) && tileCount == Wrap64(TileTotal(gpus[..i]))
        invariant numaMapping == Grouped<nat>(NumaItems(gpus[..i]))
      {
        var g := gpus[i];
        TileStep(gpus, i);
        NumaStep(gpus, i);
        MemoryStep(gpus, i);
        tileCount := Plus64(tileCount, Wrap64(g.tiles));
        if g.numaNode >= 0 {
          var numaList := if g.numaNode in numaMapping then numaMapping[g.numaNode] else [];
          numaMapping := numaMapping[g.numaNode := numaList + [g.num]];
        }
        if g.memory < MAX_INT64 { AddNumericLabel(MEMORY, g.memory); }
      }
      assert gpus[..|gpus|] == gpus;
    }

    /** The labels that list the cards. */
    method AddLists(gpus: seq<Gpu>, numaMapping: map<nat, seq<GpuNum>>)
      requires gpus != [] && numaMapping == Grouped<nat>(NumaItems(gpus)) && labels == FirstLabels(gpus)
      modifies this
      ensures labels == ListLabels(gpus)
    {
      ListsAreCuttable(gpus);
      var cards := SplitAtLastAlphaNum(Join(CardNames(gpus), "."), LABEL_MAX_LENGTH, LABEL_CONTROL_CHARS);
      labels := labels[CARDS := cards[0]];
      AddSplittableString(GPU_NUMBERS, Join(Nums(gpus), "."));
      GroupedNonEmpty(NumaItems(gpus));
      if |numaMapping| > 0 {
        NumaIsCuttable(gpus);
        var numaMappingLabel := CreateNumaNodeMappingLabel(numaMapping);
        AddSplittableString(NUMA_MAPPING, numaMappingLabel);
      }
    }

    method CreateLabels(gpus: seq<Gpu>, pciGroupLevel: nat)
      modifies this
      ensures labels == AllLabels(gpus, pciGroupLevel)
    {
      labels := map[];
      var tileCount, numaMapping := ReadCards(gpus);
      var gpuCount := |gpus|;
      SingleKeysDiffer();
      FreshNumber(labels, TILES, tileCount);
      AddNumericLabel(TILES, tileCount);
      if gpuCount > 0 {
        AddLists(gpus, numaMapping);
        NoMillicoresYet(gpus);
        var millicores := Wrap64(MILLICORES_PER_GPU * gpuCount);
        FreshNumber(labels, MILLICORES, millicores);
        AddNumericLabel(MILLICORES, millicores);
        AddPciGroups(gpus, pciGroupLevel);
      }
    }

    method AddPciGroups(gpus: seq<Gpu>, pciGroupLevel: nat)
      modifies this
      ensures labels == WithValue(old(labels), PCI_GROUPS, PciText(gpus, pciGroupLevel))
    {
      var allPCIGroups := CreatePCIGroupLabel(gpus, pciGroupLevel);
      if allPCIGroups != "" {
        PciIsCuttable(gpus, pciGroupLevel);
        AddSplittableString(PCI_GROUPS, allPCIGroups);
      }
    }
  }

  lemma TileStep(gpus: seq<Gpu>, i: nat)
    requires i < |gpus|
    ensures Wrap64(TileTotal(gpus[..i+1])) == Plus64(Wrap64(TileTotal(gpus[..i])), Wrap64(gpus[i].tiles))
  {
    assert gpus[..i+1][..i] == gpus[..i];
    var a, b := TileTotal(gpus[..i]), gpus[i].tiles;
    WrapSum(a, Wrap64(b));
    WrapSum(b, a);
  }

  lemma NumaStep(gpus: seq<Gpu>, i: nat)
    requires i < |gpus|
    ensures var g, mapping := gpus[i], Grouped<nat>(NumaItems(gpus[..i]));
            Grouped<nat>(NumaItems(gpus[..i+1])) ==
            if g.numaNode < 0 then mapping
            else mapping[g.numaNode := (if g.numaNode in mapping then mapping[g.numaNode] else []) + [g.num]]
  {
    assert gpus[..i+1][..i] == gpus[..i];
    var items, g := NumaItems(gpus[..i]), gpus[i];
    assert items + [] == items;
    if g.numaNode >= 0 { GroupedAppend<nat>(items, g.numaNode, g.num); }
  }

  predicate SomeMemory(gpus: seq<Gpu>) { exists g | g in gpus :: HasMemory(g) }

  lemma MemoryStep(gpus: seq<Gpu>, i: nat)
    requires i < |gpus|
    ensures var g, before := gpus[i], MemoryLabel(gpus[..i]);
            MemoryLabel(gpus[..i+1]) == if HasMemory(g) then AddNumber(before, MEMORY, g.memory) else before
  {
    assert gpus[..i+1] == gpus[..i] + [gpus[i]];
    MemoryLabelAppend(MEMORY, gpus[..i], gpus[i]);
  }

  lemma MemoryLabelAppend(name: string, before: seq<Gpu>, g: Gpu)
    ensures var sofar, after := NumberLabel(name, SomeMemory(before), MemoryTotal(before)), before + [g];
            NumberLabel(name, SomeMemory(after), MemoryTotal(after)) ==
            if HasMemory(g) then AddNumber(sofar, name, g.memory) else sofar
  {
    MemoryAppend(before, g);
    if !SomeMemory(before) { NoMemory(before); }
    NumberLabelGrows(name, SomeMemory(before), MemoryTotal(before), HasMemory(g), if HasMemory(g) then g.memory else 0);
  }

  lemma MemoryAppend(before: seq<Gpu>, g: Gpu)
    ensures SomeMemory(before + [g]) <==> SomeMemory(before) || HasMemory(g)
    ensures MemoryTotal(before + [g]) == MemoryTotal(before) + if HasMemory(g) then g.memory else 0
  {
    var after := before + [g];
    assert after[..|before|] == before && after[|before|] == g;
    assert forall x | x in before :: x in after;
  }

  lemma NumberLabelGrows(name: string, present: bool, n: int, more: bool, value: Int64)
    requires !present ==> n == 0
    ensures NumberLabel(name, present || more, n + if more then value else 0) ==
            if more then AddNumber(NumberLabel(name, present, n), name, value) else NumberLabel(name, present, n)
  {
    WrapSum(value, 0);
    MemoryAdds(n, value);
  }

  lemma MemoryAdds(a: int, b: Int64)
    ensures Plus64(Wrap64(ScanInt(FormatInt(Wrap64(a)))), b) == Wrap64(a + b)
  {
    ScanFormat(Wrap64(a));
    WrapSum(Wrap64(a), 0);
    WrapSum(a, b);
  }

  lemma {:induction false} NoMemory(gpus: seq<Gpu>)
    requires !SomeMemory(gpus)
    ensures MemoryTotal(gpus) == 0
  {
    if gpus == [] {
    } else {
      assert gpus[|gpus|-1] in gpus;
      NoMemory(gpus[..|gpus|-1]);
    }
  }

  lemma GroupedNonEmpty(items: seq<(nat, GpuNum)>)
    ensures |Grouped<nat>(items)| > 0 <==> items != []
    ensures Grouped<nat>(items) == map[] <==> items == []
  {
    if items != [] { assert items[|items|-1].0 in Grouped<nat>(items); }
  }

  /** The label values are safe to split. */
  lemma ListsAreCuttable(gpus: seq<Gpu>)
    requires gpus != []
    ensures Cuttable(Join(CardNames(gpus), ".")) && ChunksOf(Join(CardNames(gpus), ".")) != []
    ensures Cuttable(Join(Nums(gpus), ".")) && ChunksOf(Join(Nums(gpus), ".")) != []
  {
    forall n | n in CardNames(gpus)
      ensures Cuttable(n)
    {
      var i :| 0 <= i < |gpus| && n == "card" + gpus[i].num;
      CardNameCuttable(gpus[i].num);
    }
    JoinCuttable(CardNames(gpus), '.');
    GroupTextReadsBack(Nums(gpus));
    SplitExists(Join(CardNames(gpus), "."), LABEL_MAX_LENGTH, LABEL_CONTROL_CHARS);
    SplitExists(Join(Nums(gpus), "."), LABEL_MAX_LENGTH, LABEL_CONTROL_CHARS);
  }

  lemma CardNameCuttable(num: GpuNum)
    ensures Cuttable("card" + num)
  {
    DigitsCuttable(num);
    var n := "card" + num;
    assert forall k | 4 <= k < |n| :: n[k] == num[k-4] && IsDigit(num[k-4]);
  }

  lemma NumaIsCuttable(gpus: seq<Gpu>)
    ensures NumaItems(gpus) != [] ==> Cuttable(NumaValue(gpus)) && ChunksOf(NumaValue(gpus)) != []
  {
    var items := NumaItems(gpus);
    if items != [] {
      GroupedNonEmpty(items);
      forall n | n in Grouped<nat>(items)
        ensures Grouped<nat>(items)[n] != []
      {
        GroupNonEmpty(items, n);
      }
      NumaLabelRoundTrip(Grouped<nat>(items));
      SplitExists(NumaValue(gpus), LABEL_MAX_LENGTH, LABEL_CONTROL_CHARS);
    }
  }

  lemma PciIsCuttable(gpus: seq<Gpu>, level: nat)
    ensures PciText(gpus, level) != "" ==> Cuttable(PciText(gpus, level)) && ChunksOf(PciText(gpus, level)) != []
  {
    if PciText(gpus, level) != "" {
      PciLabelRoundTrip(gpus, level);
      SplitExists(PciText(gpus, level), LABEL_MAX_LENGTH, LABEL_CONTROL_CHARS);
    }
  }

  // ------------------------------------------------------------- reading back

  /** Two labels never share a numbered key. */
  ghost predicate Apart(base: string, other: string) {
    forall i: nat, j: nat :: ChunkKey(base, i) != ChunkKey(other, j)
  }

  lemma DifferentNamesApart(base: string, other: string)
    requires |base| > |LABEL_NAMESPACE| && |other| > |LABEL_NAMESPACE|
    requires base[|LABEL_NAMESPACE|] != other[|LABEL_NAMESPACE|]
    ensures Apart(base, other) && Apart(other, base)
  {
    forall i: nat, j: nat
      ensures ChunkKey(base, i) != ChunkKey(other, j)
    {
      assert ChunkKey(base, i)[|LABEL_NAMESPACE|] == base[|LABEL_NAMESPACE|];
      assert ChunkKey(other, j)[|LABEL_NAMESPACE|] == other[|LABEL_NAMESPACE|];
    }
  }

  /** The chunks read from the numbered keys of `base` rebuild `value`; "" stands for a label
      that is not there. */
  ghost predicate ReadsAs(labels: map<string, string>, base: string, value: string) {
    if value == "" then Unused(labels, base)
    else
      exists chunks ::
        && Stores(labels, base, chunks)
        && (forall i | 1 <= i < |chunks| :: LABEL_CONTROL_CHARS <= chunks[i])
        && Rejoin(chunks, LABEL_CONTROL_CHARS) == value
  }

  lemma WithValueReads(labels: map<string, string>, base: string, value: string)
    requires Unused(labels, base) && (value == "" || Cuttable(value))
    ensures ReadsAs(WithValue(labels, base, value), base, value)
  {
    if value != "" { PutReadsBack(labels, base, value); }
  }

  /** Storing one label leaves the keys of the others as they were. */
  lemma WithValueKeepsKey(labels: map<string, string>, base: string, value: string, key: string)
    requires forall i: nat :: key != ChunkKey(base, i)
    ensures var r := WithValue(labels, base, value); (key in r <==> key in labels) && (key in r ==> r[key] == labels[key])
  {
    PutContents(labels, base, ChunksOf(value), |ChunksOf(value)|);
  }

  lemma WithValueKeeps(labels: map<string, string>, base: string, value: string, other: string, otherValue: string)
    requires Apart(base, other) && ReadsAs(labels, other, otherValue)
    ensures ReadsAs(WithValue(labels, base, value), other, otherValue)
  {
    forall j: nat
      ensures var r, key := WithValue(labels, base, value), ChunkKey(other, j);
              (key in r <==> key in labels) && (key in r ==> r[key] == labels[key])
    {
      WithValueKeepsKey(labels, base, value, ChunkKey(other, j));
    }
    SameReading(labels, WithValue(labels, base, value), other, otherValue);
  }

  lemma SetKeeps(labels: map<string, string>, key: string, v: string, other: string, otherValue: string)
    requires Apart(key, other) && ReadsAs(labels, other, otherValue)
    ensures ReadsAs(labels[key := v], other, otherValue)
  {
    assert forall j: nat :: ChunkKey(key, 0) != ChunkKey(other, j);
    SameReading(labels, labels[key := v], other, otherValue);
  }

  lemma SameReading(labels: map<string, string>, r: map<string, string>, base: string, value: string)
    requires forall j: nat :: ChunkKey(base, j) in r <==> ChunkKey(base, j) in labels
    requires forall j: nat :: ChunkKey(base, j) in r ==> r[ChunkKey(base, j)] == labels[ChunkKey(base, j)]
    requires ReadsAs(labels, base, value)
    ensures ReadsAs(r, base, value)
  {
    if value != "" {
      var chunks :| && Stores(labels, base, chunks)
                    && (forall i | 1 <= i < |chunks| :: LABEL_CONTROL_CHARS <= chunks[i])
                    && Rejoin(chunks, LABEL_CONTROL_CHARS) == value;
      assert Stores(r, base, chunks);
    }
  }

  lemma NamesApart()
    ensures Apart(GPU_NUMBERS, NUMA_MAPPING) && Apart(GPU_NUMBERS, PCI_GROUPS)
    ensures Apart(NUMA_MAPPING, GPU_NUMBERS) && Apart(NUMA_MAPPING, PCI_GROUPS)
    ensures Apart(PCI_GROUPS, GPU_NUMBERS) && Apart(PCI_GROUPS, NUMA_MAPPING)
  {
    DifferentNamesApart(GPU_NUMBERS, NUMA_MAPPING);
    DifferentNamesApart(GPU_NUMBERS, PCI_GROUPS);
    DifferentNamesApart(NUMA_MAPPING, PCI_GROUPS);
  }

  /** Labels with one key each. */
  predicate SingleKey(key: string) { key == MEMORY || key == TILES || key == CARDS || key == MILLICORES }

  lemma SingleKeysApart(key: string)
    requires SingleKey(key)
    ensures Apart(key, GPU_NUMBERS) && Apart(key, NUMA_MAPPING) && Apart(key, PCI_GROUPS)
  {
    DifferentNamesApart(key, GPU_NUMBERS);
    DifferentNamesApart(key, NUMA_MAPPING);
    DifferentNamesApart(key, PCI_GROUPS);
  }

  lemma SingleKeysDiffer()
    ensures MEMORY != TILES && MEMORY != CARDS && MEMORY != MILLICORES
    ensures TILES != CARDS && TILES != MILLICORES && CARDS != MILLICORES
  {
    assert |MEMORY| == 24 && |TILES| == 19 && |CARDS| == 19 && |MILLICORES| == 24;
    assert MEMORY[15] == 'e' && MILLICORES[15] == 'i' && TILES[14] == 't' && CARDS[14] == 'c';
  }

  /** The labels before the card numbers, and with them. */
  ghost function StartLabels(gpus: seq<Gpu>): map<string, string>
    requires gpus != []
  {
    ListsAreCuttable(gpus);
    FirstLabels(gpus)[CARDS := ChunksOf(Join(CardNames(gpus), "."))[0]]
  }

  lemma StartUnused(gpus: seq<Gpu>)
    requires gpus != []
    ensures Unused(StartLabels(gpus), GPU_NUMBERS) && Unused(StartLabels(gpus), NUMA_MAPPING)
    ensures Unused(StartLabels(gpus), PCI_GROUPS)
  {
    forall key | key in StartLabels(gpus)
      ensures SingleKey(key)
      ensures forall i: nat ::
                && key != ChunkKey(GPU_NUMBERS, i)
                && key != ChunkKey(NUMA_MAPPING, i)
                && key != ChunkKey(PCI_GROUPS, i)
    {
      SingleKeysApart(key);
      assert key == ChunkKey(key, 0);
    }
  }

  lemma ListsRead(gpus: seq<Gpu>)
    requires gpus != []
    ensures var r := ListLabels(gpus);
            && ReadsAs(r, GPU_NUMBERS, Join(Nums(gpus), "."))
            && ReadsAs(r, NUMA_MAPPING, NumaValue(gpus))
            && ReadsAs(r, PCI_GROUPS, "")
  {
    var start, nums := StartLabels(gpus), Join(Nums(gpus), ".");
    StartUnused(gpus);
    ListsAreCuttable(gpus);
    NumaIsCuttable(gpus);
    NamesApart();
    WithValueReads(start, GPU_NUMBERS, nums);
    WithValueKeeps(start, GPU_NUMBERS, nums, NUMA_MAPPING, "");
    WithValueKeeps(start, GPU_NUMBERS, nums, PCI_GROUPS, "");
    var l := WithValue(start, GPU_NUMBERS, nums);
    WithValueReads(l, NUMA_MAPPING, NumaValue(gpus));
    WithValueKeeps(l, NUMA_MAPPING, NumaValue(gpus), GPU_NUMBERS, nums);
    WithValueKeeps(l, NUMA_MAPPING, NumaValue(gpus), PCI_GROUPS, "");
  }

  lemma ListsKeepKey(gpus: seq<Gpu>, key: string)
    requires gpus != [] && SingleKey(key)
    ensures var start, r := StartLabels(gpus), ListLabels(gpus);
            (key in r <==> key in start) && (key in r ==> r[key] == start[key])
  {
    SingleKeysApart(key);
    assert key == ChunkKey(key, 0);
    ListsAreCuttable(gpus);
    var start, nums := StartLabels(gpus), Join(Nums(gpus), ".");
    WithValueKeepsKey(start, GPU_NUMBERS, nums, key);
    WithValueKeepsKey(WithValue(start, GPU_NUMBERS, nums), NUMA_MAPPING, NumaValue(gpus), key);
  }

  lemma NoMillicoresYet(gpus: seq<Gpu>)
    requires gpus != []
    ensures MILLICORES !in ListLabels(gpus)
  {
    ListsKeepKey(gpus, MILLICORES);
    StartLacksMillicores(gpus);
  }

  lemma StartLacksMillicores(gpus: seq<Gpu>)
    requires gpus != []
    ensures MILLICORES !in StartLabels(gpus)
  {
    SingleKeysDiffer();
  }

  /** The number a label holds. */
  ghost predicate Holds(labels: map<string, string>, key: string, n: int) {
    key in labels && ScanInt(labels[key]) == Wrap64(n)
  }

  /** The deprecated label with the names of the cards begins with them, and lists all of them
      exactly when the joined names fit one value. */
  ghost predicate NamesCards(labels: map<string, string>, gpus: seq<Gpu>) {
    var names := Join(CardNames(gpus), ".");
    CARDS in labels && labels[CARDS] <= names && (labels[CARDS] == names <==> |names| <= LABEL_MAX_LENGTH)
  }

  /** Reading the node's labels gives back the list of cards, the NUMA mapping, the PCI groups
      and the totals, as 64-bit numbers; there is a memory label exactly when some card has an
      amount. */
  lemma LabelsReadBack(gpus: seq<Gpu>, level: nat)
    ensures var r := AllLabels(gpus, level);
            && ReadsAs(r, GPU_NUMBERS, Join(Nums(gpus), "."))
            && ReadsAs(r, NUMA_MAPPING, NumaValue(gpus))
            && ReadsAs(r, PCI_GROUPS, PciText(gpus, level))
            && Holds(r, TILES, TileTotal(gpus))
            && (if gpus == [] then MILLICORES !in r else Holds(r, MILLICORES, MILLICORES_PER_GPU * |gpus|))
            && (if gpus == [] then CARDS !in r else NamesCards(r, gpus))
            && (if SomeMemory(gpus) then Holds(r, MEMORY, MemoryTotal(gpus)) else MEMORY !in r)
  {
    if gpus == [] {
      NoCards(level);
    } else {
      TextsReadBack(gpus, level);
      NumbersReadBack(gpus, level);
      CardsRead(gpus, level);
    }
  }

  /** Without cards there is one label, which counts no tiles. */
  lemma NoCards(level: nat)
    ensures AllLabels([], level) == map[TILES := FormatInt(0)]
    ensures Nums([]) == [] && NumaValue([]) == "" && PciText([], level) == ""
    ensures Unused(AllLabels([], level), GPU_NUMBERS) && Unused(AllLabels([], level), NUMA_MAPPING)
    ensures Unused(AllLabels([], level), PCI_GROUPS)
    ensures CARDS !in AllLabels([], level) && MILLICORES !in AllLabels([], level) && MEMORY !in AllLabels([], level)
    ensures ScanInt(FormatInt(0)) == 0
  {
    SingleKeysDiffer();
    SingleKeysApart(TILES);
    ScanFormat(0);
    if level > 0 { PciLabelEmpty([], level); }
  }

  lemma CardsRead(gpus: seq<Gpu>, level: nat)
    requires gpus != []
    ensures NamesCards(AllLabels(gpus, level), gpus)
  {
    KeyReadsBack(gpus, level, CARDS);
    SingleKeysDiffer();
    ListsAreCuttable(gpus);
    FirstChunk(Join(CardNames(gpus), "."), LABEL_MAX_LENGTH, LABEL_CONTROL_CHARS);
  }

  lemma NumbersReadBack(gpus: seq<Gpu>, level: nat)
    requires gpus != []
    ensures var r := AllLabels(gpus, level);
            && Holds(r, TILES, TileTotal(gpus)) && Holds(r, MILLICORES, MILLICORES_PER_GPU * |gpus|)
            && (if SomeMemory(gpus) then Holds(r, MEMORY, MemoryTotal(gpus)) else MEMORY !in r)
  {
    TilesRead(gpus, level);
    MillicoresRead(gpus, level);
    MemoryReads(gpus, level);
  }

  lemma TilesRead(gpus: seq<Gpu>, level: nat)
    requires gpus != []
    ensures Holds(AllLabels(gpus, level), TILES, TileTotal(gpus))
  {
    KeyReadsBack(gpus, level, TILES);
    SingleKeysDiffer();
    ScanFormat(Wrap64(TileTotal(gpus)));
  }

  lemma MillicoresRead(gpus: seq<Gpu>, level: nat)
    requires gpus != []
    ensures Holds(AllLabels(gpus, level), MILLICORES, MILLICORES_PER_GPU * |gpus|)
  {
    KeyReadsBack(gpus, level, MILLICORES);
    ScanFormat(Wrap64(MILLICORES_PER_GPU * |gpus|));
  }

  lemma MemoryReads(gpus: seq<Gpu>, level: nat)
    requires gpus != []
    ensures var r := AllLabels(gpus, level);
            if SomeMemory(gpus) then Holds(r, MEMORY, MemoryTotal(gpus)) else MEMORY !in r
  {
    KeyReadsBack(gpus, level, MEMORY);
    SingleKeysDiffer();
    ScanFormat(Wrap64(MemoryTotal(gpus)));
  }

  lemma TextsReadBack(gpus: seq<Gpu>, level: nat)
    requires gpus != []
    ensures var r := AllLabels(gpus, level);
            && ReadsAs(r, GPU_NUMBERS, Join(Nums(gpus), "."))
            && ReadsAs(r, NUMA_MAPPING, NumaValue(gpus))
            && ReadsAs(r, PCI_GROUPS, PciText(gpus, level))
  {
    var nums, text, l := Join(Nums(gpus), "."), FormatInt(Wrap64(MILLICORES_PER_GPU * |gpus|)), ListLabels(gpus);
    ListsRead(gpus);
    SingleKeysApart(MILLICORES);
    SetKeeps(l, MILLICORES, text, GPU_NUMBERS, nums);
    SetKeeps(l, MILLICORES, text, NUMA_MAPPING, NumaValue(gpus));
    SetKeeps(l, MILLICORES, text, PCI_GROUPS, "");
    var numbered := NumberedLabels(gpus);
    NamesApart();
    PciIsCuttable(gpus, level);
    WithValueReads(numbered, PCI_GROUPS, PciText(gpus, level));
    WithValueKeeps(numbered, PCI_GROUPS, PciText(gpus, level), GPU_NUMBERS, nums);
    WithValueKeeps(numbered, PCI_GROUPS, PciText(gpus, level), NUMA_MAPPING, NumaValue(gpus));
  }

  lemma KeyReadsBack(gpus: seq<Gpu>, level: nat, key: string)
    requires gpus != [] && SingleKey(key)
    ensures var start, r := StartLabels(gpus), AllLabels(gpus, level);
            && (key != MILLICORES ==> (key in r <==> key in start) && (key in r ==> r[key] == start[key]))
            && (key == MILLICORES ==> key in r && r[key] == FormatInt(Wrap64(MILLICORES_PER_GPU * |gpus|)))
  {
    ListsKeepKey(gpus, key);
    SingleKeysApart(key);
    assert key == ChunkKey(key, 0);
    WithValueKeepsKey(NumberedLabels(gpus), PCI_GROUPS, PciText(gpus, level), key);
  }

  // -------------------------------------------------------------- legal values

  predicate AllLegal(labels: map<string, string>) { forall k | k in labels :: LegalValue(labels[k]) }

  /** A 64-bit number makes a legal label value exactly when it is not negative. */
  lemma NumberIsLegal(n: Int64)
    ensures LegalValue(FormatInt(n)) <==> n >= 0
  {
    var s := FormatInt(n);
    if n >= 0 {
      TwentyDigits();
      ItoaLength(n, 20);
      assert forall i | 0 <= i < |s| :: s[i] in s && IsDigit(s[i]);
    } else {
      assert s[0] == '-';
    }
  }

  lemma TwentyDigits()
    ensures PowerOfTen(20) == 100_000_000_000_000_000_000
  {
    assert PowerOfTen(5) == 100_000;
    assert PowerOfTen(10) == 10_000_000_000;
    assert PowerOfTen(15) == 1_000_000_000_000_000;
  }

  lemma {:induction false} PutLegal(labels: map<string, string>, base: string, chunks: seq<string>, n: nat)
    requires n <= |chunks| && AllLegal(labels) && forall i | 0 <= i < n :: LegalValue(chunks[i])
    ensures AllLegal(Put(labels, base, chunks, n))
  {
    if n == 0 {
    } else {
      PutLegal(labels, base, chunks, n - 1);
    }
  }

  lemma WithValueLegal(labels: map<string, string>, base: string, value: string)
    requires AllLegal(labels) && (value == "" || Cuttable(value))
    ensures AllLegal(WithValue(labels, base, value))
  {
    if value != "" {
      SplitExists(value, LABEL_MAX_LENGTH, LABEL_CONTROL_CHARS);
      ChunksAreLegal(value, LABEL_MAX_LENGTH, LABEL_CONTROL_CHARS);
      PutLegal(labels, base, ChunksOf(value), |ChunksOf(value)|);
    }
  }

  /** No total has wrapped around to a negative number. */
  predicate TotalsFit(gpus: seq<Gpu>) {
    && Wrap64(TileTotal(gpus)) >= 0 && Wrap64(MILLICORES_PER_GPU * |gpus|) >= 0
    && (SomeMemory(gpus) ==> Wrap64(MemoryTotal(gpus)) >= 0)
  }

  /** Kubernetes accepts the labels exactly when no total has wrapped around to a negative
      number. */
  lemma LabelsLegal(gpus: seq<Gpu>, level: nat)
    ensures AllLegal(AllLabels(gpus, level)) <==> TotalsFit(gpus)
  {
    if gpus == [] {
      NoCards(level);
      NumberIsLegal(0);
    } else if TotalsFit(gpus) {
      FittingLabelsLegal(gpus, level);
    } else {
      NumbersReadBack(gpus, level);
      var r := AllLabels(gpus, level);
      NegativeIsIllegal(r, TILES, TileTotal(gpus));
      NegativeIsIllegal(r, MILLICORES, MILLICORES_PER_GPU * |gpus|);
      NegativeIsIllegal(r, MEMORY, MemoryTotal(gpus));
    }
  }

  lemma NegativeIsIllegal(labels: map<string, string>, key: string, n: int)
    ensures Holds(labels, key, n) && Wrap64(n) < 0 ==> !AllLegal(labels)
  {
    if Holds(labels, key, n) && Wrap64(n) < 0 { assert labels[key][0] == '-'; }
  }

  lemma FittingLabelsLegal(gpus: seq<Gpu>, level: nat)
    requires gpus != [] && TotalsFit(gpus)
    ensures AllLegal(AllLabels(gpus, level))
  {
    StartLegal(gpus);
    ListsAreCuttable(gpus);
    NumaIsCuttable(gpus);
    PciIsCuttable(gpus, level);
    var withNumbers := WithValue(StartLabels(gpus), GPU_NUMBERS, Join(Nums(gpus), "."));
    WithValueLegal(StartLabels(gpus), GPU_NUMBERS, Join(Nums(gpus), "."));
    WithValueLegal(withNumbers, NUMA_MAPPING, NumaValue(gpus));
    NumberLegal(ListLabels(gpus), MILLICORES, Wrap64(MILLICORES_PER_GPU * |gpus|));
    WithValueLegal(NumberedLabels(gpus), PCI_GROUPS, PciText(gpus, level));
  }

  lemma NumberLegal(labels: map<string, string>, key: string, n: Int64)
    requires AllLegal(labels) && n >= 0
    ensures AllLegal(labels[key := FormatInt(n)])
  {
    NumberIsLegal(n);
  }

  lemma StartLegal(gpus: seq<Gpu>)
    requires gpus != [] && TotalsFit(gpus)
    ensures AllLegal(StartLabels(gpus))
  {
    ListsAreCuttable(gpus);
    ChunksAreLegal(Join(CardNames(gpus), "."), LABEL_MAX_LENGTH, LABEL_CONTROL_CHARS);
    if SomeMemory(gpus) { NumberLegal(map[], MEMORY, Wrap64(MemoryTotal(gpus))); }
    NumberLegal(MemoryLabel(gpus), TILES, Wrap64(TileTotal(gpus)));
  }

  // ------------------------------------------------------- what goes into them

  /** The totals are sums over the cards; memory counts when it is an amount that fits 63 bits. */
  lemma TotalsAreSums(a: seq<Gpu>, g: Gpu, b: seq<Gpu>)
    ensures TileTotal([]) == 0 && MemoryTotal([]) == 0
    ensures TileTotal(a + [g] + b) == TileTotal(a) + g.tiles + TileTotal(b)
    ensures MemoryTotal(a + [g] + b) ==
            MemoryTotal(a) + (if g.memory < 0x7FFF_FFFF_FFFF_FFFF then g.memory else 0) + MemoryTotal(b)
  {
    TotalsConcat(a + [g], b);
    assert (a + [g])[..|a|] == a && (a + [g])[|a|] == g;
  }

  lemma {:induction false} TotalsConcat(a: seq<Gpu>, b: seq<Gpu>)
    ensures TileTotal(a + b) == TileTotal(a) + TileTotal(b)
    ensures MemoryTotal(a + b) == MemoryTotal(a) + MemoryTotal(b)
  {
    if b == [] {
      assert a + b == a;
    } else {
      var front := b[..|b|-1];
      assert (a + b)[..|a + b|-1] == a + front;
      TotalsConcat(a, front);
    }
  }

  /** The numbers of the cards on a NUMA node, in the order of the cards. */
  function NumsOn(gpus: seq<Gpu>, node: nat): seq<GpuNum> {
    if gpus == [] then []
    else
      var last := gpus[|gpus|-1];
      NumsOn(gpus[..|gpus|-1], node) + if last.numaNode == node then [last.num] else []
  }

  predicate IsBelow(g: Gpu, level: nat, part: string) {
    g.realPath.Some? && PciPath(level, g.realPath.value) == part
  }

  /** The numbers of the cards with this part of their path, in the order of the cards. */
  function NumsBelow(gpus: seq<Gpu>, level: nat, part: string): seq<GpuNum> {
    if gpus == [] then []
    else
      var last := gpus[|gpus|-1];
      NumsBelow(gpus[..|gpus|-1], level, part) + if IsBelow(last, level, part) then [last.num] else []
  }

  /** Every NUMA node is mapped to the cards on it, in their order. */
  lemma {:induction false} NumaMapping(gpus: seq<Gpu>, node: nat)
    ensures var m, nums := Grouped<nat>(NumaItems(gpus)), NumsOn(gpus, node);
            (node in m <==> nums != []) && (node in m ==> m[node] == nums)
  {
    if gpus == [] {
    } else {
      var n := |gpus| - 1;
      NumaMapping(gpus[..n], node);
      NumaStep(gpus, n);
      assert gpus[..n+1] == gpus;
    }
  }

  /** Every PCI path is mapped to the cards below it, in their order. */
  lemma {:induction false} PciMapping(gpus: seq<Gpu>, level: nat, part: string)
    requires part != ""
    ensures var m, nums := Grouped<string>(PciItems(gpus, level)), NumsBelow(gpus, level, part);
            (part in m <==> nums != []) && (part in m ==> m[part] == nums)
  {
    if gpus == [] {
    } else {
      var n := |gpus| - 1;
      PciMapping(gpus[..n], level, part);
      var own := if gpus[n].realPath.Some? then PciPath(level, gpus[n].realPath.value) else "";
      PciGroupStep(gpus, n, level, own);
      assert gpus[..n+1] == gpus;
      OneMoreFiled(Grouped<string>(PciItems(gpus[..n], level)), own, gpus[n].num, part, NumsBelow(gpus[..n], level, part));
    }
  }

  /** Filing one more card under `own`, or nowhere when that is "", changes no other list. */
  lemma OneMoreFiled(m: map<string, seq<GpuNum>>, own: string, num: GpuNum, part: string, nums: seq<GpuNum>)
    requires part != "" && (part in m <==> nums != []) && (part in m ==> m[part] == nums)
    ensures var m' := if own == "" then m else m[own := (if own in m then m[own] else []) + [num]];
            var nums' := nums + if own == part then [num] else [];
            (part in m' <==> nums' != []) && (part in m' ==> m'[part] == nums')
  {
  }
}
