/** The xe-link labels of the XPU Manager sidecar (cmd/xpumanager_sidecar/main.go). */
module XeLinks {
  import opened Common
  import opened Sorting
  import opened Text
  import opened LabelSplit

  const LABEL_MAX_LENGTH: nat := 63
  const XE_LINK_LABEL := "xe-links"
  const LABEL_CONTROL_CHARS := "Z"

  /** One entry of the topology matrix. */
  datatype Cell = Cell(localDevice: int, localSubdevice: int, remoteDevice: int, remoteSubdevice: int, laneCount: int)

  predicate IsValidTopologyCell(c: Cell) {
    c.laneCount >= 0 && c.localDevice >= 0 && c.localSubdevice >= 0 && c.remoteDevice >= 0 && c.remoteSubdevice >= 0
  }

  /** The same link reported from its other end. */
  function Mirror(c: Cell): Cell {
    Cell(c.remoteDevice, c.remoteSubdevice, c.localDevice, c.localSubdevice, c.laneCount)
  }

  /** A link without direction: the end with the smaller device id comes first. */
  datatype Link = Link(dev0: nat, sub0: nat, dev1: nat, sub1: nat)

  function Canonical(c: Cell): Link
    requires IsValidTopologyCell(c)
  {
    if c.localDevice < c.remoteDevice
    then Link(c.localDevice, c.localSubdevice, c.remoteDevice, c.remoteSubdevice)
    else Link(c.remoteDevice, c.remoteSubdevice, c.localDevice, c.localSubdevice)
  }

  // --------------------------------------------------------- printing a link

  function CellToString(c: Cell): string
    requires IsValidTopologyCell(c)
  {
    if c.localDevice < c.remoteDevice then
      Itoa(c.localDevice) + "." + Itoa(c.localSubdevice) + "-" + Itoa(c.remoteDevice) + "." + Itoa(c.remoteSubdevice)
    else
      Itoa(c.remoteDevice) + "." + Itoa(c.remoteSubdevice) + "-" + Itoa(c.localDevice) + "." + Itoa(c.localSubdevice)
  }

  function PrintEnd(dev: nat, sub: nat): string { Itoa(dev) + "." + Itoa(sub) }

  function PrintLink(l: Link): string { PrintEnd(l.dev0, l.sub0) + "-" + PrintEnd(l.dev1, l.sub1) }

  function ParseEnd(s: string): Option<(nat, nat)> {
    var p := Split(s, '.');
    if |p| == 2 && p[0] != [] && p[1] != [] && AllDigits(p[0]) && AllDigits(p[1])
    then Some((Atoi(p[0]), Atoi(p[1]))) else None
  }

  function ParseLink(s: string): Option<Link> {
    var p := Split(s, '-');
    if |p| != 2 then None
    else
      match (ParseEnd(p[0]), ParseEnd(p[1]))
      case (Some((d0, s0)), Some((d1, s1))) => Some(Link(d0, s0, d1, s1))
      case _ => None
  }

  lemma ParsePrintEnd(dev: nat, sub: nat)
    ensures ParseEnd(PrintEnd(dev, sub)) == Some((dev, sub))
    ensures '-' !in PrintEnd(dev, sub) && '_' !in PrintEnd(dev, sub)
  {
    SplitHead(Itoa(sub), [], '.');
    SplitHead(Itoa(dev), Itoa(sub), '.');
    AtoiItoa(dev);
    AtoiItoa(sub);
  }

  lemma ParsePrintLink(l: Link)
    ensures ParseLink(PrintLink(l)) == Some(l)
    ensures '_' !in PrintLink(l)
  {
    var a, b := PrintEnd(l.dev0, l.sub0), PrintEnd(l.dev1, l.sub1);
    ParsePrintEnd(l.dev0, l.sub0);
    ParsePrintEnd(l.dev1, l.sub1);
    SplitHead(b, [], '-');
    SplitHead(a, b, '-');
  }

  lemma CellPrintsCanonicalLink(c: Cell)
    requires IsValidTopologyCell(c)
    ensures CellToString(c) == PrintLink(Canonical(c))
  {
    var l := Canonical(c);
    calc {
      PrintLink(l);
      (Itoa(l.dev0) + "." + Itoa(l.sub0)) + "-" + (Itoa(l.dev1) + "." + Itoa(l.sub1));
      Itoa(l.dev0) + "." + Itoa(l.sub0) + "-" + Itoa(l.dev1) + "." + Itoa(l.sub1);
    }
  }

  /** The link joins the two ends the cell reports, the one with the smaller device id first. */
  lemma CanonicalJoins(c: Cell)
    requires IsValidTopologyCell(c)
    ensures var l := Canonical(c);
            && multiset{(l.dev0 as int, l.sub0 as int), (l.dev1 as int, l.sub1 as int)} ==
               multiset{(c.localDevice, c.localSubdevice), (c.remoteDevice, c.remoteSubdevice)}
            && l.dev0 <= l.dev1
  {
  }

  /** Reading the text of a cell gives its link. */
  lemma CellReadsBack(c: Cell)
    requires IsValidTopologyCell(c)
    ensures ParseLink(CellToString(c)) == Some(Canonical(c))
  {
    CellPrintsCanonicalLink(c);
    ParsePrintLink(Canonical(c));
  }

  /** What labels look like: device, tile, device, tile. */
  lemma LinkFormat()
    ensures PrintLink(Link(0, 1, 2, 3)) == "0.1-2.3"
    ensures LinkText([Link(0, 1, 2, 3), Link(4, 5, 6, 7)]) == "0.1-2.3_4.5-6.7"
    ensures LabelKey("gpu.intel.com", 0) == "gpu.intel.com/xe-links"
    ensures LabelKey("gpu.intel.com", 1) == "gpu.intel.com/xe-links2"
  {
    assert PrintEnd(0, 1) == "0.1" && PrintEnd(2, 3) == "2.3";
    assert PrintEnd(4, 5) == "4.5" && PrintEnd(6, 7) == "6.7";
    var links := [Link(0, 1, 2, 3), Link(4, 5, 6, 7)];
    assert PrintLink(links[0]) == "0.1-2.3" && PrintLink(links[1]) == "4.5-6.7";
    assert Printed(links) == ["0.1-2.3", "4.5-6.7"];
    assert ["0.1-2.3", "4.5-6.7"][1..] == ["4.5-6.7"];
  }

  /** Two cells print alike exactly when they are the same undirected link. */
  lemma PrintedAlike(c: Cell, d: Cell)
    requires IsValidTopologyCell(c) && IsValidTopologyCell(d)
    ensures CellToString(c) == CellToString(d) <==> Canonical(c) == Canonical(d)
  {
    CellPrintsCanonicalLink(c);
    CellPrintsCanonicalLink(d);
    ParsePrintLink(Canonical(c));
    ParsePrintLink(Canonical(d));
  }

  /** A link and its mirror print alike, unless it joins two tiles of one device. */
  lemma MirrorPrintsAlike(c: Cell)
    requires IsValidTopologyCell(c)
    ensures CellToString(c) == CellToString(Mirror(c)) <==>
            (c.localDevice != c.remoteDevice || c.localSubdevice == c.remoteSubdevice)
  {
    PrintedAlike(c, Mirror(c));
  }

  // ------------------------------------------------------------ the link list

  /** The links with enough lanes, each once, in first-seen order. */
  function Links(cells: seq<Cell>, minLanes: int): seq<Link>
    requires forall c | c in cells :: IsValidTopologyCell(c)
  {
    if cells == [] then []
    else
      var last := cells[|cells|-1];
      var earlier := Links(cells[..|cells|-1], minLanes);
      if last.laneCount < minLanes || Canonical(last) in earlier then earlier
      else earlier + [Canonical(last)]
  }

  lemma {:induction false} LinksContents(cells: seq<Cell>, minLanes: int)
    requires forall c | c in cells :: IsValidTopologyCell(c)
    ensures Distinct(Links(cells, minLanes))
    ensures forall l :: l in Links(cells, minLanes) <==>
                        exists c :: c in cells && c.laneCount >= minLanes && Canonical(c) == l
  {
    if cells == [] {
    } else {
      var front, last := cells[..|cells|-1], cells[|cells|-1];
      LinksContents(front, minLanes);
      assert cells == front + [last];
      forall l | exists c :: c in cells && c.laneCount >= minLanes && Canonical(c) == l
        ensures l in Links(cells, minLanes)
      {
        var c :| c in cells && c.laneCount >= minLanes && Canonical(c) == l;
        assert c in front || c == last;
      }
    }
  }

  /** More cells only ever append links. */
  lemma {:induction false} LinksGrow(cells: seq<Cell>, more: seq<Cell>, minLanes: int)
    requires forall c | c in cells + more :: IsValidTopologyCell(c)
    ensures Links(cells, minLanes) <= Links(cells + more, minLanes)
  {
    if more == [] {
      assert cells + more == cells;
    } else {
      var front := more[..|more|-1];
      assert (cells + more)[..|cells + more|-1] == cells + front;
      LinksGrow(cells, front, minLanes);
    }
  }

  /** Reporting a known link from its other end adds nothing. */
  lemma MirrorAppearsOnce(cells: seq<Cell>, c: Cell, lanes: int, minLanes: int)
    requires forall d | d in cells :: IsValidTopologyCell(d)
    requires c in cells && c.laneCount >= minLanes && lanes >= 0
    requires c.localDevice != c.remoteDevice
    ensures Links(cells + [Mirror(c).(laneCount := lanes)], minLanes) == Links(cells, minLanes)
  {
    LinksContents(cells, minLanes);
    assert Canonical(c) in Links(cells, minLanes);
    assert (cells + [Mirror(c).(laneCount := lanes)])[..|cells|] == cells;
  }

  // ------------------------------------------------------------------- labels

  function Printed(links: seq<Link>): (r: seq<string>)
    ensures |r| == |links|
  {
    seq(|links|, i requires 0 <= i < |links| => PrintLink(links[i]))
  }

  function LinkText(links: seq<Link>): string { Join(Printed(links), "_") }

  function LabelKey(namespace: string, i: nat): string {
    namespace + "/" + XE_LINK_LABEL + (if i == 0 then "" else Itoa(i + 1))
  }

  function LabelLines(namespace: string, chunks: seq<string>): (r: seq<string>)
    ensures |r| == |chunks|
  {
    seq(|chunks|, i requires 0 <= i < |chunks| => LabelKey(namespace, i) + "=" + chunks[i])
  }

  /** The first loop of `createLabels`. */
  method WriteLinks(cells: seq<Cell>, laneCount: nat) returns (text: string)
    requires forall c | c in cells :: IsValidTopologyCell(c)
    ensures text == LinkText(Links(cells, Wrap64(laneCount)))
  {
    text := "";
    var separator := "";
    var submitted: map<string, int> := map[];
    ghost var links: seq<Link> := [];
    for i := 0 to |cells|
      invariant links == Links(cells[..i], Wrap64(laneCount))
      invariant text == LinkText(links)
      invariant separator == if links == [] then "" else "_"
      invariant forall l: Link :: PrintLink(l) in submitted <==> l in links
    {
      var ti := cells[i];
      assert cells[..i+1][..i] == cells[..i];
      if ti.laneCount < Wrap64(laneCount) { continue; }
      var linkString := CellToString(ti);
      CellPrintsCanonicalLink(ti);
      var count := if linkString in submitted then submitted[linkString] else 0;
      if linkString !in submitted {
        AppendLink(links, Canonical(ti));
        text := text + separator + linkString;
        separator := "_";
        links := links + [Canonical(ti)];
      }
      submitted := submitted[linkString := count + 1];
      PrintingDistinguishes(Canonical(ti));
    }
    assert cells[..|cells|] == cells;
  }

  method CreateLabels(cells: seq<Cell>, laneCount: nat, namespace: string) returns (labels: seq<string>)
    requires forall c | c in cells :: IsValidTopologyCell(c)
    ensures labels == LabelLines(namespace,
                                 Chunks(LinkText(Links(cells, Wrap64(laneCount))), LABEL_MAX_LENGTH, LABEL_CONTROL_CHARS))
  {
    var text := WriteLinks(cells, laneCount);
    var splitLinks := SplitAtLastAlphaNum(text, LABEL_MAX_LENGTH, LABEL_CONTROL_CHARS);
    labels := NumberLines(namespace, splitLinks);
  }

  /** The second loop of `createLabels`. */
  method NumberLines(namespace: string, splitLinks: seq<string>) returns (labels: seq<string>)
    ensures labels == LabelLines(namespace, splitLinks)
  {
    labels := [];
    if |splitLinks| == 0 { return; }
    labels := [namespace + "/" + XE_LINK_LABEL + "=" + splitLinks[0]];
    FirstLine(namespace, splitLinks);
    for i := 1 to |splitLinks|
      invariant |labels| == i && forall j | 0 <= j < i :: labels[j] == LabelLines(namespace, splitLinks)[j]
    {
      LaterLine(namespace, splitLinks, i);
      labels := labels + [namespace + "/" + XE_LINK_LABEL + Itoa(i + 1) + "=" + splitLinks[i]];
    }
  }

  lemma FirstLine(namespace: string, chunks: seq<string>)
    requires chunks != []
    ensures LabelLines(namespace, chunks)[0] == namespace + "/" + XE_LINK_LABEL + "=" + chunks[0]
  {
    assert namespace + "/" + XE_LINK_LABEL + "" == namespace + "/" + XE_LINK_LABEL;
  }

  lemma LaterLine(namespace: string, chunks: seq<string>, i: nat)
    requires 0 < i < |chunks|
    ensures LabelLines(namespace, chunks)[i] == namespace + "/" + XE_LINK_LABEL + Itoa(i + 1) + "=" + chunks[i]
  {
  }

  lemma AppendLink(links: seq<Link>, l: Link)
    ensures LinkText(links + [l]) == LinkText(links) + (if links == [] then "" else "_") + PrintLink(l)
  {
    assert Printed(links + [l]) == Printed(links) + [PrintLink(l)];
    JoinAppend(Printed(links), PrintLink(l), "_");
  }

  lemma PrintingDistinguishes(l: Link)
    ensures forall m: Link | PrintLink(m) == PrintLink(l) :: m == l
  {
    forall m: Link | PrintLink(m) == PrintLink(l)
      ensures m == l
    {
      ParsePrintLink(m);
      ParsePrintLink(l);
    }
  }

  // --------------------------------------------------------------- round trip

  /** Each line carries the key its position asks for. */
  predicate HasKeys(namespace: string, labels: seq<string>) {
    forall i | 0 <= i < |labels| :: LabelKey(namespace, i) + "=" <= labels[i]
  }

  function Values(namespace: string, labels: seq<string>): (r: seq<string>)
    requires HasKeys(namespace, labels)
  {
    seq(|labels|, i requires 0 <= i < |labels| => labels[i][|LabelKey(namespace, i) + "="|..])
  }

  /** Reads the links back from the label lines. */
  function Decode(namespace: string, labels: seq<string>): Option<seq<Link>> {
    if labels == [] || !HasKeys(namespace, labels) then None
    else
      var chunks := Values(namespace, labels);
      if exists i | 1 <= i < |chunks| :: |chunks[i]| < |LABEL_CONTROL_CHARS| then None
      else DecodeText(Rejoin(chunks, LABEL_CONTROL_CHARS))
  }

  function DecodeText(text: string): Option<seq<Link>> {
    if text == "" then Some([]) else ParseAll(Split(text, '_'))
  }

  lemma ValuesOfLines(namespace: string, chunks: seq<string>)
    ensures HasKeys(namespace, LabelLines(namespace, chunks))
    ensures Values(namespace, LabelLines(namespace, chunks)) == chunks
  {
    var labels := LabelLines(namespace, chunks);
    forall i | 0 <= i < |labels|
      ensures LabelKey(namespace, i) + "=" <= labels[i]
      ensures labels[i][|LabelKey(namespace, i) + "="|..] == chunks[i]
    {
      assert labels[i] == (LabelKey(namespace, i) + "=") + chunks[i];
    }
    assert Values(namespace, labels) == chunks;
  }

  lemma DecodeTextOfLinks(links: seq<Link>)
    ensures DecodeText(LinkText(links)) == Some(links)
  {
    if links != [] {
      LinkTextCuttable(links);
      ParseAllPrinted(links);
      SplitJoin(Printed(links), '_');
    }
  }

  function ParseAll(parts: seq<string>): Option<seq<Link>> {
    if parts == [] then Some([])
    else
      match (ParseLink(parts[0]), ParseAll(parts[1..]))
      case (Some(l), Some(rest)) => Some([l] + rest)
      case _ => None
  }

  lemma {:induction false} ParseAllPrinted(links: seq<Link>)
    ensures ParseAll(Printed(links)) == Some(links)
    ensures forall p | p in Printed(links) :: '_' !in p
  {
    if links == [] {
    } else {
      ParseAllPrinted(links[1..]);
      ParsePrintLink(links[0]);
      assert Printed(links)[1..] == Printed(links[1..]);
      assert Printed(links)[0] == PrintLink(links[0]);
      assert links == [links[0]] + links[1..];
    }
  }

  lemma LinkCuttable(l: Link)
    ensures Cuttable(PrintLink(l))
  {
    DigitsCuttable(Itoa(l.dev0));
    DigitsCuttable(Itoa(l.sub0));
    DigitsCuttable(Itoa(l.dev1));
    DigitsCuttable(Itoa(l.sub1));
    CuttableConcat(Itoa(l.dev0), '.', Itoa(l.sub0));
    CuttableConcat(Itoa(l.dev1), '.', Itoa(l.sub1));
    CuttableConcat(PrintEnd(l.dev0, l.sub0), '-', PrintEnd(l.dev1, l.sub1));
  }

  lemma LinkTextCuttable(links: seq<Link>)
    requires links != []
    ensures Cuttable(LinkText(links))
  {
    forall l | l in links
      ensures Cuttable(PrintLink(l))
    {
      LinkCuttable(l);
    }
    JoinCuttable(Printed(links), '_');
  }

  /** For every list of valid cells the labels exist, have legal values, and decode to exactly the links
      with enough lanes, each once and in first-seen order. */
  lemma XeLinkRoundTrip(cells: seq<Cell>, laneCount: nat, namespace: string)
    requires forall c | c in cells :: IsValidTopologyCell(c)
    ensures var links := Links(cells, Wrap64(laneCount));
            var chunks := Chunks(LinkText(links), LABEL_MAX_LENGTH, LABEL_CONTROL_CHARS);
            && chunks != []
            && (forall i | 0 <= i < |chunks| :: LegalValue(chunks[i]))
            && Decode(namespace, LabelLines(namespace, chunks)) == Some(links)
  {
    var links := Links(cells, Wrap64(laneCount));
    var text := LinkText(links);
    if links != [] { LinkTextCuttable(links); }
    SplitExists(text, LABEL_MAX_LENGTH, LABEL_CONTROL_CHARS);
    SplitRejoin(text, LABEL_MAX_LENGTH, LABEL_CONTROL_CHARS);
    ChunksAreLegal(text, LABEL_MAX_LENGTH, LABEL_CONTROL_CHARS);
    var chunks := Chunks(text, LABEL_MAX_LENGTH, LABEL_CONTROL_CHARS);
    ValuesOfLines(namespace, chunks);
    DecodeTextOfLinks(links);
  }
}
