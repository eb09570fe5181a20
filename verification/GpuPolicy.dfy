/** Preferred allocation of shared GPU devices (cmd/gpu_plugin/allocationpolicy.go).
    A device id is `card-index`; several ids share one card. */
module GpuPolicy {
  import opened Sorting
  import opened Text

  function Card(id: string): string { Split(id, '-')[0] }

  ghost function CardsOf(ids: set<string>): set<string> { set id | id in ids :: Card(id) }

  /** The ids of one card among `ids`. */
  ghost function OnCard(ids: set<string>, c: string): set<string> { set id | id in ids && Card(id) == c }

  /** How many ids of a card remain available after `taken` is handed out. */
  ghost function LeftOn(available: set<string>, taken: set<string>, c: string): nat {
    |OnCard(available - taken, c)|
  }

  lemma CardsOfMore(ids: set<string>, id: string)
    ensures CardsOf(ids + {id}) == CardsOf(ids) + {Card(id)}
  {
  }

  // ------------------------------------------------------------------- none

  method NonePolicy(available: seq<string>, allocationSize: nat) returns (deviceIDs: seq<string>)
    requires Distinct(available)
    requires 1 <= allocationSize <= |available|
    ensures |deviceIDs| == allocationSize
    ensures Distinct(deviceIDs) && Elements(deviceIDs) <= Elements(available)
    ensures var cards := |CardsOf(Elements(available))|;
            |CardsOf(Elements(deviceIDs))| == if allocationSize < cards then allocationSize else cards
  {
    var selected := OnePerCard(available, allocationSize);
    DistinctCardinality(available);
    if |selected| < allocationSize {
      selected := FillUp(available, selected, allocationSize);
    }
    SubsetCardinality(CardsOf(selected), CardsOf(Elements(available)));
    deviceIDs := Enumerate(selected);
    assert Elements(deviceIDs) == selected;
    DistinctCardinality(deviceIDs);
  }

  /** One id of every card seen so far is selected. */
  ghost predicate OneEach(seen: set<string>, selected: set<string>, devices: set<string>) {
    selected <= seen && devices == CardsOf(selected) == CardsOf(seen) && |selected| == |devices|
  }

  lemma OneEachStep(seen: set<string>, selected: set<string>, devices: set<string>, id: string)
    requires OneEach(seen, selected, devices)
    ensures if Card(id) in devices then OneEach(seen + {id}, selected, devices)
            else OneEach(seen + {id}, selected + {id}, devices + {Card(id)}) && id !in selected
  {
    CardsOfMore(seen, id);
    CardsOfMore(selected, id);
  }

  lemma NextId(available: seq<string>, i: nat, selected: set<string>, devices: set<string>)
    requires i < |available| && OneEach(Elements(available[..i]), selected, devices)
    ensures var id, seen := available[i], Elements(available[..i+1]);
            if Card(id) in devices then OneEach(seen, selected, devices)
            else OneEach(seen, selected + {id}, devices + {Card(id)}) && |selected + {id}| == |selected| + 1
  {
    assert Elements(available[..i+1]) == Elements(available[..i]) + {available[i]};
    OneEachStep(Elements(available[..i]), selected, devices, available[i]);
  }

  /** The first loop: ids of cards not seen before, until there are enough. */
  method OnePerCard(available: seq<string>, allocationSize: nat) returns (selected: set<string>)
    requires 1 <= allocationSize
    ensures selected <= Elements(available) && |selected| <= allocationSize
    ensures |CardsOf(selected)| == |selected|
    ensures |selected| < allocationSize ==> CardsOf(selected) == CardsOf(Elements(available))
  {
    var devices: set<string> := {};
    selected := {};
    var neededCount := allocationSize;
    for i := 0 to |available|
      invariant OneEach(Elements(available[..i]), selected, devices)
      invariant neededCount == allocationSize - |selected| && neededCount > 0
    {
      var id := available[i];
      NextId(available, i, selected, devices);
      assert forall x | x in available[..i+1] :: x in available;
      if Card(id) !in devices {
        devices := devices + {Card(id)};
        selected := selected + {id};
        neededCount := neededCount - 1;
        if neededCount == 0 { return; }
      }
    }
    assert available[..|available|] == available;
  }

  /** The second loop: any ids not selected yet. */
  method FillUp(available: seq<string>, start: set<string>, allocationSize: nat) returns (selected: set<string>)
    requires start <= Elements(available)
    requires |start| < allocationSize <= |Elements(available)|
    requires CardsOf(start) == CardsOf(Elements(available))
    ensures selected <= Elements(available) && |selected| == allocationSize
    ensures CardsOf(selected) == CardsOf(Elements(available))
  {
    selected := start;
    var neededCount := allocationSize - |start|;
    var i := 0;
    while i < |available| && neededCount > 0
      invariant 0 <= i <= |available|
      invariant start <= selected <= Elements(available)
      invariant Elements(available[..i]) <= selected
      invariant neededCount == allocationSize - |selected| && neededCount >= 0
    {
      if available[i] !in selected {
        selected := selected + {available[i]};
        neededCount := neededCount - 1;
      }
      i := i + 1;
    }
    if i == |available| {
      assert available[..i] == available;
      assert selected == Elements(available);
    }
  }

  lemma {:induction false} CardsAtMostIds(ids: set<string>)
    ensures |CardsOf(ids)| <= |ids|
    decreases |ids|
  {
    if ids == {} {
    } else {
      var x :| x in ids;
      CardsAtMostIds(ids - {x});
      assert CardsOf(ids) == CardsOf(ids - {x}) + {Card(x)};
    }
  }

  /** No choice of the same size reaches more cards than `NonePolicy` does. */
  lemma NoneCoversMost(available: seq<string>, choice: set<string>)
    requires choice <= Elements(available)
    ensures var cards := |CardsOf(Elements(available))|;
            |CardsOf(choice)| <= if |choice| < cards then |choice| else cards
  {
    CardsAtMostIds(choice);
    SubsetCardinality(CardsOf(choice), CardsOf(Elements(available)));
  }

  // ----------------------------------------------------------------- packed

  /** `sort.Strings` on the request's own slice, then a prefix of it. */
  method PackedPolicy(deviceIds: array<string>, allocationSize: nat) returns (r: seq<string>)
    requires allocationSize <= deviceIds.Length
    modifies deviceIds
    ensures deviceIds[..] == SortStrings(old(deviceIds[..]))
    ensures r == Packed(old(deviceIds[..]), allocationSize)
  {
    SortInPlace(deviceIds);
    r := deviceIds[..allocationSize];
  }

  function Packed(available: seq<string>, allocationSize: nat): seq<string>
    requires allocationSize <= |available|
  {
    SortStrings(available)[..allocationSize]
  }

  /** The packed choice has `n` different available ids. */
  lemma PackedContents(available: seq<string>, n: nat)
    requires Distinct(available) && n <= |available|
    ensures var r := Packed(available, n); |r| == n && Distinct(r) && Elements(r) <= Elements(available)
  {
    var s := SortStrings(available);
    DistinctPermutation(available, s);
    SortStringsMembers(available);
    assert forall x | x in Packed(available, n) :: x in s;
  }

  /** The card of an id is the text before its first dash. */
  lemma CardOfId(card: string, rest: string)
    requires '-' !in card
    ensures Card(card + "-" + rest) == card
  {
    SplitHead(card, rest, '-');
  }

  /** Some but not all available ids of the card are taken. */
  ghost predicate Partial(available: set<string>, taken: set<string>, c: string) {
    OnCard(available, c) * taken != {} && OnCard(available, c) - taken != {}
  }

  lemma CardPrefix(id: string, c: string)
    requires '-' in id
    ensures Card(id) == c <==> (c + "-" <= id && '-' !in c)
  {
    JoinSplit(id, '-');
    var f := Split(id, '-');
    assert '-' !in f[0];
    if |f| > 1 {
      assert f[0] + "-" <= id;
      if c + "-" <= id && '-' !in c {
        SplitHead(c, id[|c|+1..], '-');
        assert id == c + ['-'] + id[|c|+1..];
      }
    }
  }

  /** If a sorted list is cut inside the strings with prefix `p`, both neighbours of the cut
      have that prefix. */
  lemma CutInsidePrefix(s: seq<string>, n: nat, p: string, i: nat, j: nat)
    requires SortedBy(s, LexLeq)
    requires i < n <= j < |s| && p <= s[i] && p <= s[j]
    ensures p <= s[n]
  {
    PrefixContiguous(s, p, i, n, j);
  }

  /** Packing leaves at most one card partially taken. */
  lemma PackedOnePartial(available: seq<string>, n: nat, c: string, d: string)
    requires Distinct(available) && n <= |available|
    requires forall id | id in available :: '-' in id
    requires Partial(Elements(available), Elements(Packed(available, n)), c)
    requires Partial(Elements(available), Elements(Packed(available, n)), d)
    ensures c == d
  {
    PartialIsAtCut(available, n, c);
    PartialIsAtCut(available, n, d);
  }

  lemma PartialIsAtCut(available: seq<string>, n: nat, c: string)
    requires Distinct(available) && n <= |available|
    requires forall id | id in available :: '-' in id
    requires Partial(Elements(available), Elements(Packed(available, n)), c)
    ensures n < |available| && Card(SortStrings(available)[n]) == c
  {
    var s := SortStrings(available);
    var i, j := PartialPositions(available, n, c);
    CardPrefix(s[i], c);
    CardPrefix(s[j], c);
    CutInsidePrefix(s, n, c + "-", i, j);
    SortStringsMembers(available);
    CardPrefix(s[n], c);
  }

  lemma PartialPositions(available: seq<string>, n: nat, c: string) returns (i: nat, j: nat)
    requires n <= |available|
    requires Partial(Elements(available), Elements(Packed(available, n)), c)
    ensures i < n <= j < |available|
    ensures var s := SortStrings(available);
            s[i] in available && s[j] in available && Card(s[i]) == Card(s[j]) == c
  {
    var s := SortStrings(available);
    SortStringsMembers(available);
    var x :| x in OnCard(Elements(available), c) && x in Elements(s[..n]);
    var y :| y in OnCard(Elements(available), c) - Elements(s[..n]);
    assert x in s[..n] && y in s;
    i :| 0 <= i < n && s[i] == x;
    assert forall k | 0 <= k < n :: s[k] == s[..n][k] && s[k] in Elements(s[..n]);
    j :| 0 <= j < |s| && s[j] == y;
  }

  // --------------------------------------------------------------- balanced

  /** The remaining ids of every card. */
  type Piles = map<string, seq<string>>

  /** No id occurs twice. */
  ghost predicate ValidPiles(p: Piles) {
    && (forall c | c in p :: Distinct(p[c]))
    && (forall c, d, x | c in p && d in p && x in p[c] && x in p[d] :: c == d)
  }

  ghost function All(p: Piles): set<string> { set c, x | c in p && x in p[c] :: x }

  /** The pile `c` without its first id. */
  function Pop(p: Piles, c: string): Piles
    requires c in p && p[c] != []
  {
    p[c := p[c][1..]]
  }

  /** The first of the first `k` listed cards with the most ids left, and that number. */
  function Fullest(p: Piles, index: seq<string>, k: nat): (string, nat)
    requires k <= |index| && forall c | c in index :: c in p
  {
    if k == 0 then ("", 0)
    else
      var (card, max) := Fullest(p, index, k - 1);
      assert index[k-1] in index;
      var count := |p[index[k-1]]|;
      if count > max then (index[k-1], count) else (card, max)
  }

  lemma {:induction false} FullestIsMax(p: Piles, index: seq<string>, k: nat)
    requires k <= |index| && forall c | c in index :: c in p
    ensures var (card, max) := Fullest(p, index, k);
            && (forall i | 0 <= i < k :: index[i] in p && |p[index[i]]| <= max)
            && (max > 0 ==> card in p && |p[card]| == max)
  {
    if k > 0 {
      FullestIsMax(p, index, k - 1);
      assert index[k-1] in index;
    }
  }

  /** The cards of `p`, in the order they are looked at. */
  ghost predicate Indexes(index: seq<string>, p: Piles) {
    forall c :: c in index <==> c in p
  }

  /** The cards the loop takes from, one per round. */
  function Choices(p: Piles, index: seq<string>, n: nat): seq<string>
    requires Indexes(index, p)
    decreases n
  {
    if n == 0 then []
    else
      FullestIsMax(p, index, |index|);
      var (card, max) := Fullest(p, index, |index|);
      if max == 0 then [] else [card] + Choices(Pop(p, card), index, n - 1)
  }

  /** Each of the `cards` is a fullest one when its turn comes. */
  ghost predicate Greedy(p: Piles, cards: seq<string>) {
    cards != [] ==>
      && cards[0] in p && p[cards[0]] != []
      && (forall d | d in p :: |p[d]| <= |p[cards[0]]|)
      && Greedy(Pop(p, cards[0]), cards[1..])
  }

  /** The ids handed out when taking from `cards` in turn. */
  ghost function Handed(p: Piles, cards: seq<string>): seq<string>
    requires Greedy(p, cards)
  {
    if cards == [] then [] else [p[cards[0]][0]] + Handed(Pop(p, cards[0]), cards[1..])
  }

  /** What is left after taking from `cards` in turn. */
  ghost function Rest(p: Piles, cards: seq<string>): Piles
    requires Greedy(p, cards)
  {
    if cards == [] then p else Rest(Pop(p, cards[0]), cards[1..])
  }

  lemma PopContents(p: Piles, c: string)
    requires ValidPiles(p) && c in p && p[c] != []
    ensures ValidPiles(Pop(p, c))
    ensures All(Pop(p, c)) == All(p) - {p[c][0]}
    ensures p[c][0] in All(p)
  {
    var q, first := Pop(p, c), p[c][0];
    assert first in p[c];
    forall x
      ensures x in All(q) <==> x in All(p) && x != first
    {
      if x in All(p) && x != first {
        var d :| d in p && x in p[d];
        assert x in q[d];
      }
      if x in All(q) {
        var d :| d in q && x in q[d];
        assert x in p[d];
      }
    }
  }

  lemma FullestOfAll(p: Piles, index: seq<string>)
    requires Indexes(index, p) && All(p) != {}
    ensures var (card, max) := Fullest(p, index, |index|);
            max > 0 && card in p && p[card] != [] && forall d | d in p :: |p[d]| <= |p[card]|
  {
    FullestIsMax(p, index, |index|);
  }

  lemma {:induction false} ChoicesAreGreedy(p: Piles, index: seq<string>, n: nat)
    requires ValidPiles(p) && Indexes(index, p) && n <= |All(p)|
    ensures |Choices(p, index, n)| == n && Greedy(p, Choices(p, index, n))
    decreases n
  {
    if n == 0 {
    } else {
      FullestPops(p, index);
      var card := Fullest(p, index, |index|).0;
      ChoicesAreGreedy(Pop(p, card), index, n - 1);
      GreedyOneMore(p, card, Choices(Pop(p, card), index, n - 1));
    }
  }

  /** What taking from the fullest card leaves. */
  lemma FullestPops(p: Piles, index: seq<string>)
    requires ValidPiles(p) && Indexes(index, p) && All(p) != {}
    ensures var (card, max) := Fullest(p, index, |index|);
            && max > 0 && card in p && p[card] != [] && (forall d | d in p :: |p[d]| <= |p[card]|)
            && ValidPiles(Pop(p, card)) && Indexes(index, Pop(p, card)) && |All(Pop(p, card))| == |All(p)| - 1
  {
    FullestOfAll(p, index);
    PopContents(p, Fullest(p, index, |index|).0);
  }

  lemma GreedyOneMore(p: Piles, card: string, cards: seq<string>)
    requires card in p && p[card] != [] && (forall d | d in p :: |p[d]| <= |p[card]|) && Greedy(Pop(p, card), cards)
    ensures Greedy(p, [card] + cards)
  {
    assert ([card] + cards)[1..] == cards;
  }

  /** The loop hands out `n` different ids, and what is left is all the others. */
  lemma {:induction false} HandedContents(p: Piles, cards: seq<string>)
    requires ValidPiles(p) && Greedy(p, cards)
    ensures var ids, rest := Handed(p, cards), Rest(p, cards);
            && |ids| == |cards| && Distinct(ids) && Elements(ids) <= All(p)
            && ValidPiles(rest) && rest.Keys == p.Keys
            && All(rest) == All(p) - Elements(ids)
  {
    if cards == [] {
    } else {
      PopContents(p, cards[0]);
      HandedContents(Pop(p, cards[0]), cards[1..]);
      var first, ids := p[cards[0]][0], Handed(Pop(p, cards[0]), cards[1..]);
      assert first !in Elements(ids);
      assert Elements([first] + ids) == {first} + Elements(ids);
    }
  }

  /** Every card in `touched` has at most one id less than any other card. */
  ghost predicate Level(p: Piles, touched: set<string>) {
    forall c, d | c in touched && c in p && d in p :: |p[c]| + 1 >= |p[d]|
  }

  /** The cards of `p` of which `rest` has fewer ids. */
  ghost function Touched(p: Piles, rest: Piles): set<string> {
    set c | c in p && c in rest && |rest[c]| < |p[c]|
  }

  /** Always taking from the fullest card keeps the cards taken from level with the fullest. */
  lemma {:induction false} GreedyKeepsLevel(p: Piles, cards: seq<string>, touched: set<string>)
    requires Greedy(p, cards) && Level(p, touched)
    ensures var rest := Rest(p, cards);
            && (forall c | c in p :: c in rest && |rest[c]| <= |p[c]|)
            && Level(rest, touched + Touched(p, rest))
  {
    if cards == [] {
    } else {
      var card, q := cards[0], Pop(p, cards[0]);
      GreedyKeepsLevel(q, cards[1..], touched + {card});
      var rest := Rest(q, cards[1..]);
      assert touched + Touched(p, rest) <= touched + {card} + Touched(q, rest);
    }
  }

  /** The ids of one card, in the order given. */
  function OfCard(ids: seq<string>, c: string): seq<string> {
    if ids == [] then []
    else
      var last := ids[|ids|-1];
      OfCard(ids[..|ids|-1], c) + (if Card(last) == c then [last] else [])
  }

  lemma {:induction false} OfCardMultiset(ids: seq<string>, c: string, x: string)
    ensures multiset(OfCard(ids, c))[x] == if Card(x) == c then multiset(ids)[x] else 0
  {
    if ids == [] {
    } else {
      var front, last := ids[..|ids|-1], ids[|ids|-1];
      OfCardMultiset(front, c, x);
      assert ids == front + [last];
    }
  }

  lemma OfCardMembers(ids: seq<string>, c: string)
    ensures forall x :: x in OfCard(ids, c) <==> x in ids && Card(x) == c
  {
    forall x
      ensures x in OfCard(ids, c) <==> x in ids && Card(x) == c
    {
      OfCardMultiset(ids, c, x);
      assert x in OfCard(ids, c) <==> x in multiset(OfCard(ids, c));
      assert x in ids <==> x in multiset(ids);
    }
  }

  lemma {:induction false} OfCardDistinct(ids: seq<string>, c: string)
    requires Distinct(ids)
    ensures Distinct(OfCard(ids, c))
  {
    if ids == [] {
    } else {
      var front, last := ids[..|ids|-1], ids[|ids|-1];
      OfCardDistinct(front, c);
      OfCardMembers(front, c);
      assert last !in front;
    }
  }

  /** The sorted ids of every card. */
  ghost function SortedPiles(available: seq<string>): Piles {
    map c | c in CardsOf(Elements(available)) :: SortStrings(OfCard(available, c))
  }

  ghost function Balanced(available: seq<string>, n: nat): seq<string>
    requires Distinct(available) && n <= |available|
  {
    Handed(SortedPiles(available), BalancedCards(available, n))
  }

  /** The cards `balancedPolicy` takes from. */
  ghost function BalancedCards(available: seq<string>, n: nat): (cards: seq<string>)
    requires Distinct(available) && n <= |available|
    ensures |cards| == n && Greedy(SortedPiles(available), cards)
  {
    var p := SortedPiles(available);
    PilesOfAvailable(available);
    ChoicesAreGreedy(p, AscendingStrings(p.Keys), n);
    Choices(p, AscendingStrings(p.Keys), n)
  }

  lemma PilesOfAvailable(available: seq<string>)
    requires Distinct(available)
    ensures var p := SortedPiles(available);
            ValidPiles(p) && Filed(p) && All(p) == Elements(available) && |All(p)| == |available|
  {
    var p := SortedPiles(available);
    forall c | c in p
      ensures Distinct(p[c]) && forall x :: x in p[c] <==> x in available && Card(x) == c
    {
      OfCardDistinct(available, c);
      OfCardMembers(available, c);
      SortStringsMembers(OfCard(available, c));
      DistinctPermutation(OfCard(available, c), p[c]);
    }
    forall x | x in available
      ensures x in All(p)
    {
      assert Card(x) in p && x in p[Card(x)];
    }
    assert All(p) == Elements(available);
    DistinctCardinality(available);
  }

  lemma SortedPileIgnoresOrder(a: seq<string>, b: seq<string>, c: string)
    requires multiset(a) == multiset(b)
    ensures SortStrings(OfCard(a, c)) == SortStrings(OfCard(b, c))
  {
    forall x
      ensures multiset(OfCard(a, c))[x] == multiset(OfCard(b, c))[x]
    {
      OfCardMultiset(a, c, x);
      OfCardMultiset(b, c, x);
    }
    assert multiset(OfCard(a, c)) == multiset(OfCard(b, c));
    LexIsTotalOrder();
    SortIgnoresOrder(OfCard(a, c), OfCard(b, c), LexLeq);
  }

  lemma SameElements(a: seq<string>, b: seq<string>)
    requires multiset(a) == multiset(b)
    ensures Elements(a) == Elements(b)
  {
    forall x
      ensures x in a <==> x in b
    {
      assert x in a <==> x in multiset(a);
      assert x in b <==> x in multiset(b);
    }
  }

  /** The choice does not depend on the order in which the ids are offered. */
  lemma BalancedIgnoresOrder(a: seq<string>, b: seq<string>, n: nat)
    requires multiset(a) == multiset(b)
    requires Distinct(a) && Distinct(b) && n <= |a| && n <= |b|
    ensures Balanced(a, n) == Balanced(b, n)
  {
    SortedPilesIgnoreOrder(a, b);
    BalancedStart(a, n);
    BalancedStart(b, n);
  }

  lemma SortedPilesIgnoreOrder(a: seq<string>, b: seq<string>)
    requires multiset(a) == multiset(b)
    ensures SortedPiles(a) == SortedPiles(b)
  {
    SameElements(a, b);
    forall c | c in SortedPiles(a)
      ensures SortedPiles(a)[c] == SortedPiles(b)[c]
    {
      SortedPileIgnoresOrder(a, b, c);
    }
  }

  /** Each id lies on the pile of its own card. */
  ghost predicate Filed(p: Piles) {
    forall c, x | c in p && x in p[c] :: Card(x) == c
  }

  lemma PileIsOnCard(p: Piles, c: string)
    requires ValidPiles(p) && c in p && Filed(p)
    ensures |OnCard(All(p), c)| == |p[c]|
  {
    assert OnCard(All(p), c) == Elements(p[c]);
    DistinctCardinality(p[c]);
  }

  /** Piles that stay inside filed piles are filed. */
  lemma {:induction false} GreedyKeepsFiled(p: Piles, cards: seq<string>)
    requires Greedy(p, cards) && Filed(p)
    ensures Filed(Rest(p, cards))
  {
    if cards == [] {
    } else {
      GreedyKeepsFiled(Pop(p, cards[0]), cards[1..]);
    }
  }

  /** What is left on each card after the choice, as the loop counts it. */
  lemma LeftIsRest(available: seq<string>, n: nat)
    requires Distinct(available) && n <= |available|
    ensures var ids, rest := Balanced(available, n), Rest(SortedPiles(available), BalancedCards(available, n));
            && |ids| == n && Distinct(ids) && Elements(ids) <= Elements(available)
            && forall c | c in CardsOf(Elements(available)) ::
                 c in rest && LeftOn(Elements(available), Elements(ids), c) == |rest[c]|
  {
    var p, cards := SortedPiles(available), BalancedCards(available, n);
    PilesOfAvailable(available);
    HandedContents(p, cards);
    GreedyKeepsFiled(p, cards);
    forall c | c in CardsOf(Elements(available))
      ensures c in Rest(p, cards)
      ensures LeftOn(Elements(available), Elements(Handed(p, cards)), c) == |Rest(p, cards)[c]|
    {
      PileIsOnCard(Rest(p, cards), c);
    }
  }

  lemma TakenCardShrinks(available: set<string>, taken: set<string>, c: string)
    requires taken <= available && c in CardsOf(taken)
    ensures c in CardsOf(available)
    ensures LeftOn(available, taken, c) < |OnCard(available, c)|
  {
    var x :| x in taken && Card(x) == c;
    assert x in OnCard(available, c) && x !in OnCard(available - taken, c);
    SubsetCardinality(OnCard(available - taken, c) + {x}, OnCard(available, c));
  }

  /** The result: `n` different available ids, and every card taken from is left within one
      of the fullest card. */
  lemma BalancedIsFair(available: seq<string>, n: nat)
    requires Distinct(available) && n <= |available|
    ensures var r, a := Elements(Balanced(available, n)), Elements(available);
            && |Balanced(available, n)| == n && Distinct(Balanced(available, n)) && r <= a
            && forall c, d | c in CardsOf(r) && d in CardsOf(a) :: LeftOn(a, r, c) + 1 >= LeftOn(a, r, d)
  {
    var p, cards := SortedPiles(available), BalancedCards(available, n);
    PilesOfAvailable(available);
    GreedyKeepsLevel(p, cards, {});
    LeftIsRest(available, n);
    var rest := Rest(p, cards);
    var a, r := Elements(available), Elements(Balanced(available, n));
    forall c, d | c in CardsOf(r) && d in CardsOf(a)
      ensures LeftOn(a, r, c) + 1 >= LeftOn(a, r, d)
    {
      TakenCardShrinks(a, r, c);
      PileIsOnCard(p, c);
      assert c in Touched(p, rest);
    }
  }

  /** One round: the inner loop over `Index`, on the counts. */
  method FindFullest(index: seq<string>, count: map<string, int>, ghost p: Piles) returns (allocateCard: string)
    requires Indexes(index, p) && count.Keys == p.Keys
    requires forall c | c in p :: count[c] == |p[c]|
    ensures allocateCard == Fullest(p, index, |index|).0
  {
    allocateCard := "";
    var max := 0;
    for i := 0 to |index|
      invariant (allocateCard, max) == Fullest(p, index, i)
    {
      assert index[i] in index;
      if count[index[i]] > max {
        max := count[index[i]];
        allocateCard := index[i];
      }
    }
  }

  /** What the remaining `n` rounds will hand out. */
  ghost function Upcoming(p: Piles, index: seq<string>, n: nat): seq<string>
    requires ValidPiles(p) && Indexes(index, p) && n <= |All(p)|
  {
    ChoicesAreGreedy(p, index, n);
    Handed(p, Choices(p, index, n))
  }

  lemma UpcomingStep(p: Piles, index: seq<string>, n: nat)
    requires ValidPiles(p) && Indexes(index, p) && 0 < n <= |All(p)|
    ensures var card := Fullest(p, index, |index|).0;
            && card in p && p[card] != []
            && ValidPiles(Pop(p, card)) && n - 1 <= |All(Pop(p, card))|
            && Upcoming(p, index, n) == [p[card][0]] + Upcoming(Pop(p, card), index, n - 1)
  {
    FullestIsMax(p, index, |index|);
    var card := Fullest(p, index, |index|).0;
    PopContents(p, card);
    ChoicesAreGreedy(p, index, n);
    ChoicesAreGreedy(Pop(p, card), index, n - 1);
    assert Choices(p, index, n)[1..] == Choices(Pop(p, card), index, n - 1);
  }

  /** The variables of the loop agree with each other, and enough ids are left. */
  ghost predicate InStep(p: Piles, count: map<string, int>, index: seq<string>, need: nat) {
    && ValidPiles(p) && Indexes(index, p) && need <= |All(p)|
    && count.Keys == p.Keys && forall c | c in p :: count[c] == |p[c]|
  }

  lemma InStepPop(p: Piles, count: map<string, int>, index: seq<string>, need: nat, done: seq<string>)
    requires InStep(p, count, index, need) && need > 0
    ensures var card := Fullest(p, index, |index|).0;
            && card in p && p[card] != []
            && InStep(Pop(p, card), count[card := count[card] - 1], index, need - 1)
            && done + Upcoming(p, index, need) == done + [p[card][0]] + Upcoming(Pop(p, card), index, need - 1)
            && (need == 1 ==> done + Upcoming(p, index, need) == done + [p[card][0]])
  {
    UpcomingStep(p, index, need);
  }

  lemma BalancedStart(available: seq<string>, n: nat)
    requires Distinct(available) && n <= |available|
    ensures var p := SortedPiles(available);
            var index := AscendingStrings(p.Keys);
            && ValidPiles(p) && Indexes(index, p) && n <= |All(p)|
            && Balanced(available, n) == Upcoming(p, index, n)
  {
    PilesOfAvailable(available);
  }

  method BalancedPolicy(available: seq<string>, allocationSize: nat) returns (deviceIds: seq<string>)
    requires Distinct(available)
    requires 1 <= allocationSize <= |available|
    ensures deviceIds == Balanced(available, allocationSize)
  {
    BalancedStart(available, allocationSize);
    var cards, count := GroupByCard(available);
    var index := SortedKeys(cards.Keys);
    deviceIds := TakeFullest(cards, count, index, allocationSize);
  }

  /** The allocation loop. */
  method TakeFullest(start: Piles, startCount: map<string, int>, index: seq<string>, allocationSize: nat)
    returns (deviceIds: seq<string>)
    requires InStep(start, startCount, index, allocationSize) && 1 <= allocationSize
    ensures deviceIds == Upcoming(start, index, allocationSize)
  {
    var cards, count, need := start, startCount, allocationSize;
    deviceIds := [];
    while true
      invariant need > 0
      invariant InStep(cards, count, index, need)
      invariant Upcoming(start, index, allocationSize) == deviceIds + Upcoming(cards, index, need)
      decreases need
    {
      InStepPop(cards, count, index, need, deviceIds);
      var allocateCard := FindFullest(index, count, cards);
      deviceIds := deviceIds + [cards[allocateCard][0]];
      need := need - 1;
      if need == 0 { break; }
      cards := cards[allocateCard := cards[allocateCard][1..]];
      count := count[allocateCard := count[allocateCard] - 1];
    }
  }

  /** The loops that file the ids by card and sort each card's list. */
  method GroupByCard(available: seq<string>) returns (cards: Piles, count: map<string, int>)
    ensures cards == SortedPiles(available)
    ensures count.Keys == cards.Keys && forall c | c in cards :: count[c] == |cards[c]|
  {
    var unsorted: Piles;
    unsorted, count := FileByCard(available);
    cards := SortPiles(unsorted);
  }

  method SortPiles(unsorted: Piles) returns (cards: Piles)
    ensures cards.Keys == unsorted.Keys && forall c | c in cards :: cards[c] == SortStrings(unsorted[c])
  {
    cards := unsorted;
    var keys := cards.Keys;
    while keys != {}
      invariant keys <= cards.Keys == unsorted.Keys
      invariant forall c | c in keys :: cards[c] == unsorted[c]
      invariant forall c | c in cards && c !in keys :: cards[c] == SortStrings(unsorted[c])
      decreases keys
    {
      var key :| key in keys;
      cards := cards[key := SortStrings(cards[key])];
      keys := keys - {key};
    }
  }

  method FileByCard(available: seq<string>) returns (cards: Piles, count: map<string, int>)
    ensures cards.Keys == count.Keys == CardsOf(Elements(available))
    ensures forall c | c in cards :: cards[c] == OfCard(available, c) && count[c] == |cards[c]|
  {
    cards, count := map[], map[];
    for i := 0 to |available|
      invariant Filing(cards, count, available[..i])
    {
      var card := Card(available[i]);
      FilingStep(cards, count, available, i);
      cards := cards[card := (if card in cards then cards[card] else []) + [available[i]]];
      count := count[card := (if card in count then count[card] else 0) + 1];
    }
    assert available[..|available|] == available;
    assert forall c | c in cards :: FiledOn(cards, count, available, c);
  }

  ghost predicate Filing(cards: Piles, count: map<string, int>, seen: seq<string>) {
    && cards.Keys == count.Keys == CardsOf(Elements(seen))
    && forall c :: FiledOn(cards, count, seen, c)
  }

  lemma FilingStep(cards: Piles, count: map<string, int>, available: seq<string>, i: nat)
    requires i < |available| && Filing(cards, count, available[..i])
    ensures var card := Card(available[i]);
            Filing(cards[card := (if card in cards then cards[card] else []) + [available[i]]],
                   count[card := (if card in count then count[card] else 0) + 1], available[..i+1])
  {
    var card := Card(available[i]);
    var cards' := cards[card := (if card in cards then cards[card] else []) + [available[i]]];
    var count' := count[card := (if card in count then count[card] else 0) + 1];
    var seen' := available[..i+1];
    SeenCards(available, i);
    forall c
      ensures FiledOn(cards', count', seen', c)
    {
      assert FiledOn(cards, count, available[..i], c);
      FiledOnCard(cards, count, available, i, c);
    }
  }

  lemma SeenCards(available: seq<string>, i: nat)
    requires i < |available|
    ensures CardsOf(Elements(available[..i+1])) == CardsOf(Elements(available[..i])) + {Card(available[i])}
  {
    assert Elements(available[..i+1]) == Elements(available[..i]) + {available[i]};
    CardsOfMore(Elements(available[..i]), available[i]);
  }

  ghost predicate FiledOn(cards: Piles, count: map<string, int>, seen: seq<string>, c: string) {
    if c in cards then c in count && cards[c] == OfCard(seen, c) && count[c] == |cards[c]|
    else c !in count && OfCard(seen, c) == []
  }

  lemma FiledOnCard(cards: Piles, count: map<string, int>, available: seq<string>, i: nat, c: string)
    requires i < |available| && FiledOn(cards, count, available[..i], c)
    ensures var card := Card(available[i]);
            FiledOn(cards[card := (if card in cards then cards[card] else []) + [available[i]]],
                    count[card := (if card in count then count[card] else 0) + 1], available[..i+1], c)
  {
    OfCardStep(available, i, c);
  }

  lemma OfCardStep(ids: seq<string>, i: nat, c: string)
    requires i < |ids|
    ensures OfCard(ids[..i+1], c) == OfCard(ids[..i], c) + (if Card(ids[i]) == c then [ids[i]] else [])
  {
    assert ids[..i+1][..i] == ids[..i];
  }

  // ------------------------------------------------------------- optimality

  ghost function OnCards(ids: set<string>, cards: set<string>): set<string> {
    set id | id in ids && Card(id) in cards
  }

  /** Comparing two sets of ids card by card. */
  lemma {:induction false} CompareByCard(cards: set<string>, a: set<string>, b: set<string>)
    requires forall c | c in cards :: |OnCard(a, c)| <= |OnCard(b, c)|
    ensures |OnCards(a, cards)| <= |OnCards(b, cards)|
    ensures (exists c | c in cards :: |OnCard(a, c)| < |OnCard(b, c)|) ==> |OnCards(a, cards)| < |OnCards(b, cards)|
  {
    if cards != {} {
      var c :| c in cards;
      CompareByCard(cards - {c}, a, b);
      SplitOffCard(a, cards, c);
      SplitOffCard(b, cards, c);
    } else {
      assert OnCards(a, cards) == {};
    }
  }

  lemma SplitOffCard(ids: set<string>, cards: set<string>, c: string)
    requires c in cards
    ensures |OnCards(ids, cards)| == |OnCards(ids, cards - {c})| + |OnCard(ids, c)|
  {
    assert OnCards(ids, cards) == OnCards(ids, cards - {c}) + OnCard(ids, c);
    assert OnCards(ids, cards - {c}) !! OnCard(ids, c);
  }

  lemma LeftPlusTaken(available: set<string>, taken: set<string>, c: string)
    requires taken <= available
    ensures LeftOn(available, taken, c) + |OnCard(taken, c)| == |OnCard(available, c)|
  {
    assert OnCard(available, c) == OnCard(available - taken, c) + OnCard(taken, c);
  }

  /** A choice whose cards are left level minimises the largest leftover: whatever `other`
      choice of the same size is made, each leftover of `level` is matched on some card. */
  lemma LevelIsOptimal(available: set<string>, level: set<string>, other: set<string>, d: string)
    requires level <= available && other <= available && |level| == |other|
    requires forall c, e | c in CardsOf(level) && e in CardsOf(available) ::
               LeftOn(available, level, c) + 1 >= LeftOn(available, level, e)
    requires d in CardsOf(available)
    ensures exists c | c in CardsOf(available) :: LeftOn(available, other, c) >= LeftOn(available, level, d)
  {
    var most := LeftOn(available, level, d);
    var cards := CardsOf(available);
    assert OnCards(level, cards) == level && OnCards(other, cards) == other;
    if most > 0 && forall c | c in cards :: LeftOn(available, other, c) < most {
      forall c | c in cards
        ensures |OnCard(level, c)| <= |OnCard(other, c)|
        ensures c == d ==> |OnCard(level, c)| < |OnCard(other, c)|
      {
        LeftPlusTaken(available, level, c);
        LeftPlusTaken(available, other, c);
        if c !in CardsOf(level) { assert OnCard(level, c) == {}; }
      }
      CompareByCard(cards, level, other);
      assert false;
    }
    if most == 0 { assert LeftOn(available, other, d) >= most; }
  }

  /** No choice of `n` ids leaves every card with fewer ids than the balanced one leaves on
      its fullest card. */
  lemma BalancedIsOptimal(available: seq<string>, n: nat, other: set<string>, d: string)
    requires Distinct(available) && n <= |available|
    requires other <= Elements(available) && |other| == n
    requires d in CardsOf(Elements(available))
    ensures var a, r := Elements(available), Elements(Balanced(available, n));
            exists c | c in CardsOf(a) :: LeftOn(a, other, c) >= LeftOn(a, r, d)
  {
    BalancedIsFair(available, n);
    DistinctCardinality(Balanced(available, n));
    LevelIsOptimal(Elements(available), Elements(Balanced(available, n)), other, d);
  }
}
