/** Preferred allocation of QAT virtual functions (cmd/qat_plugin/dpdkdrv/dpdkdrv.go).
    A device id is a PCI address `domain:bus:device.function`; the physical function is
    identified by domain and bus. */
module QatPolicy {
  import opened Sorting
  import opened Text

  predicate HasThreeFields(id: string) { |Split(id, ':')| >= 3 }

  predicate Swappable(ids: seq<string>) { forall id | id in ids :: HasThreeFields(id) }

  /** Exactly three fields, as in a PCI address. */
  predicate IsAddress(id: string) { |Split(id, ':')| == 3 }

  predicate AllAddresses(ids: seq<string>) { forall id | id in ids :: IsAddress(id) && HasThreeFields(id) }

  /** The address with its fields in reverse order; further fields are dropped. */
  function Swap(id: string): string
    requires HasThreeFields(id)
  {
    var f := Split(id, ':');
    f[2] + ":" + f[1] + ":" + f[0]
  }

  function SwapAll(ids: seq<string>): (r: seq<string>)
    requires Swappable(ids)
    ensures |r| == |ids|
  {
    seq(|ids|, i requires 0 <= i < |ids| => assert ids[i] in ids; Swap(ids[i]))
  }

  method SwapBDF(devstrings: seq<string>) returns (result: seq<string>)
    requires Swappable(devstrings)
    ensures result == SwapAll(devstrings)
  {
    result := [];
    for n := 0 to |devstrings|
      invariant result == SwapAll(devstrings)[..n]
    {
      assert devstrings[n] in devstrings;
      var tmp := Split(devstrings[n], ':');
      result := result + [tmp[2] + ":" + tmp[1] + ":" + tmp[0]];
    }
  }

  lemma SplitThree(a: string, b: string, c: string)
    requires ':' !in a && ':' !in b && ':' !in c
    ensures Split(a + ":" + b + ":" + c, ':') == [a, b, c]
  {
    SplitHead(c, [], ':');
    SplitHead(b, c, ':');
    SplitHead(a, b + ":" + c, ':');
    assert a + ":" + (b + ":" + c) == a + ":" + b + ":" + c;
  }

  lemma SwapFields(id: string)
    requires HasThreeFields(id)
    ensures var f := Split(id, ':'); Split(Swap(id), ':') == [f[2], f[1], f[0]]
    ensures IsAddress(Swap(id))
  {
    JoinSplit(id, ':');
    var f := Split(id, ':');
    assert f[0] in f && f[1] in f && f[2] in f;
    SplitThree(f[2], f[1], f[0]);
  }

  /** Swapping twice restores an id exactly when it has three fields. */
  lemma SwapInvolution(id: string)
    requires HasThreeFields(id)
    ensures IsAddress(Swap(id))
    ensures Swap(Swap(id)) == id <==> IsAddress(id)
  {
    SwapFields(id);
    SwapFields(Swap(id));
    if IsAddress(id) {
      var f := Split(id, ':');
      JoinSplit(id, ':');
      JoinThree(f);
    }
  }

  lemma JoinThree(f: seq<string>)
    requires |f| == 3
    ensures Join(f, ":") == f[0] + ":" + f[1] + ":" + f[2]
  {
    assert f[1..][1..] == [f[2]];
    assert Join(f[1..], ":") == f[1] + ":" + f[2];
    assert f[0] + ":" + (f[1] + ":" + f[2]) == f[0] + ":" + f[1] + ":" + f[2];
  }

  // -------------------------------------------------------------- policies

  function Balanced(available: seq<string>, n: nat): seq<string>
    requires n <= |available| && Swappable(available)
  {
    AddressesStay(available);
    SwapAll(SortStrings(SwapAll(available)))[..n]
  }

  lemma AddressesStay(available: seq<string>)
    requires Swappable(available)
    ensures AllAddresses(SwapAll(available))
    ensures AllAddresses(SortStrings(SwapAll(available)))
  {
    forall i | 0 <= i < |available|
      ensures IsAddress(SwapAll(available)[i])
    {
      assert available[i] in available;
      SwapInvolution(available[i]);
    }
    SortStringsMembers(SwapAll(available));
  }

  method BalancedPolicy(available: seq<string>, allocationSize: nat) returns (deviceIds: seq<string>)
    requires allocationSize <= |available|
    requires Swappable(available)
    ensures deviceIds == Balanced(available, allocationSize)
  {
    AddressesStay(available);
    deviceIds := SwapBDF(available);
    deviceIds := SortStrings(deviceIds);
    deviceIds := SwapBDF(deviceIds);
    deviceIds := deviceIds[..allocationSize];
  }

  /** Sorts the request's own slice. */
  method PackedPolicy(deviceIds: array<string>, allocationSize: nat) returns (r: seq<string>)
    requires allocationSize <= deviceIds.Length
    modifies deviceIds
    ensures deviceIds[..] == SortStrings(old(deviceIds[..]))
    ensures r == SortStrings(old(deviceIds[..]))[..allocationSize]
  {
    SortInPlace(deviceIds);
    r := deviceIds[..allocationSize];
  }

  // ---------------------------------------------------- what is handed out

  /** The ids with fields after the third cut off. */
  function Shortened(ids: seq<string>): seq<string>
    requires Swappable(ids)
  {
    AddressesStay(ids);
    SwapAll(SwapAll(ids))
  }

  /** Nothing is cut off exactly when all ids are PCI addresses. */
  lemma ShortenedExactly(ids: seq<string>)
    requires Swappable(ids)
    ensures Shortened(ids) == ids <==> AllAddresses(ids)
  {
    AddressesStay(ids);
    forall i | 0 <= i < |ids|
      ensures Shortened(ids)[i] == ids[i] <==> IsAddress(ids[i])
    {
      assert ids[i] in ids;
      SwapInvolution(ids[i]);
    }
    if Shortened(ids) != ids {
      var i :| 0 <= i < |ids| && Shortened(ids)[i] != ids[i];
      assert ids[i] in ids;
    }
  }

  /** The balanced order is a permutation of the shortened ids: of the available ones exactly
      when these are PCI addresses. */
  lemma BalancedOrder(available: seq<string>)
    requires Swappable(available)
    ensures AllAddresses(SortStrings(SwapAll(available)))
    ensures multiset(SwapAll(SortStrings(SwapAll(available)))) == multiset(Shortened(available))
    ensures multiset(SwapAll(SortStrings(SwapAll(available)))) == multiset(available) <==> AllAddresses(available)
  {
    AddressesStay(available);
    SwapMultiset(SortStrings(SwapAll(available)), SwapAll(available));
    ShortenedExactly(available);
    if multiset(Shortened(available)) == multiset(available) {
      AddressesStay(SwapAll(available));
      MembersAreAddresses(Shortened(available), available);
    }
  }

  lemma MembersAreAddresses(a: seq<string>, b: seq<string>)
    requires AllAddresses(a) && multiset(a) == multiset(b)
    ensures AllAddresses(b)
  {
    forall id | id in b
      ensures id in a
    {
      assert id in multiset(b);
    }
  }

  /** From an id with more fields alone, the policy hands out one that is not available. */
  lemma ShortIdHandedOut(id: string)
    requires HasThreeFields(id) && !IsAddress(id)
    ensures |Balanced([id], 1)| == 1 && Balanced([id], 1)[0] != id
  {
    AddressesStay([id]);
    var sorted := SortStrings(SwapAll([id]));
    assert sorted[0] in multiset(SwapAll([id]));
    SwapInvolution(id);
  }

  /** Swapping commutes with reordering. */
  lemma SwapMultiset(a: seq<string>, b: seq<string>)
    requires AllAddresses(a) && AllAddresses(b)
    requires multiset(a) == multiset(b)
    ensures multiset(SwapAll(a)) == multiset(SwapAll(b))
  {
    forall y
      ensures multiset(SwapAll(a))[y] == multiset(SwapAll(b))[y]
    {
      SwapCount(a, y);
      SwapCount(b, y);
    }
  }

  lemma {:induction false} SwapCount(a: seq<string>, y: string)
    requires AllAddresses(a)
    ensures multiset(SwapAll(a))[y] == if IsAddress(y) && HasThreeFields(y) then multiset(a)[Swap(y)] else 0
  {
    if a == [] {
    } else {
      SwapCount(a[1..], y);
      assert a == [a[0]] + a[1..];
      assert SwapAll(a) == [Swap(a[0])] + SwapAll(a[1..]);
      assert multiset(SwapAll(a)) == multiset{Swap(a[0])} + multiset(SwapAll(a[1..]));
      SwapInvolution(a[0]);
      if IsAddress(y) && HasThreeFields(y) { SwapInvolution(y); }
    }
  }

  /** Addresses handed out are available ones. */
  lemma BalancedAvailable(available: seq<string>, n: nat)
    requires n <= |available| && AllAddresses(available)
    ensures forall id | id in Balanced(available, n) :: id in available
  {
    BalancedOrder(available);
    var all := SwapAll(SortStrings(SwapAll(available)));
    forall id | id in Balanced(available, n)
      ensures id in available
    {
      assert id in all;
      assert id in multiset(all) && id in multiset(available);
    }
  }

  /** `n` different ids from the available ones. */
  lemma BalancedContents(available: seq<string>, n: nat)
    requires n <= |available| && AllAddresses(available)
    requires Distinct(available)
    ensures var r := Balanced(available, n);
            |r| == n && Distinct(r) && Elements(r) <= Elements(available)
  {
    BalancedOrder(available);
    DistinctPermutation(available, SwapAll(SortStrings(SwapAll(available))));
    BalancedAvailable(available, n);
  }

  // ------------------------------------------------------------- balancing

  /** The physical function an address belongs to. */
  function PhysicalFunction(id: string): (string, string)
    requires IsAddress(id)
  {
    (Split(id, ':')[0], Split(id, ':')[1])
  }

  /** The device and function number of an address. */
  function VirtualFunction(id: string): string
    requires IsAddress(id)
  {
    Split(id, ':')[2]
  }

  lemma AddressParts(id: string)
    requires IsAddress(id)
    ensures var pf, vf := PhysicalFunction(id), VirtualFunction(id);
            && id == pf.0 + ":" + pf.1 + ":" + vf && ':' !in pf.0 && ':' !in pf.1 && ':' !in vf
            && HasThreeFields(id) && vf + ":" <= Swap(id)
  {
    JoinSplit(id, ':');
    var f := Split(id, ':');
    JoinThree(f);
    assert f[0] in f && f[1] in f && f[2] in f;
  }

  /** Where an available id sits in the balanced order. */
  lemma PositionOf(available: seq<string>, id: string) returns (i: nat)
    requires AllAddresses(available) && id in available
    ensures i < |available|
    ensures AllAddresses(SortStrings(SwapAll(available)))
    ensures SortStrings(SwapAll(available))[i] == Swap(id)
    ensures SwapAll(SortStrings(SwapAll(available)))[i] == id
  {
    AddressesStay(available);
    var s := SortStrings(SwapAll(available));
    var k :| 0 <= k < |available| && available[k] == id;
    assert SwapAll(available)[k] == Swap(id);
    SortStringsMembers(SwapAll(available));
    assert Swap(id) in s;
    i :| 0 <= i < |s| && s[i] == Swap(id);
    SwapInvolution(id);
  }

  /** The virtual function at the cut between the taken and the other ids. */
  ghost function CutFunction(available: seq<string>, n: nat): string
    requires AllAddresses(available) && n < |available|
  {
    Split(SortStrings(SwapAll(available))[n], ':')[0]
  }

  /** A virtual function taken from one physical function but not from another that offers it
      is the one at the cut: swapped ids of one virtual function are contiguous when sorted. */
  lemma SplitOnlyAtCut(available: seq<string>, n: nat, x: string, y: string)
    requires AllAddresses(available) && n <= |available| && IsAddress(x) && IsAddress(y)
    requires x in Balanced(available, n) && y in available && y !in Balanced(available, n)
    requires VirtualFunction(x) == VirtualFunction(y)
    ensures n < |available| && CutFunction(available, n) == VirtualFunction(x)
  {
    AddressParts(x);
    AddressParts(y);
    AddressesStay(available);
    var i := TakenAt(available, n, x);
    var j := PositionOf(available, y);
    var s := SortStrings(SwapAll(available));
    assert forall k | 0 <= k < n :: SwapAll(s)[k] in Balanced(available, n);
    SameFirstField(s, VirtualFunction(x), i, n, j);
  }

  lemma TakenAt(available: seq<string>, n: nat, id: string) returns (i: nat)
    requires AllAddresses(available) && n <= |available| && id in Balanced(available, n)
    ensures i < n && HasThreeFields(id) && SortStrings(SwapAll(available))[i] == Swap(id)
  {
    AddressesStay(available);
    var s := SortStrings(SwapAll(available));
    i :| 0 <= i < n && Balanced(available, n)[i] == id;
    assert s[i] in s && SwapAll(s)[i] == id;
    SwapInvolution(s[i]);
  }

  lemma SameFirstField(s: seq<string>, f: string, i: nat, j: nat, k: nat)
    requires SortedBy(s, LexLeq) && ':' !in f && i <= j <= k < |s|
    requires f + ":" <= s[i] && f + ":" <= s[k]
    ensures Split(s[j], ':')[0] == f
  {
    PrefixContiguous(s, f + ":", i, j, k);
    SplitHead(f, s[j][|f|+1..], ':');
    assert s[j] == f + [':'] + s[j][|f|+1..];
  }

  /** The virtual functions of `pf` among the ids. */
  ghost function FunctionsOf(ids: seq<string>, pf: (string, string)): set<string> {
    set id | id in ids && IsAddress(id) && PhysicalFunction(id) == pf :: VirtualFunction(id)
  }

  /** The number taken from one physical function exceeds the number taken from another by at
      most one, not counting functions that only the first offers. */
  lemma BalancedIsFair(available: seq<string>, n: nat, p: (string, string), q: (string, string))
    requires AllAddresses(available) && n <= |available|
    ensures var r := Balanced(available, n);
            |FunctionsOf(r, p)| <= |FunctionsOf(r, q)| + 1 + |FunctionsOf(available, p) - FunctionsOf(available, q)|
  {
    var r := Balanced(available, n);
    var tp, tq := FunctionsOf(r, p), FunctionsOf(r, q);
    var only := FunctionsOf(available, p) - FunctionsOf(available, q);
    var extra := tp - tq - only;
    forall vf | vf in extra
      ensures n < |available| && vf == CutFunction(available, n)
    {
      ExtraIsAtCut(available, n, p, q, vf);
    }
    if extra != {} {
      assert extra == {CutFunction(available, n)};
    }
    SubsetCardinality(tp, tq + only + extra);
  }

  lemma ExtraIsAtCut(available: seq<string>, n: nat, p: (string, string), q: (string, string), vf: string)
    requires AllAddresses(available) && n <= |available|
    requires vf in FunctionsOf(Balanced(available, n), p) && vf !in FunctionsOf(Balanced(available, n), q)
    requires vf !in FunctionsOf(available, p) - FunctionsOf(available, q)
    ensures n < |available| && vf == CutFunction(available, n)
  {
    var r := Balanced(available, n);
    var x :| x in r && IsAddress(x) && PhysicalFunction(x) == p && VirtualFunction(x) == vf;
    BalancedAvailable(available, n);
    assert vf in FunctionsOf(available, p);
    var y :| y in available && IsAddress(y) && PhysicalFunction(y) == q && VirtualFunction(y) == vf;
    assert y !in r;
    SplitOnlyAtCut(available, n, x, y);
  }

  /** Physical functions that offer the same virtual functions are used evenly. */
  lemma BalancedIsEven(available: seq<string>, n: nat, p: (string, string), q: (string, string))
    requires AllAddresses(available) && n <= |available|
    requires FunctionsOf(available, p) == FunctionsOf(available, q)
    ensures var r := Balanced(available, n);
            -1 <= |FunctionsOf(r, p)| - |FunctionsOf(r, q)| <= 1
  {
    BalancedIsFair(available, n, p, q);
    BalancedIsFair(available, n, q, p);
  }

  ghost function IdsOf(ids: seq<string>, pf: (string, string)): set<string> {
    set id | id in ids && IsAddress(id) && PhysicalFunction(id) == pf
  }

  /** `FunctionsOf` counts the ids of the physical function. */
  lemma {:induction false} FunctionsCount(ids: seq<string>, pf: (string, string))
    ensures |FunctionsOf(ids, pf)| == |IdsOf(ids, pf)|
  {
    if ids == [] {
    } else {
      var front, last := ids[..|ids|-1], ids[|ids|-1];
      assert ids == front + [last];
      FunctionsCount(front, pf);
      if IsAddress(last) && PhysicalFunction(last) == pf {
        OneFunctionMore(front, pf, last);
        OneIdPerFunction(front, pf, last);
      } else {
        OtherFunction(front, pf, last);
      }
    }
  }

  lemma OneFunctionMore(ids: seq<string>, pf: (string, string), id: string)
    requires IsAddress(id) && PhysicalFunction(id) == pf
    ensures IdsOf(ids + [id], pf) == IdsOf(ids, pf) + {id}
    ensures FunctionsOf(ids + [id], pf) == FunctionsOf(ids, pf) + {VirtualFunction(id)}
  {
    assert forall x :: x in ids + [id] <==> x in ids || x == id;
  }

  lemma OtherFunction(ids: seq<string>, pf: (string, string), id: string)
    requires !(IsAddress(id) && PhysicalFunction(id) == pf)
    ensures IdsOf(ids + [id], pf) == IdsOf(ids, pf) && FunctionsOf(ids + [id], pf) == FunctionsOf(ids, pf)
  {
    assert forall x :: x in ids + [id] <==> x in ids || x == id;
  }

  lemma OneIdPerFunction(ids: seq<string>, pf: (string, string), id: string)
    requires IsAddress(id) && PhysicalFunction(id) == pf
    ensures VirtualFunction(id) in FunctionsOf(ids, pf) <==> id in IdsOf(ids, pf)
  {
    if VirtualFunction(id) in FunctionsOf(ids, pf) {
      var x :| x in ids && IsAddress(x) && PhysicalFunction(x) == pf && VirtualFunction(x) == VirtualFunction(id);
      AddressParts(x);
      AddressParts(id);
    }
  }

  // --------------------------------------------------------------- packing

  /** Some but not all available ids of the physical function are taken. */
  ghost predicate Partial(available: seq<string>, taken: seq<string>, pf: (string, string)) {
    && (exists id | id in taken :: IsAddress(id) && PhysicalFunction(id) == pf)
    && (exists id | id in available && id !in taken :: IsAddress(id) && PhysicalFunction(id) == pf)
  }

  lemma PhysicalFunctionPrefix(id: string)
    requires IsAddress(id)
    ensures var pf := PhysicalFunction(id); pf.0 + ":" + pf.1 + ":" <= id && ':' !in pf.0 && ':' !in pf.1
  {
    AddressParts(id);
  }

  lemma PrefixIsPhysicalFunction(id: string, pf: (string, string))
    requires IsAddress(id) && pf.0 + ":" + pf.1 + ":" <= id && ':' !in pf.0 && ':' !in pf.1
    ensures PhysicalFunction(id) == pf
  {
    var rest := id[|pf.0 + ":" + pf.1 + ":"|..];
    SplitHead(pf.1, rest, ':');
    SplitHead(pf.0, pf.1 + ":" + rest, ':');
    assert id == pf.0 + [':'] + (pf.1 + ":" + rest);
  }

  /** Packing leaves at most one physical function partially taken. */
  lemma PackedOnePartial(available: seq<string>, n: nat, p: (string, string), q: (string, string))
    requires AllAddresses(available) && n <= |available|
    requires Partial(available, SortStrings(available)[..n], p)
    requires Partial(available, SortStrings(available)[..n], q)
    ensures p == q
  {
    PartialIsAtCut(available, n, p);
    PartialIsAtCut(available, n, q);
  }

  lemma PartialIsAtCut(available: seq<string>, n: nat, pf: (string, string))
    requires AllAddresses(available) && n <= |available|
    requires Partial(available, SortStrings(available)[..n], pf)
    ensures n < |available|
    ensures IsAddress(SortStrings(available)[n]) && PhysicalFunction(SortStrings(available)[n]) == pf
  {
    var s := SortStrings(available);
    SortStringsMembers(available);
    var x :| x in s[..n] && IsAddress(x) && PhysicalFunction(x) == pf;
    var y :| y in available && y !in s[..n] && IsAddress(y) && PhysicalFunction(y) == pf;
    PhysicalFunctionPrefix(x);
    PhysicalFunctionPrefix(y);
    assert y in s;
    PrefixAtCut(s, n, pf.0 + ":" + pf.1 + ":", x, y);
    assert s[n] in s;
    PrefixIsPhysicalFunction(s[n], pf);
  }

  lemma PrefixAtCut(s: seq<string>, n: nat, prefix: string, x: string, y: string)
    requires SortedBy(s, LexLeq) && n <= |s| && x in s[..n] && y in s && y !in s[..n]
    requires prefix <= x && prefix <= y
    ensures n < |s| && prefix <= s[n]
  {
    var i :| 0 <= i < n && s[i] == x;
    assert forall k | 0 <= k < n :: s[k] == s[..n][k] && s[k] in s[..n];
    var j :| 0 <= j < |s| && s[j] == y;
    PrefixContiguous(s, prefix, i, n, j);
  }
}
