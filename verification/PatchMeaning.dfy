/** What the webhook's patch does to a container. */
module PatchMeaning {
  import opened Common
  import opened Sorting
  import opened Containers
  import opened PatcherState
  import opened PatchOps

  // ------------------------------------------------------ applying the parts

  lemma {:induction false} ApplyRemoves(idx: nat, order: seq<string>, c: Container)
    requires Distinct(order)
    requires forall r | r in order :: r in c.limits && r in c.requests
    ensures ApplyOps(Removes(idx, order), c) ==
            Some(c.(limits := c.limits - Elements(order), requests := c.requests - Elements(order)))
  {
    if order == [] {
      assert Elements(order) == {};
      assert c.limits - {} == c.limits && c.requests - {} == c.requests;
    } else {
      var front, last := order[..|order|-1], order[|order|-1];
      ApplyRemoves(idx, front, c);
      var c' := c.(limits := c.limits - Elements(front), requests := c.requests - Elements(front));
      assert last !in Elements(front);
      RemoveBoth(idx, last, c');
      assert Elements(order) == Elements(front) + {last};
      assert c'.limits - {last} == c.limits - Elements(order);
      assert c'.requests - {last} == c.requests - Elements(order);
      var token := Escape(last);
      ApplyConcat(Removes(idx, front), [RemoveResource(idx, Limits, token), RemoveResource(idx, Requests, token)], c);
    }
  }

  lemma ApplyTwo(a: Op, b: Op, c: Container)
    ensures ApplyOps([a, b], c) == match ApplyOp(a, c) case None => None case Some(c') => ApplyOp(b, c')
  {
    assert [a, b][1..] == [b];
    if ApplyOp(a, c).Some? {
      var c' := ApplyOp(a, c).value;
      assert [b][1..] == [];
      assert ApplyOps([b], c') == ApplyOp(b, c');
    }
  }

  lemma RemoveBoth(idx: nat, r: string, c: Container)
    requires r in c.limits && r in c.requests
    ensures ApplyOps([RemoveResource(idx, Limits, Escape(r)), RemoveResource(idx, Requests, Escape(r))], c) ==
            Some(c.(limits := c.limits - {r}, requests := c.requests - {r}))
  {
    UnescapeEscape(r);
    ApplyTwo(RemoveResource(idx, Limits, Escape(r)), RemoveResource(idx, Requests, Escape(r)), c);
  }

  /** The resource list after the additions for `order`. */
  function AddAll(m: map<string, Quantity>, totals: map<string, Int64>, order: seq<string>): map<string, Quantity>
    requires forall t | t in order :: t in totals
  {
    if order == [] then m
    else
      var t := order[|order|-1];
      AddAll(m, totals, order[..|order|-1])[Unescape(t) := Plain(totals[t])]
  }

  lemma {:induction false} ApplyAdds(idx: nat, totals: map<string, Int64>, order: seq<string>, c: Container)
    requires forall t | t in order :: t in totals
    ensures ApplyOps(Adds(idx, totals, order), c) ==
            Some(c.(limits := AddAll(c.limits, totals, order), requests := AddAll(c.requests, totals, order)))
  {
    if order == [] {
    } else {
      var front, t := order[..|order|-1], order[|order|-1];
      ApplyAdds(idx, totals, front, c);
      var c' := c.(limits := AddAll(c.limits, totals, front), requests := AddAll(c.requests, totals, front));
      AddBoth(idx, t, totals[t], c');
      ApplyConcat(Adds(idx, totals, front),
                  [AddResource(idx, Limits, t, totals[t]), AddResource(idx, Requests, t, totals[t])], c);
    }
  }

  lemma AddBoth(idx: nat, t: string, q: Int64, c: Container)
    ensures ApplyOps([AddResource(idx, Limits, t, q), AddResource(idx, Requests, t, q)], c) ==
            Some(c.(limits := c.limits[Unescape(t) := Plain(q)], requests := c.requests[Unescape(t) := Plain(q)]))
  {
    ApplyTwo(AddResource(idx, Limits, t, q), AddResource(idx, Requests, t, q), c);
  }

  // --------------------------------------------------- the resolved resources

  /** The resource list a reader expects: FPGA names replaced by the actual resources with
      their totals, everything else untouched. */
  ghost function Resolved(m: map<string, Quantity>, totals: map<string, Int64>): map<string, Quantity>
    requires forall t | t in totals :: IsMapping(t)
  {
    map k | k in OtherNames(m) + ActualNames(totals) ::
      ActualNameIs(totals, k);
      if k in ActualNames(totals) then Plain(totals[Escape(k)]) else m[k]
  }

  ghost function OtherNames(m: map<string, Quantity>): set<string> { set k | k in m && !(NAMESPACE <= k) }

  /** The actual resource names that were escaped into the keys of `totals`. */
  ghost function ActualNames(totals: map<string, Int64>): set<string> { set t | t in totals :: Unescape(t) }

  /** For an escaped name, being the escape of `k` and unescaping to `k` are the same. */
  lemma MappingEscapes(t: string, k: string)
    requires IsMapping(t)
    ensures Unescape(t) == k <==> t == Escape(k)
    ensures NAMESPACE + "/" <= Unescape(t)
  {
    var u :| NAMESPACE + "/" <= u && t == Escape(u);
    UnescapeEscape(u);
    UnescapeEscape(k);
  }

  lemma {:induction false} AddAllAt(m: map<string, Quantity>, totals: map<string, Int64>, order: seq<string>, k: string)
    requires forall t | t in order :: t in totals && IsMapping(t)
    ensures var r := AddAll(m, totals, order);
            && (k in r <==> k in m || Escape(k) in order)
            && (Escape(k) in order ==> r[k] == Plain(totals[Escape(k)]))
            && (k in m && Escape(k) !in order ==> r[k] == m[k])
  {
    if order == [] {
    } else {
      var front, last := order[..|order|-1], order[|order|-1];
      assert order == front + [last];
      AddAllAt(m, totals, front, k);
      MappingEscapes(last, k);
    }
  }

  /** Whatever order the sums are added in, the outcome is the resolved list. */
  lemma AddAllResolves(m: map<string, Quantity>, totals: map<string, Int64>, order: seq<string>)
    requires forall t :: t in order <==> t in totals
    requires forall t | t in totals :: IsMapping(t)
    requires forall k | k in m :: !(NAMESPACE <= k)
    ensures AddAll(m, totals, order) == Resolved(m, totals)
  {
    var r := AddAll(m, totals, order);
    forall k
      ensures k in r <==> k in Resolved(m, totals)
      ensures k in r ==> r[k] == Resolved(m, totals)[k]
    {
      AddAllAt(m, totals, order, k);
      ActualNameIs(totals, k);
    }
  }

  lemma ActualNameIs(totals: map<string, Int64>, k: string)
    requires forall t | t in totals :: IsMapping(t)
    ensures k in ActualNames(totals) <==> Escape(k) in totals
    ensures k in ActualNames(totals) ==> NAMESPACE + "/" <= k && NAMESPACE <= k
  {
    if k in ActualNames(totals) {
      var t :| t in totals && Unescape(t) == k;
      MappingEscapes(t, k);
      assert NAMESPACE <= NAMESPACE + "/" <= k;
    }
    if Escape(k) in totals { MappingEscapes(Escape(k), k); }
  }

  // ------------------------------------------------------------ the theorem

  /** The loop goes over exactly the requested resources, and they are registered in one
      known mode. */
  ghost predicate Resolvable(s: State, c: Container, order: seq<string>) {
    && Consistent(s) && Acceptable(c, NAMESPACE)
    && Enumerates(order, Requested(c, NAMESPACE).Keys)
    && Uniform(s, order)
  }

  lemma ResolvableNames(s: State, c: Container, order: seq<string>)
    requires Resolvable(s, c, order)
    ensures forall r | r in order :: r in s.modeMap && r in s.resourceMap && (s.modeMap[r] == REGION ==> r in s.afMap)
    ensures forall r | r in order :: r in Requested(c, NAMESPACE)
  {
    assert forall r | r in order :: r in Elements(order);
  }

  ghost function ContainerTotals(s: State, c: Container, order: seq<string>): (totals: map<string, Int64>)
    requires Resolvable(s, c, order)
    ensures forall t | t in totals :: IsMapping(t)
  {
    Totals(s, Requested(c, NAMESPACE), order)
  }

  ghost function ContainerPairs(s: State, c: Container, order: seq<string>): seq<(string, string)>
    requires Resolvable(s, c, order)
  {
    Pairs(s, Requested(c, NAMESPACE), order)
  }

  /** The environment after patching: unchanged unless there are regions to program. */
  ghost function PatchedEnv(pairs: seq<(string, string)>, env: seq<EnvVar>): seq<EnvVar> {
    if pairs == [] then env else EnvList(Merged(Generated(pairs), Sanitized(env)))
  }

  /** The container the user gets. */
  ghost function Patched(s: State, c: Container, order: seq<string>): Container
    requires Resolvable(s, c, order)
  {
    var totals := ContainerTotals(s, c, order);
    Container(Resolved(c.limits, totals), Resolved(c.requests, totals),
              PatchedEnv(ContainerPairs(s, c, order), c.env))
  }

  /** What is left of a resource list when the requested names are removed. */
  lemma RemovedRequested(c: Container, order: seq<string>)
    requires Acceptable(c, NAMESPACE) && Enumerates(order, Requested(c, NAMESPACE).Keys)
    ensures forall r | r in order :: r in c.limits && r in c.requests
    ensures forall k | k in c.limits - Elements(order) :: !(NAMESPACE <= k)
    ensures forall k | k in c.requests - Elements(order) :: !(NAMESPACE <= k)
    ensures OtherNames(c.limits - Elements(order)) == OtherNames(c.limits)
    ensures OtherNames(c.requests - Elements(order)) == OtherNames(c.requests)
  {
    forall r | r in order
      ensures r in c.limits && r in c.requests && NAMESPACE <= r
    {
      assert r in Elements(order);
    }
  }

  lemma ResolvedIgnoresRequested(m: map<string, Quantity>, m': map<string, Quantity>,
                                                    totals: map<string, Int64>)
    requires forall t | t in totals :: IsMapping(t)
    requires OtherNames(m') == OtherNames(m) && forall k | k in OtherNames(m) :: m'[k] == m[k]
    ensures Resolved(m', totals) == Resolved(m, totals)
  {
    forall k | k in Resolved(m, totals)
      ensures Resolved(m', totals)[k] == Resolved(m, totals)[k]
    {
      ActualNameIs(totals, k);
    }
  }

  lemma RemovesThenAdds(s: State, idx: nat, c: Container, order: seq<string>, addOrder: seq<string>)
    requires Resolvable(s, c, order)
    requires forall t :: t in addOrder <==> t in ContainerTotals(s, c, order)
    ensures var totals := ContainerTotals(s, c, order);
            ApplyOps(Removes(idx, order) + Adds(idx, totals, addOrder), c) ==
            Some(c.(limits := Resolved(c.limits, totals), requests := Resolved(c.requests, totals)))
  {
    var totals := ContainerTotals(s, c, order);
    RemovedRequested(c, order);
    ApplyRemoves(idx, order, c);
    var c' := c.(limits := c.limits - Elements(order), requests := c.requests - Elements(order));
    ApplyAdds(idx, totals, addOrder, c');
    AddAllResolves(c'.limits, totals, addOrder);
    AddAllResolves(c'.requests, totals, addOrder);
    ResolvedIgnoresRequested(c.limits, c'.limits, totals);
    ResolvedIgnoresRequested(c.requests, c'.requests, totals);
    ApplyConcat(Removes(idx, order), Adds(idx, totals, addOrder), c);
  }

  lemma ApplyEnvOps(idx: nat, pairs: seq<(string, string)>, c: Container)
    ensures ApplyOps(EnvOps(idx, pairs, c.env), c) == Some(c.(env := PatchedEnv(pairs, c.env)))
  {
    if pairs != [] {
      var op := AddEnv(idx, EnvList(Merged(Generated(pairs), Sanitized(c.env))));
      assert [op][1..] == [];
    }
  }

  /** The operations for a resolvable container exist, and applying them always works: it
      replaces the FPGA names by the actual resources with summed quantities, in limits and
      requests alike, and leaves the rest alone. The order of the additions has no effect. */
  lemma PatchApplies(s: State, idx: nat, c: Container, order: seq<string>, addOrder: seq<string>)
    requires Resolvable(s, c, order)
    requires Enumerates(addOrder, Targets(s, order))
    ensures OpsFor(s, idx, c, order, addOrder).Ok?
    ensures ApplyOps(OpsFor(s, idx, c, order, addOrder).value, c) == Some(Patched(s, c, order))
  {
    ResolvableNames(s, c, order);
    ScanContinues(s, order);
    assert forall t :: t in addOrder <==> t in Elements(addOrder);
    var totals, pairs := ContainerTotals(s, c, order), ContainerPairs(s, c, order);
    RemovesThenAdds(s, idx, c, order, addOrder);
    var c' := c.(limits := Resolved(c.limits, totals), requests := Resolved(c.requests, totals));
    ApplyEnvOps(idx, pairs, c');
    ApplyConcat(Removes(idx, order) + Adds(idx, totals, addOrder), EnvOps(idx, pairs, c.env), c);
  }

  // ----------------------------------------------------------------- totals

  lemma {:induction false} TotalIsSum(s: State, req: map<string, Int64>, order: seq<string>, target: string)
    requires Distinct(order)
    ensures TotalFor(s, req, order, target) == SumOver(Elements(order), r => Share(s, req, target, r))
  {
    if order == [] {
    } else {
      var front, last := order[..|order|-1], order[|order|-1];
      TotalIsSum(s, req, front, target);
      SumRemove(Elements(order), r => Share(s, req, target, r), last);
      assert Elements(order) - {last} == Elements(front);
    }
  }

  /** The sums, and so the patched resources, do not depend on the order of the loop. */
  lemma TotalsIgnoreOrder(s: State, c: Container, a: seq<string>, b: seq<string>)
    requires Resolvable(s, c, a) && Resolvable(s, c, b)
    ensures ContainerTotals(s, c, a) == ContainerTotals(s, c, b)
    ensures Patched(s, c, a).limits == Patched(s, c, b).limits && Patched(s, c, a).requests == Patched(s, c, b).requests
  {
    ResolvableNames(s, c, a);
    ResolvableNames(s, c, b);
    var req := Requested(c, NAMESPACE);
    forall r
      ensures r in a <==> r in b
    {
      assert r in a <==> r in Elements(a);
      assert r in b <==> r in Elements(b);
    }
    assert Targets(s, a) == Targets(s, b);
    forall t | t in Targets(s, a)
      ensures TotalFor(s, req, a, t) == TotalFor(s, req, b, t)
    {
      TotalIsSum(s, req, a, t);
      TotalIsSum(s, req, b, t);
    }
  }

  /** Nothing is lost or added: the totals of the actual resources add up to what was requested. */
  lemma TotalsConserve(s: State, c: Container, order: seq<string>)
    requires Resolvable(s, c, order)
    ensures SumOver(Targets(s, order), t => RequestedTotal(s, c, order, t)) ==
            SumOver(Requested(c, NAMESPACE).Keys, r => Quantities(c, r))
  {
    ResolvableNames(s, c, order);
    var req := Requested(c, NAMESPACE);
    assert forall r | r in order :: s.resourceMap[r] in Targets(s, order);
    SharesAddUp(s, req, order, Targets(s, order));
    SumCongruent(Targets(s, order), t => TotalFor(s, req, order, t), t => RequestedTotal(s, c, order, t));
    SumCongruent(req.Keys, r => if r in req then req[r] else 0, r => Quantities(c, r));
  }

  ghost function Quantities(c: Container, r: string): int
    requires Acceptable(c, NAMESPACE)
  {
    if r in Requested(c, NAMESPACE) then Requested(c, NAMESPACE)[r] else 0
  }

  /** The sum before it is cut to 64 bits. */
  ghost function RequestedTotal(s: State, c: Container, order: seq<string>, t: string): int
    requires Resolvable(s, c, order)
  {
    TotalFor(s, Requested(c, NAMESPACE), order, t)
  }

  lemma {:induction false} SharesAddUp(s: State, req: map<string, Int64>, order: seq<string>, targets: set<string>)
    requires Distinct(order) && forall r | r in order :: r in req && r in s.resourceMap && s.resourceMap[r] in targets
    ensures SumOver(targets, t => TotalFor(s, req, order, t)) ==
            SumOver(Elements(order), r => if r in req then req[r] else 0)
  {
    if order == [] {
      SumZero(targets, t => TotalFor(s, req, order, t));
    } else {
      var front, last := order[..|order|-1], order[|order|-1];
      SharesAddUp(s, req, front, targets);
      SumRaise(targets, t => TotalFor(s, req, front, t), t => TotalFor(s, req, order, t), s.resourceMap[last], req[last]);
      SumRemove(Elements(order), r => if r in req then req[r] else 0, last);
      assert Elements(order) - {last} == Elements(front);
    }
  }

  /** The quantity written for an actual resource is its total, unless that does not fit. */
  lemma TotalsFit(s: State, c: Container, order: seq<string>, t: string)
    requires Resolvable(s, c, order) && t in Targets(s, order)
    ensures t in ContainerTotals(s, c, order)
    ensures ContainerTotals(s, c, order)[t] == RequestedTotal(s, c, order, t) <==>
            -0x8000_0000_0000_0000 <= RequestedTotal(s, c, order, t) < 0x8000_0000_0000_0000
  {
    ResolvableNames(s, c, order);
    WrapSum(RequestedTotal(s, c, order, t), 0);
  }

  /** The devices of the resource `k` the container asks for, by the names registered for it. */
  ghost function AskedFor(s: State, c: Container, k: string, r: string): int
    requires Acceptable(c, NAMESPACE)
  {
    if r in s.resourceMap && s.resourceMap[r] == Escape(k) then Quantities(c, r) else 0
  }

  /** The resources of the patched container: names outside the FPGA namespace are kept with their
      quantities, and of the others exactly those remain that a requested name is registered for,
      with the sum of what was asked for, in limits and requests alike. */
  lemma PatchedResources(s: State, c: Container, order: seq<string>, k: string)
    requires Resolvable(s, c, order)
    ensures !(NAMESPACE <= k) ==>
              && SameQuantity(c.limits, Patched(s, c, order).limits, k)
              && SameQuantity(c.requests, Patched(s, c, order).requests, k)
    ensures NAMESPACE <= k ==>
              && (k in Patched(s, c, order).limits <==>
                  exists r | r in Requested(c, NAMESPACE) :: r in s.resourceMap && s.resourceMap[r] == Escape(k))
              && SameQuantity(Patched(s, c, order).limits, Patched(s, c, order).requests, k)
              && (k in Patched(s, c, order).limits ==>
                    Patched(s, c, order).limits[k] ==
                    Plain(Wrap64(SumOver(Requested(c, NAMESPACE).Keys, r => AskedFor(s, c, k, r)))))
  {
    var totals := ContainerTotals(s, c, order);
    ActualNameIs(totals, k);
    ResolvableNames(s, c, order);
    assert forall r | r in Requested(c, NAMESPACE) :: r in Elements(order);
    if Escape(k) in totals { TotalAskedFor(s, c, order, k); }
  }

  predicate SameQuantity(a: map<string, Quantity>, b: map<string, Quantity>, k: string) {
    (k in a <==> k in b) && (k in a ==> a[k] == b[k])
  }

  lemma TotalAskedFor(s: State, c: Container, order: seq<string>, k: string)
    requires Resolvable(s, c, order) && Escape(k) in ContainerTotals(s, c, order)
    ensures ContainerTotals(s, c, order)[Escape(k)] ==
            Wrap64(SumOver(Requested(c, NAMESPACE).Keys, r => AskedFor(s, c, k, r)))
  {
    var req := Requested(c, NAMESPACE);
    ResolvableNames(s, c, order);
    TotalIsSum(s, req, order, Escape(k));
    SumCongruent(req.Keys, r => Share(s, req, Escape(k), r), r => AskedFor(s, c, k, r));
  }
}
