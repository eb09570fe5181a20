/** Sorting as the plugins use it: `sort.Strings`, `sort.Ints` and `sort.Slice`
    over a total order, and the facts about sorted prefixes the policies rest on. */
module Sorting {

  /** `leq` is a total order on `T`. */
  ghost predicate TotalOrder<T(!new)>(leq: (T, T) -> bool) {
    && (forall x, y :: leq(x, y) || leq(y, x))
    && (forall x, y :: leq(x, y) && leq(y, x) ==> x == y)
    && (forall x, y, z :: leq(x, y) && leq(y, z) ==> leq(x, z))
  }

  ghost predicate SortedBy<T>(s: seq<T>, leq: (T, T) -> bool) {
    forall i, j | 0 <= i < j < |s| :: leq(s[i], s[j])
  }

  ghost predicate Distinct<T>(s: seq<T>) {
    forall i, j | 0 <= i < j < |s| :: s[i] != s[j]
  }

  /** One insertion of an insertion sort. */
  function Insert<T>(x: T, s: seq<T>, leq: (T, T) -> bool): (r: seq<T>)
    ensures multiset(r) == multiset{x} + multiset(s)
  {
    if s == [] || leq(x, s[0]) then [x] + s
    else
      assert s == [s[0]] + s[1..];
      [s[0]] + Insert(x, s[1..], leq)
  }

  lemma {:induction false} InsertKeepsSorted<T(!new)>(x: T, s: seq<T>, leq: (T, T) -> bool)
    requires TotalOrder(leq)
    requires SortedBy(s, leq)
    ensures SortedBy(Insert(x, s, leq), leq)
  {
    if s != [] && !leq(x, s[0]) {
      var t := Insert(x, s[1..], leq);
      InsertKeepsSorted(x, s[1..], leq);
      forall k | 0 <= k < |t|
        ensures leq(s[0], t[k])
      {
        assert t[k] in multiset(t);
        assert t[k] == x || t[k] in s[1..];
      }
    }
  }

  function Sort<T(!new)>(s: seq<T>, leq: (T, T) -> bool): (r: seq<T>)
    requires TotalOrder(leq)
    ensures SortedBy(r, leq)
    ensures multiset(r) == multiset(s)
    ensures |r| == |s|
  {
    if s == [] then []
    else
      assert s == [s[0]] + s[1..];
      var t := Sort(s[1..], leq);
      InsertKeepsSorted(s[0], t, leq);
      var r := Insert(s[0], t, leq);
      assert |r| == |multiset(r)| == |multiset(s)|;
      r
  }

  /** A multiset has only one sorted arrangement. */
  lemma {:induction false} SortedUnique<T(!new)>(a: seq<T>, b: seq<T>, leq: (T, T) -> bool)
    requires TotalOrder(leq)
    requires SortedBy(a, leq) && SortedBy(b, leq)
    requires multiset(a) == multiset(b)
    ensures a == b
  {
    assert |a| == |multiset(a)| == |multiset(b)| == |b|;
    if a == [] {
    } else {
      SameFirst(a, b, leq);
      WithoutFirst(a);
      WithoutFirst(b);
      SortedUnique(a[1..], b[1..], leq);
    }
  }

  lemma SameFirst<T(!new)>(a: seq<T>, b: seq<T>, leq: (T, T) -> bool)
    requires TotalOrder(leq) && SortedBy(a, leq) && SortedBy(b, leq)
    requires a != [] && b != [] && multiset(a) == multiset(b)
    ensures a[0] == b[0]
  {
    assert a[0] in multiset(b) && b[0] in multiset(a);
  }

  lemma WithoutFirst<T>(s: seq<T>)
    requires s != []
    ensures s == [s[0]] + s[1..]
    ensures multiset(s[1..]) == multiset(s) - multiset{s[0]}
  {
    assert s == [s[0]] + s[1..];
  }

  /** Sorting sees the elements only, not the order they arrive in. */
  lemma SortIgnoresOrder<T(!new)>(a: seq<T>, b: seq<T>, leq: (T, T) -> bool)
    requires TotalOrder(leq)
    requires multiset(a) == multiset(b)
    ensures Sort(a, leq) == Sort(b, leq)
  {
    SortedUnique(Sort(a, leq), Sort(b, leq), leq);
  }

  lemma SubsetCardinality<T>(a: set<T>, b: set<T>)
    requires a <= b
    ensures |a| <= |b|
  {
    assert b == a + (b - a);
  }

  /** Permutations keep distinctness. */
  lemma DistinctPermutation<T>(a: seq<T>, b: seq<T>)
    requires Distinct(a) && multiset(a) == multiset(b)
    ensures Distinct(b)
  {
    forall i, j | 0 <= i < j < |b|
      ensures b[i] != b[j]
    {
      if b[i] == b[j] {
        assert b == b[..i] + [b[i]] + b[i+1..j] + [b[j]] + b[j+1..];
        assert multiset(b)[b[i]] >= 2;
        DistinctMultiplicity(a, b[i]);
      }
    }
  }

  lemma {:induction false} DistinctMultiplicity<T>(a: seq<T>, x: T)
    requires Distinct(a)
    ensures multiset(a)[x] <= 1
  {
    if a == [] {
    } else {
      DistinctMultiplicity(a[1..], x);
      assert a == [a[0]] + a[1..];
    }
  }

  ghost function Elements<T>(s: seq<T>): set<T> { set x | x in s }

  /** In a sequence without repetition the length is the number of elements. */
  lemma {:induction false} DistinctCardinality<T>(s: seq<T>)
    requires Distinct(s)
    ensures |Elements(s)| == |s|
  {
    if s == [] {
    } else {
      DistinctCardinality(s[1..]);
      assert Elements(s) == Elements(s[1..]) + {s[0]};
    }
  }

  /** `r` lists the elements of `s` once each, in any order. */
  ghost predicate Enumerates<T>(r: seq<T>, s: set<T>) { Distinct(r) && Elements(r) == s }

  /** The keys of a Go map in the order the runtime happens to choose. */
  method Enumerate<T>(s: set<T>) returns (r: seq<T>)
    ensures Enumerates(r, s)
  {
    var rest := s;
    r := [];
    while rest != {}
      invariant rest <= s
      invariant Distinct(r) && Elements(r) == s - rest
      decreases rest
    {
      var x :| x in rest;
      assert x !in Elements(r);
      assert Elements(r + [x]) == Elements(r) + {x};
      r := r + [x];
      rest := rest - {x};
    }
  }

  /** `r` lists the elements of `s` once each in ascending order. */
  ghost predicate Lists<T(!new)>(r: seq<T>, s: set<T>, leq: (T, T) -> bool) {
    SortedBy(r, leq) && Distinct(r) && forall x :: x in r <==> x in s
  }

  lemma ListingUnique<T(!new)>(a: seq<T>, b: seq<T>, s: set<T>, leq: (T, T) -> bool)
    requires TotalOrder(leq)
    requires Lists(a, s, leq) && Lists(b, s, leq)
    ensures a == b
  {
    forall x
      ensures multiset(a)[x] == multiset(b)[x]
    {
      DistinctMultiplicity(a, x);
      DistinctMultiplicity(b, x);
      assert x in multiset(a) <==> x in a;
      assert x in multiset(b) <==> x in b;
    }
    assert multiset(a) == multiset(b);
    SortedUnique(a, b, leq);
  }

  /** The one ascending listing of a set. */
  ghost function Ascending<T(!new)>(s: set<T>, leq: (T, T) -> bool): (r: seq<T>)
    requires TotalOrder(leq)
    ensures Lists(r, s, leq)
  {
    if s == {} then []
    else
      var x :| x in s;
      var rest := Ascending(s - {x}, leq);
      InsertKeepsSorted(x, rest, leq);
      var r := Insert(x, rest, leq);
      assert multiset([x] + rest) == multiset(r);
      DistinctPermutation([x] + rest, r);
      assert forall y :: y in r <==> y in multiset(r);
      r
  }

  /** Collecting the keys of a Go map and sorting them. */
  method SortedElements<T(!new)>(s: set<T>, leq: (T, T) -> bool) returns (r: seq<T>)
    requires TotalOrder(leq)
    ensures Lists(r, s, leq)
    ensures r == Ascending(s, leq)
  {
    var rest := s;
    var list: seq<T> := [];
    while rest != {}
      invariant rest <= s
      invariant Distinct(list)
      invariant forall x :: x in list <==> x in s && x !in rest
      decreases rest
    {
      var x :| x in rest;
      rest := rest - {x};
      list := list + [x];
    }
    r := Sort(list, leq);
    DistinctPermutation(list, r);
    assert forall x :: x in r <==> x in multiset(r);
    assert forall x :: x in list <==> x in multiset(list);
    ListingUnique(r, Ascending(s, leq), s, leq);
  }

  function MapSeq<A, B>(s: seq<A>, f: A -> B): (r: seq<B>)
    ensures |r| == |s|
  {
    seq(|s|, i requires 0 <= i < |s| => f(s[i]))
  }

  lemma {:induction false} MapCount<A, B>(s: seq<A>, f: A -> B, y: B)
    requires Distinct(s)
    ensures multiset(MapSeq(s, f))[y] == |set x | x in Elements(s) && f(x) == y|
  {
    if s == [] {
    } else {
      var front, last := s[..|s|-1], s[|s|-1];
      MapCount(front, f, y);
      assert MapSeq(s, f) == MapSeq(front, f) + [f(last)];
      MatchesStep(front, last, f, y);
      assert s == front + [last];
    }
  }

  lemma MatchesStep<A, B>(front: seq<A>, last: A, f: A -> B, y: B)
    requires last !in front
    ensures |set x | x in Elements(front + [last]) && f(x) == y| ==
            |set x | x in Elements(front) && f(x) == y| + if f(last) == y then 1 else 0
  {
    var before := set x | x in Elements(front) && f(x) == y;
    assert last !in before;
    assert (set x | x in Elements(front + [last]) && f(x) == y) == before + if f(last) == y then {last} else {};
  }

  /** Going through the same elements in another order gives the same results. */
  lemma MapIgnoresOrder<A, B(!new)>(a: seq<A>, b: seq<A>, f: A -> B)
    requires Distinct(a) && Distinct(b) && Elements(a) == Elements(b)
    ensures multiset(MapSeq(a, f)) == multiset(MapSeq(b, f))
  {
    forall y
      ensures multiset(MapSeq(a, f))[y] == multiset(MapSeq(b, f))[y]
    {
      MapCount(a, f, y);
      MapCount(b, f, y);
    }
  }

  // -------------------------------------------------------------------- sums

  ghost function SumOver<T>(s: set<T>, f: T -> int): int {
    if s == {} then 0
    else
      var x :| x in s;
      f(x) + SumOver(s - {x}, f)
  }

  lemma {:induction false} SumRemove<T>(s: set<T>, f: T -> int, x: T)
    requires x in s
    ensures SumOver(s, f) == f(x) + SumOver(s - {x}, f)
    decreases |s|
  {
    var y :| y in s && SumOver(s, f) == f(y) + SumOver(s - {y}, f);
    if y != x {
      SumRemove(s - {y}, f, x);
      SumRemove(s - {x}, f, y);
      assert s - {y} - {x} == s - {x} - {y};
    }
  }

  lemma {:induction false} SumCongruent<T>(s: set<T>, f: T -> int, g: T -> int)
    requires forall x | x in s :: f(x) == g(x)
    ensures SumOver(s, f) == SumOver(s, g)
    decreases |s|
  {
    if s == {} {
    } else {
      var x :| x in s;
      SumRemove(s, f, x);
      SumRemove(s, g, x);
      SumCongruent(s - {x}, f, g);
    }
  }

  /** Raising one term raises the sum by as much. */
  lemma SumRaise<T>(s: set<T>, f: T -> int, g: T -> int, x: T, d: int)
    requires x in s && g(x) == f(x) + d
    requires forall y | y in s && y != x :: g(y) == f(y)
    ensures SumOver(s, g) == SumOver(s, f) + d
  {
    SumRemove(s, f, x);
    SumRemove(s, g, x);
    SumCongruent(s - {x}, f, g);
  }

  lemma {:induction false} SumZero<T>(s: set<T>, f: T -> int)
    requires forall x | x in s :: f(x) == 0
    ensures SumOver(s, f) == 0
    decreases |s|
  {
    if s == {} {
    } else {
      var x :| x in s;
      SumRemove(s, f, x);
      SumZero(s - {x}, f);
    }
  }
}
