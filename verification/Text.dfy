/** Go strings as sequences of characters: byte-wise comparison, `strings.Split`,
    `strings.Join`, `strconv.Itoa` and their inverses. */
module Text {
  import opened Sorting

  // ---------------------------------------------------------------- ordering

  /** Go's `<=` on strings. */
  predicate LexLeq(a: string, b: string) {
    a == [] || (b != [] && (a[0] < b[0] || (a[0] == b[0] && LexLeq(a[1..], b[1..]))))
  }

  lemma {:induction false} LexTotal(a: string, b: string)
    ensures LexLeq(a, b) || LexLeq(b, a)
  {
    if a != [] && b != [] { LexTotal(a[1..], b[1..]); }
  }

  lemma {:induction false} LexAntisymmetric(a: string, b: string)
    requires LexLeq(a, b) && LexLeq(b, a)
    ensures a == b
  {
    if a != [] && b != [] {
      LexAntisymmetric(a[1..], b[1..]);
      assert a == [a[0]] + a[1..] && b == [b[0]] + b[1..];
    }
  }

  lemma {:induction false} LexTransitive(a: string, b: string, c: string)
    requires LexLeq(a, b) && LexLeq(b, c)
    ensures LexLeq(a, c)
  {
    if a != [] && a[0] == b[0] && b[0] == c[0] { LexTransitive(a[1..], b[1..], c[1..]); }
  }

  lemma LexIsTotalOrder()
    ensures TotalOrder(LexLeq)
  {
    forall x, y ensures LexLeq(x, y) || LexLeq(y, x) { LexTotal(x, y); }
    forall x, y | LexLeq(x, y) && LexLeq(y, x) ensures x == y { LexAntisymmetric(x, y); }
    forall x, y, z | LexLeq(x, y) && LexLeq(y, z) ensures LexLeq(x, z) { LexTransitive(x, y, z); }
  }

  /** The strings agree up to `i` and there the first one has the smaller character. */
  predicate LessAt(a: string, b: string, i: nat) {
    i < |a| && i < |b| && a[..i] == b[..i] && a[i] < b[i]
  }

  /** Dictionary order: a prefix comes first, otherwise the first difference decides. */
  lemma {:induction false} LexExactly(a: string, b: string)
    ensures LexLeq(a, b) <==> a <= b || exists i: nat :: LessAt(a, b, i)
  {
    if a == [] {
    } else if b == [] {
    } else if a[0] != b[0] {
      if a[0] < b[0] { assert LessAt(a, b, 0); }
      assert forall i: nat | i > 0 && i < |a| && i < |b| :: a[..i][0] != b[..i][0];
    } else {
      var x, y := a[1..], b[1..];
      LexExactly(x, y);
      assert a == [a[0]] + x && b == [b[0]] + y;
      if i: nat :| LessAt(x, y, i) {
        assert a[..i+1] == [a[0]] + x[..i] && b[..i+1] == [b[0]] + y[..i];
        assert LessAt(a, b, i + 1);
      }
      if i: nat :| LessAt(a, b, i) {
        assert x[..i-1] == a[..i][1..] && y[..i-1] == b[..i][1..];
        assert LessAt(x, y, i - 1);
      }
    }
  }

  /** Between two strings that start with `p` there are only strings that start with `p`. */
  lemma {:induction false} PrefixConvex(p: string, a: string, b: string, c: string)
    requires LexLeq(a, b) && LexLeq(b, c)
    requires p <= a && p <= c
    ensures p <= b
  {
    if p == [] {
    } else {
      assert p[0] == a[0] == c[0];
      assert p[1..] <= a[1..] && p[1..] <= c[1..];
      PrefixConvex(p[1..], a[1..], b[1..], c[1..]);
      assert p == [p[0]] + p[1..] && b == [b[0]] + b[1..];
    }
  }

  /** Hence the strings with prefix `p` are contiguous in any sorted list. */
  lemma PrefixContiguous(s: seq<string>, p: string, i: nat, j: nat, k: nat)
    requires SortedBy(s, LexLeq)
    requires i <= j <= k < |s|
    requires p <= s[i] && p <= s[k]
    ensures p <= s[j]
  {
    if i < j < k { PrefixConvex(p, s[i], s[j], s[k]); }
  }

  function SortStrings(s: seq<string>): (r: seq<string>)
    ensures SortedBy(r, LexLeq)
    ensures multiset(r) == multiset(s)
    ensures |r| == |s|
  {
    LexIsTotalOrder();
    Sort(s, LexLeq)
  }

  lemma SortStringsMembers(s: seq<string>)
    ensures forall x :: x in SortStrings(s) <==> x in s
  {
    assert forall x :: x in SortStrings(s) <==> x in multiset(SortStrings(s));
    assert forall x :: x in s <==> x in multiset(s);
  }

  /** The strings of a set in ascending order. */
  ghost function AscendingStrings(s: set<string>): (r: seq<string>)
    ensures Lists(r, s, LexLeq)
  {
    LexIsTotalOrder();
    Ascending(s, LexLeq)
  }

  /** Collecting the keys of a map and sorting them with `sort.Strings`. */
  method SortedKeys(s: set<string>) returns (r: seq<string>)
    ensures r == AscendingStrings(s)
  {
    LexIsTotalOrder();
    r := SortedElements(s, LexLeq);
  }

  /** `sort.Strings`: sorts the slice in place. */
  method SortInPlace(a: array<string>)
    modifies a
    ensures a[..] == SortStrings(old(a[..]))
  {
    var s := SortStrings(a[..]);
    for i := 0 to a.Length
      invariant a[..i] == s[..i]
    {
      a[i] := s[i];
    }
  }

  // ------------------------------------------------------- splitting, joining

  /** `strings.Split(s, sep)` for a one-character separator. */
  function Split(s: string, sep: char): (r: seq<string>)
    ensures |r| >= 1
  {
    if s == [] then [[]]
    else
      var rest := Split(s[1..], sep);
      if s[0] == sep then [[]] + rest
      else [[s[0]] + rest[0]] + rest[1..]
  }

  /** `strings.Join(parts, sep)`. */
  function Join(parts: seq<string>, sep: string): string {
    if parts == [] then []
    else if |parts| == 1 then parts[0]
    else parts[0] + sep + Join(parts[1..], sep)
  }

  /** Splitting a string at its first separator. */
  lemma {:induction false} SplitHead(a: string, b: string, sep: char)
    requires sep !in a
    ensures Split(a, sep) == [a]
    ensures Split(a + [sep] + b, sep) == [a] + Split(b, sep)
  {
    var s := a + [sep] + b;
    if a == [] {
      assert s[1..] == b;
    } else {
      SplitHead(a[1..], b, sep);
      assert s[1..] == a[1..] + [sep] + b;
      assert a == [a[0]] + a[1..];
    }
  }

  lemma {:induction false} SplitConcat(a: string, b: string, sep: char)
    ensures Split(a + [sep] + b, sep) == Split(a, sep) + Split(b, sep)
  {
    var s := a + [sep] + b;
    if a == [] {
      assert s[1..] == b;
    } else {
      SplitConcat(a[1..], b, sep);
      assert s[1..] == a[1..] + [sep] + b;
      PrependFirst(a[0], Split(a[1..], sep), Split(b, sep));
    }
  }

  lemma PrependFirst(c: char, parts: seq<string>, more: seq<string>)
    requires parts != []
    ensures [[c] + (parts + more)[0]] + (parts + more)[1..] == [[c] + parts[0]] + parts[1..] + more
    ensures [[]] + (parts + more) == [[]] + parts + more
  {
    assert (parts + more)[1..] == parts[1..] + more;
  }

  lemma {:induction false} SplitJoin(parts: seq<string>, sep: char)
    requires parts != []
    requires forall p | p in parts :: sep !in p
    ensures Split(Join(parts, [sep]), sep) == parts
  {
    assert sep !in parts[0];
    SplitHead(parts[0], Join(parts[1..], [sep]), sep);
    if |parts| > 1 {
      SplitJoin(parts[1..], sep);
      assert parts == [parts[0]] + parts[1..];
    }
  }

  lemma {:induction false} JoinSplit(s: string, sep: char)
    ensures Join(Split(s, sep), [sep]) == s
    ensures forall p | p in Split(s, sep) :: sep !in p
  {
    if s == [] {
    } else {
      JoinSplit(s[1..], sep);
      var rest := Split(s[1..], sep);
      assert s == [s[0]] + s[1..];
      if s[0] == sep {
        assert ([[]] + rest)[1..] == rest;
      } else {
        JoinPrependFirst(s[0], rest, [sep]);
        assert rest[0] in rest;
      }
    }
  }

  lemma JoinPrependFirst(c: char, parts: seq<string>, sep: string)
    requires parts != []
    ensures Join([[c] + parts[0]] + parts[1..], sep) == [c] + Join(parts, sep)
  {
    var whole := [[c] + parts[0]] + parts[1..];
    assert whole[1..] == parts[1..];
    if |parts| > 1 {
      var rest := Join(parts[1..], sep);
      assert ([c] + parts[0]) + sep + rest == [c] + (parts[0] + sep + rest);
    }
  }

  /** Joining one more part at the end. */
  lemma {:induction false} JoinAppend(parts: seq<string>, last: string, sep: string)
    ensures Join(parts + [last], sep) == if parts == [] then last else Join(parts, sep) + sep + last
  {
    if |parts| == 1 {
      assert (parts + [last])[1..] == [last];
    } else if |parts| > 1 {
      JoinAppend(parts[1..], last, sep);
      assert (parts + [last])[1..] == parts[1..] + [last];
    }
  }

  lemma JoinSlice(parts: seq<string>, lo: nat, hi: nat, sep: string)
    requires lo <= hi < |parts|
    ensures Join(parts[lo..hi+1], sep) == Join(parts[lo..hi], sep) + (if lo == hi then "" else sep) + parts[hi]
  {
    assert parts[lo..hi+1] == parts[lo..hi] + [parts[hi]];
    JoinAppend(parts[lo..hi], parts[hi], sep);
  }

  // ------------------------------------------------------------ decimal text

  predicate IsDigit(c: char) { '0' <= c <= '9' }

  predicate AllDigits(s: string) { forall c | c in s :: IsDigit(c) }

  /** `strconv.Itoa` on a non-negative number. */
  function Itoa(n: nat): (s: string)
    ensures s != [] && AllDigits(s)
  {
    var d := ('0' as int + n % 10) as char;
    if n < 10 then [d] else Itoa(n / 10) + [d]
  }

  /** The number written by a digit string. */
  function Atoi(s: string): nat
    requires AllDigits(s)
  {
    if s == [] then 0
    else
      assert IsDigit(s[|s|-1]);
      10 * Atoi(s[..|s|-1]) + (s[|s|-1] as int - '0' as int)
  }

  lemma {:induction false} AtoiItoa(n: nat)
    ensures Atoi(Itoa(n)) == n
  {
    if n >= 10 {
      AtoiItoa(n / 10);
      var s := Itoa(n);
      assert s[..|s|-1] == Itoa(n / 10);
    }
  }

  lemma ItoaInjective(m: nat, n: nat)
    requires Itoa(m) == Itoa(n)
    ensures m == n
  {
    AtoiItoa(m);
    AtoiItoa(n);
  }

  /** `strconv.FormatInt(n, 10)`. */
  function FormatInt(n: int): string { if n < 0 then "-" + Itoa(0 - n) else Itoa(n) }

  /** The decimal number a text stands for; 0 for any other text. */
  function ScanInt(s: string): int {
    if s != [] && AllDigits(s) then Atoi(s)
    else if |s| > 1 && s[0] == '-' && AllDigits(s[1..]) then 0 - Atoi(s[1..])
    else 0
  }

  lemma ScanFormat(n: int)
    ensures ScanInt(FormatInt(n)) == n
  {
    if n < 0 {
      AtoiItoa(0 - n);
      var s := FormatInt(n);
      assert s[0] == '-' && s[0] in s && s[1..] == Itoa(0 - n);
    } else {
      AtoiItoa(n);
    }
  }

  function PowerOfTen(k: nat): nat { if k == 0 then 1 else 10 * PowerOfTen(k - 1) }

  lemma {:induction false} ItoaLength(n: nat, k: nat)
    requires 0 < k && n < PowerOfTen(k)
    ensures |Itoa(n)| <= k
  {
    if n >= 10 { ItoaLength(n / 10, k - 1); }
  }

  // ---------------------------------------------------------------- trimming

  predicate IsSpace(c: char) {
    9 <= c as int <= 13 || c as int == 32 || c as int == 0x85 || c as int == 0xA0
  }

  function TrimLeft(s: string): string { if s != [] && IsSpace(s[0]) then TrimLeft(s[1..]) else s }

  function TrimRight(s: string): string {
    if s != [] && IsSpace(s[|s|-1]) then TrimRight(s[..|s|-1]) else s
  }

  /** `strings.TrimSpace`, for the white space up to U+00A0. */
  function TrimSpace(s: string): string { TrimRight(TrimLeft(s)) }

  predicate AllSpace(s: string) { forall c | c in s :: IsSpace(c) }

  /** Trimming takes away the white space around a text without any, and nothing else. */
  lemma TrimAround(left: string, s: string, right: string)
    requires AllSpace(left) && AllSpace(right) && forall c | c in s :: !IsSpace(c)
    ensures TrimSpace(left + s + right) == s
  {
    assert left + s + right == left + (s + right);
    TrimLeftSpaces(left, s + right);
    if s == [] {
      assert s + right == right && right == right + [];
      TrimLeftSpaces(right, []);
    } else {
      assert (s + right)[0] == s[0] && s[0] in s;
      TrimRightSpaces(s, right);
    }
  }

  lemma {:induction false} TrimLeftSpaces(a: string, s: string)
    requires AllSpace(a)
    ensures TrimLeft(a + s) == TrimLeft(s)
  {
    if a == [] {
      assert a + s == s;
    } else {
      assert (a + s)[1..] == a[1..] + s && a[0] in a;
      TrimLeftSpaces(a[1..], s);
    }
  }

  lemma {:induction false} TrimRightSpaces(s: string, a: string)
    requires AllSpace(a) && forall c | c in s :: !IsSpace(c)
    ensures TrimRight(s + a) == s
  {
    if a == [] {
      assert s + a == s;
      assert s != [] ==> s[|s|-1] in s;
    } else {
      var t := s + a;
      assert t[..|t|-1] == s + a[..|a|-1] && t[|t|-1] == a[|a|-1] && a[|a|-1] in a;
      TrimRightSpaces(s, a[..|a|-1]);
    }
  }

  /** Numbers are written in base ten. */
  lemma DecimalFormat()
    ensures Itoa(0) == "0" && Itoa(1203) == "1203" && FormatInt(-12) == "-12"
  {
    assert Itoa(1) == "1" && Itoa(12) == "12" && Itoa(120) == "120";
  }
}
