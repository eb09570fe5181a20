/** Cutting long label values into chunks Kubernetes accepts, and rejoining them
    (cmd/internal/pluginutils/labels.go). */
module LabelSplit {
  import opened Text

  predicate IsAlphaNum(c: char) {
    'a' <= c <= 'z' || 'A' <= c <= 'Z' || '0' <= c <= '9'
  }

  // ------------------------------------------------------------ specification

  /** The longest prefix of `s` of at most `limit` characters that ends alphanumeric;
      0 when there is none. */
  function CutIndex(s: string, limit: nat): (k: nat)
    requires limit <= |s|
    ensures k <= limit
    ensures k > 0 ==> IsAlphaNum(s[k-1])
    ensures forall j | k <= j < limit :: !IsAlphaNum(s[j])
  {
    if limit == 0 || IsAlphaNum(s[limit-1]) then limit else CutIndex(s, limit - 1)
  }

  /** The pieces of `s`, the first of at most `first` and the others of at most `later`
      characters; empty when some window holds no alphanumeric character. */
  function Pieces(s: string, first: nat, later: nat): seq<string>
    requires 0 < first && 0 < later
    decreases |s|
  {
    if |s| <= first then [s]
    else
      var k := CutIndex(s, first);
      if k == 0 then []
      else
        var rest := Pieces(s[k..], later, later);
        if rest == [] then [] else [s[..k]] + rest
  }

  /** Every piece but the first gets the marker in front. */
  function Marked(pieces: seq<string>, marker: string): (r: seq<string>)
    ensures |r| == |pieces|
  {
    seq(|pieces|, i requires 0 <= i < |pieces| => if i == 0 then pieces[0] else marker + pieces[i])
  }

  function Chunks(s: string, limit: nat, marker: string): seq<string> {
    if limit <= |marker| then [] else Marked(Pieces(s, limit, limit - |marker|), marker)
  }

  function Concat(pieces: seq<string>): string {
    if pieces == [] then [] else pieces[0] + Concat(pieces[1..])
  }

  /** What a reader of the labels gets: the first chunk, then the others without marker. */
  function Rejoin(chunks: seq<string>, marker: string): string
    requires chunks != []
    requires forall i | 1 <= i < |chunks| :: |marker| <= |chunks[i]|
  {
    chunks[0] + Concat(seq(|chunks| - 1, i requires 0 <= i < |chunks| - 1 => chunks[i+1][|marker|..]))
  }

  // ------------------------------------------------------------------ methods

  /** The inner loop: backs up to the last position after a letter or digit. */
  method LastAlphaNum(s: string, limit: nat) returns (cut: nat)
    requires limit <= |s|
    ensures cut == CutIndex(s, limit)
  {
    cut := limit;
    while cut > 0 && !IsAlphaNum(s[cut-1])
      invariant 0 <= cut <= limit
      invariant CutIndex(s, cut) == CutIndex(s, limit)
    {
      cut := cut - 1;
    }
  }

  method SplitAtLastAlphaNum(str: string, maxLength: nat, concatChars: string) returns (results: seq<string>)
    ensures results == Chunks(str, maxLength, concatChars)
  {
    if maxLength <= |concatChars| { return []; }
    ghost var later := maxLength - |concatChars|;
    ghost var whole := Pieces(str, maxLength, later);
    ghost var done: seq<string> := [];
    assert [] + whole == whole;
    var remaining, limit, strPrefix := str, maxLength, "";
    results := [];
    while |remaining| > limit
      invariant limit == (if done == [] then maxLength else later)
      invariant strPrefix == (if done == [] then "" else concatChars)
      invariant results == Marked(done, concatChars)
      invariant Continues(whole, done, remaining, limit, later)
      decreases |remaining|
    {
      var cut := LastAlphaNum(remaining, limit);
      CutOff(whole, done, remaining, limit, later);
      if cut == 0 { return []; }
      MarkedAppend(done, remaining[..cut], concatChars);
      results := results + [strPrefix + remaining[..cut]];
      done := done + [remaining[..cut]];
      remaining := remaining[cut..];
      limit := if strPrefix == "" then limit - |concatChars| else limit;
      strPrefix := concatChars;
    }
    MarkedAppend(done, remaining, concatChars);
    results := results + [strPrefix + remaining];
  }

  /** The cut made so far goes on with the pieces of what remains. */
  ghost predicate Continues(whole: seq<string>, done: seq<string>, remaining: string, limit: nat, later: nat)
    requires 0 < limit && 0 < later
  {
    var rest := Pieces(remaining, limit, later);
    whole == if rest == [] then [] else done + rest
  }

  lemma CutOff(whole: seq<string>, done: seq<string>, remaining: string, limit: nat, later: nat)
    requires 0 < limit < |remaining| && 0 < later && Continues(whole, done, remaining, limit, later)
    ensures var cut := CutIndex(remaining, limit);
            if cut == 0 then whole == []
            else Continues(whole, done + [remaining[..cut]], remaining[cut..], later, later)
  {
    var cut := CutIndex(remaining, limit);
    if cut > 0 {
      var rest := Pieces(remaining[cut..], later, later);
      assert done + ([remaining[..cut]] + rest) == (done + [remaining[..cut]]) + rest;
    }
  }

  lemma MarkedAppend(pieces: seq<string>, p: string, marker: string)
    ensures Marked(pieces + [p], marker) ==
            Marked(pieces, marker) + [(if pieces == [] then "" else marker) + p]
  {
    var all := pieces + [p];
    assert |pieces| > 0 ==> all[0] == pieces[0];
    assert Marked(all, marker)[|pieces|] == (if pieces == [] then "" else marker) + p;
    assert Marked(all, marker)[..|pieces|] == Marked(pieces, marker);
  }

  method ConcatAlphaNumSplitChunks(chunks: seq<string>, concatChars: string) returns (r: string)
    requires chunks != []
    requires forall i | 1 <= i < |chunks| :: |concatChars| <= |chunks[i]|
    ensures r == Rejoin(chunks, concatChars)
  {
    if |chunks| == 1 { return chunks[0]; }
    r := chunks[0];
    ghost var tails := seq(|chunks| - 1, i requires 0 <= i < |chunks| - 1 => chunks[i+1][|concatChars|..]);
    for i := 1 to |chunks|
      invariant chunks[0] + Concat(tails) == r + Concat(tails[i-1..])
    {
      r := r + chunks[i][|concatChars|..];
    }
  }

  // --------------------------------------------------------------- properties

  /** A good way to cut `s`: the pieces rebuild it and each is as `GoodPiece` asks. */
  ghost predicate GoodPieces(pieces: seq<string>, s: string, first: nat, later: nat) {
    && pieces != []
    && Concat(pieces) == s
    && forall i | 0 <= i < |pieces| :: GoodPiece(pieces, i, first, later)
  }

  /** The piece respects its limit; unless it is the last one it ends alphanumeric, and no
      longer alphanumeric-ended piece would have fitted. */
  ghost predicate GoodPiece(pieces: seq<string>, i: nat, first: nat, later: nat)
    requires i < |pieces|
  {
    var limit := if i == 0 then first else later;
    var rest := Concat(pieces[i+1..]);
    && |pieces[i]| <= limit
    && (i + 1 < |pieces| ==>
          && EndsAlphaNum(pieces[i])
          && |pieces[i]| + |rest| > limit
          && forall j | 0 <= j < limit - |pieces[i]| :: !IsAlphaNum(rest[j]))
  }

  predicate EndsAlphaNum(s: string) {
    s != [] && IsAlphaNum(s[|s|-1])
  }

  /** Any cut Kubernetes accepts: the pieces respect their limits and all but the last end
      alphanumeric. */
  predicate LegalCut(pieces: seq<string>, first: nat, later: nat) {
    && pieces != []
    && (forall i | 0 <= i < |pieces| :: |pieces[i]| <= if i == 0 then first else later)
    && (forall i | 0 <= i < |pieces| - 1 :: EndsAlphaNum(pieces[i]))
  }

  lemma {:induction false} PiecesAreGood(s: string, first: nat, later: nat)
    requires 0 < first && 0 < later
    requires Pieces(s, first, later) != []
    ensures GoodPieces(Pieces(s, first, later), s, first, later)
    decreases |s|
  {
    if |s| > first {
      var k := CutIndex(s, first);
      PiecesAreGood(s[k..], later, later);
      GoodPiecesPrepend(Pieces(s[k..], later, later), s, first, later);
    }
  }

  lemma GoodPiecesPrepend(rest: seq<string>, s: string, first: nat, later: nat)
    requires first < |s| && CutIndex(s, first) > 0
    requires GoodPieces(rest, s[CutIndex(s, first)..], later, later)
    ensures GoodPieces([s[..CutIndex(s, first)]] + rest, s, first, later)
  {
    var k := CutIndex(s, first);
    var all := [s[..k]] + rest;
    assert all[1..] == rest;
    assert GoodPiece(all, 0, first, later);
    forall i | 1 <= i < |all|
      ensures GoodPiece(all, i, first, later)
    {
      assert GoodPiece(rest, i - 1, later, later);
      assert all[i+1..] == rest[i..];
    }
  }

  /** There is only one cut whose pieces are all as long as possible. */
  lemma {:induction false} GoodPiecesUnique(a: seq<string>, s: string, first: nat, later: nat)
    requires 0 < first && 0 < later
    requires GoodPieces(a, s, first, later)
    ensures a == Pieces(s, first, later)
    decreases |a|
  {
    assert GoodPiece(a, 0, first, later);
    assert a == [a[0]] + a[1..];
    if |a| == 1 {
      assert s == a[0];
    } else {
      var rest := Concat(a[1..]);
      assert forall j | 0 <= j < |rest| :: s[|a[0]| + j] == rest[j];
      forall i | 0 <= i < |a[1..]|
        ensures GoodPiece(a[1..], i, later, later)
      {
        assert GoodPiece(a, i + 1, first, later);
        assert a[1..][i+1..] == a[i+2..];
      }
      GoodPiecesUnique(a[1..], rest, later, later);
      assert s[|a[0]|..] == rest && s[..|a[0]|] == a[0];
    }
  }

  /** The longest cut of a window is at least as long as any alphanumeric-ended one. */
  lemma {:induction false} CutIsLongest(s: string, limit: nat, k: nat)
    requires 0 < k <= limit <= |s| && IsAlphaNum(s[k-1])
    ensures CutIndex(s, limit) >= k
  {
    if k < limit && !IsAlphaNum(s[limit-1]) { CutIsLongest(s, limit - 1, k); }
  }

  /** Cutting `s` greedily stays ahead of the cut `a` of a longer text that ends in `s`. */
  lemma {:induction false} GreedyStaysAhead(a: seq<string>, x: string, s: string, limit: nat)
    requires 0 < limit && LegalCut(a, limit, limit) && Concat(a) == x + s
    ensures Pieces(s, limit, limit) != [] && |Pieces(s, limit, limit)| <= |a|
    decreases |a|
  {
    if |s| > limit {
      RestIsLegal(a, limit, limit);
      assert Concat(a[1..]) == (x + s)[|a[0]|..];
      if |a[0]| <= |x| {
        assert (x + s)[|a[0]|..] == x[|a[0]|..] + s;
        GreedyStaysAhead(a[1..], x[|a[0]|..], s, limit);
      } else {
        var e := |a[0]| - |x|;
        assert (x + s)[|a[0]|..] == s[e..] && s[e-1] == (x + s)[|a[0]|-1];
        AheadAfterCut(a, s, e, limit, limit);
      }
    }
  }

  /** The step both inductions share: the first piece of `a` ends at `e` in `s`. */
  lemma {:induction false} AheadAfterCut(a: seq<string>, s: string, e: nat, first: nat, limit: nat)
    requires 0 < limit && 0 < e <= first < |s| && IsAlphaNum(s[e-1])
    requires |a| > 1 && LegalCut(a[1..], limit, limit) && Concat(a[1..]) == s[e..]
    ensures Pieces(s, first, limit) != [] && |Pieces(s, first, limit)| <= |a|
    decreases |a|, 0
  {
    CutIsLongest(s, first, e);
    var k := CutIndex(s, first);
    assert s[e..] == s[e..k] + s[k..];
    GreedyStaysAhead(a[1..], s[e..k], s[k..], limit);
  }

  lemma RestIsLegal(a: seq<string>, first: nat, later: nat)
    requires LegalCut(a, first, later) && |Concat(a)| > first
    ensures |a| > 1 && LegalCut(a[1..], later, later) && EndsAlphaNum(a[0]) && |a[0]| <= first
    ensures a[0] == Concat(a)[..|a[0]|] && Concat(a[1..]) == Concat(a)[|a[0]|..]
  {
    assert Concat(a) == a[0] + Concat(a[1..]);
  }

  /** The first chunk is a beginning of the text, and all of it exactly when it fits. */
  lemma FirstChunk(s: string, limit: nat, marker: string)
    requires Chunks(s, limit, marker) != []
    ensures Chunks(s, limit, marker)[0] <= s
    ensures Chunks(s, limit, marker)[0] == s <==> |s| <= limit
  {
  }

  /** Whenever some legal cut of the text exists the split finds one, and none has fewer
      pieces. */
  lemma FewestPieces(a: seq<string>, s: string, first: nat, later: nat)
    requires 0 < first && 0 < later && LegalCut(a, first, later) && Concat(a) == s
    ensures Pieces(s, first, later) != [] && |Pieces(s, first, later)| <= |a|
    ensures LegalCut(Pieces(s, first, later), first, later) && Concat(Pieces(s, first, later)) == s
  {
    if |s| > first {
      RestIsLegal(a, first, later);
      AheadAfterCut(a, s, |a[0]|, first, later);
    }
    PiecesAreGood(s, first, later);
    forall i | 0 <= i < |Pieces(s, first, later)|
      ensures |Pieces(s, first, later)[i]| <= if i == 0 then first else later
      ensures i < |Pieces(s, first, later)| - 1 ==> EndsAlphaNum(Pieces(s, first, later)[i])
    {
      assert GoodPiece(Pieces(s, first, later), i, first, later);
    }
  }

  lemma UnmarkMarked(ps: seq<string>, marker: string)
    requires ps != []
    ensures var cs := Marked(ps, marker);
            && (forall i | 1 <= i < |cs| :: marker <= cs[i])
            && Rejoin(cs, marker) == Concat(ps)
  {
    var cs := Marked(ps, marker);
    forall i | 1 <= i < |cs|
      ensures marker <= cs[i] && cs[i][|marker|..] == ps[i]
    {
      assert cs[i] == marker + ps[i];
    }
    assert seq(|cs| - 1, i requires 0 <= i < |cs| - 1 => cs[i+1][|marker|..]) == ps[1..];
  }

  /** Splitting and rejoining undo each other, and the chunks fit the limit. */
  lemma SplitRejoin(s: string, limit: nat, marker: string)
    requires |marker| < limit
    requires Chunks(s, limit, marker) != []
    ensures var cs := Chunks(s, limit, marker);
            && (forall i | 1 <= i < |cs| :: marker <= cs[i])
            && Rejoin(cs, marker) == s
            && (forall i | 0 <= i < |cs| :: |cs[i]| <= limit)
            && (forall i | 0 <= i < |cs| - 1 :: EndsAlphaNum(cs[i]))
  {
    PiecesAreGood(s, limit, limit - |marker|);
    UnmarkMarked(Pieces(s, limit, limit - |marker|), marker);
    ChunksFit(s, limit, marker);
  }

  lemma ChunksFit(s: string, limit: nat, marker: string)
    requires |marker| < limit && Chunks(s, limit, marker) != []
    ensures forall i | 0 <= i < |Chunks(s, limit, marker)| :: |Chunks(s, limit, marker)[i]| <= limit
    ensures forall i | 0 <= i < |Chunks(s, limit, marker)| - 1 :: EndsAlphaNum(Chunks(s, limit, marker)[i])
  {
    var later := limit - |marker|;
    var ps := Pieces(s, limit, later);
    PiecesAreGood(s, limit, later);
    forall i | 0 <= i < |ps|
      ensures |Chunks(s, limit, marker)[i]| <= limit
      ensures i < |ps| - 1 ==> EndsAlphaNum(Chunks(s, limit, marker)[i])
    {
      assert GoodPiece(ps, i, limit, later);
    }
  }

  /** No two neighbouring characters are both separators. */
  predicate NoAdjacentSeparators(s: string) {
    forall i | 0 <= i < |s| - 1 :: IsAlphaNum(s[i]) || IsAlphaNum(s[i+1])
  }

  /** Text without neighbouring separators always splits. */
  lemma {:induction false} PiecesExist(s: string, first: nat, later: nat)
    requires 1 < first && 1 < later
    requires NoAdjacentSeparators(s)
    ensures Pieces(s, first, later) != []
    decreases |s|
  {
    if |s| > first {
      var k := CutIndex(s, first);
      assert IsAlphaNum(s[0]) || IsAlphaNum(s[1]);
      assert forall i | 0 <= i < |s[k..]| :: s[k..][i] == s[k+i];
      PiecesExist(s[k..], later, later);
    }
  }

  /** Under a limit at least two longer than the marker, such text splits and rejoins. */
  lemma SplitExists(s: string, limit: nat, marker: string)
    requires |marker| + 1 < limit
    requires NoAdjacentSeparators(s)
    ensures Chunks(s, limit, marker) != []
  {
    PiecesExist(s, limit, limit - |marker|);
  }

  // ------------------------------------------------------------ label values

  predicate IsLabelChar(c: char) { IsAlphaNum(c) || c == '_' || c == '.' || c == '-' }

  predicate LabelChars(s: string) { forall i | 0 <= i < |s| :: IsLabelChar(s[i]) }

  /** What Kubernetes accepts as the value of a label. */
  predicate LegalValue(s: string) {
    |s| <= 63 && LabelChars(s) && (s != [] ==> IsAlphaNum(s[0]) && IsAlphaNum(s[|s|-1]))
  }

  /** Label characters, alphanumeric at both ends and never two separators in a row. */
  ghost predicate Cuttable(s: string) {
    s != [] && NoAdjacentSeparators(s) && LabelChars(s) && IsAlphaNum(s[0]) && IsAlphaNum(s[|s|-1])
  }

  predicate LabelPiece(p: string) { LabelChars(p) && EndsAlphaNum(p) }

  lemma {:induction false} PiecesOfLabelText(s: string, first: nat, later: nat)
    requires 0 < first && 0 < later && Pieces(s, first, later) != [] && LabelPiece(s)
    ensures var ps := Pieces(s, first, later); ps[0] != [] && ps[0][0] == s[0] && forall p | p in ps :: LabelPiece(p)
    decreases |s|
  {
    if |s| > first {
      var k := CutIndex(s, first);
      assert LabelPiece(s[..k]);
      assert LabelPiece(s[k..]);
      PiecesOfLabelText(s[k..], later, later);
      assert Pieces(s, first, later) == [s[..k]] + Pieces(s[k..], later, later);
    }
  }

  /** The chunks of such text are label values Kubernetes accepts. */
  lemma ChunksAreLegal(s: string, limit: nat, marker: string)
    requires |marker| < limit <= 63 && Chunks(s, limit, marker) != []
    requires marker != [] && IsAlphaNum(marker[0]) && LabelChars(marker)
    requires s == [] || Cuttable(s)
    ensures forall i | 0 <= i < |Chunks(s, limit, marker)| :: LegalValue(Chunks(s, limit, marker)[i])
  {
    var ps := Pieces(s, limit, limit - |marker|);
    SplitRejoin(s, limit, marker);
    if s != [] { PiecesOfLabelText(s, limit, limit - |marker|); }
    forall i | 0 <= i < |ps|
      ensures LegalValue(Chunks(s, limit, marker)[i])
    {
      assert ps[i] in ps;
      if i > 0 { assert Chunks(s, limit, marker)[i] == marker + ps[i]; }
    }
  }

  lemma CuttableConcat(a: string, c: char, b: string)
    requires Cuttable(a) && Cuttable(b) && IsLabelChar(c)
    ensures Cuttable(a + [c] + b)
  {
    var s := a + [c] + b;
    forall i | 0 <= i < |s| - 1
      ensures IsAlphaNum(s[i]) || IsAlphaNum(s[i+1])
    {
      if i < |a| - 1 {
        assert s[i] == a[i] && s[i+1] == a[i+1];
      } else if i > |a| {
        assert s[i] == b[i-|a|-1] && s[i+1] == b[i-|a|];
      }
    }
  }

  lemma {:induction false} JoinCuttable(parts: seq<string>, c: char)
    requires parts != [] && IsLabelChar(c)
    requires forall p | p in parts :: Cuttable(p)
    ensures Cuttable(Join(parts, [c]))
  {
    assert Cuttable(parts[0]);
    if |parts| > 1 {
      JoinCuttable(parts[1..], c);
      CuttableConcat(parts[0], c, Join(parts[1..], [c]));
    }
  }

  lemma DigitsCuttable(s: string)
    requires s != [] && AllDigits(s)
    ensures Cuttable(s)
  {
    assert forall i | 0 <= i < |s| :: IsDigit(s[i]);
  }
}
