/**
  The hunk splitter of internal/git/patch.go (`HunkSplittable`, `SplitHunk`).

  Splittability asks for a change line, a later context line and a later
  change line. Splitting, however, cuts the body before every context line
  that follows three context lines which themselves follow a non-context line
  of the current piece (`IsCut`), so context lines are never shared
  between pieces, and every piece after the first has its first assigned body
  line (always a context line) overwritten by its new header.
 */
module GitSplit {
  import opened Wrappers
  import opened Strs
  import opened GitPatch

  predicate IsContext(line: string) {
    StartsWith(line, ' ')
  }

  predicate IsChange(line: string) {
    StartsWith(line, '+') || StartsWith(line, '-')
  }

  /** Lines a body line stands for on the old side: context and removals. */
  function OldTally(line: string): nat {
    if StartsWith(line, ' ') || StartsWith(line, '-') then 1 else 0
  }

  /** Lines a body line stands for on the new side: context and additions. */
  function NewTally(line: string): nat {
    if StartsWith(line, ' ') || StartsWith(line, '+') then 1 else 0
  }

  /** The tallies of one line, by its first character. */
  lemma TallyOf(line: string)
    ensures StartsWith(line, ' ') ==> OldTally(line) == 1 && NewTally(line) == 1 && !StartsWith(line, '-') && !StartsWith(line, '+')
    ensures StartsWith(line, '-') ==> OldTally(line) == 1 && NewTally(line) == 0 && !StartsWith(line, '+')
    ensures StartsWith(line, '+') ==> OldTally(line) == 0 && NewTally(line) == 1
    ensures !StartsWith(line, ' ') && !StartsWith(line, '-') && !StartsWith(line, '+') ==> OldTally(line) == 0 && NewTally(line) == 0
  {
  }

  /** The old-side lines that the body lines `lo .. hi` of `b` stand for. */
  function OldIn(b: seq<string>, lo: nat, hi: nat): nat
    requires lo <= hi <= |b|
    decreases hi - lo
  {
    if lo == hi then 0 else OldIn(b, lo, hi - 1) + OldTally(b[hi - 1])
  }

  /** The new-side lines that the body lines `lo .. hi` of `b` stand for. */
  function NewIn(b: seq<string>, lo: nat, hi: nat): nat
    requires lo <= hi <= |b|
    decreases hi - lo
  {
    if lo == hi then 0 else NewIn(b, lo, hi - 1) + NewTally(b[hi - 1])
  }

  /** Counts over adjacent ranges add up. */
  lemma {:induction false} InAdd(b: seq<string>, i: nat, j: nat, k: nat)
    requires i <= j <= k <= |b|
    ensures OldIn(b, i, k) == OldIn(b, i, j) + OldIn(b, j, k)
    ensures NewIn(b, i, k) == NewIn(b, i, j) + NewIn(b, j, k)
    decreases k - j
  {
    if j < k {
      InAdd(b, i, j, k - 1);
    }
  }

  /** The lines after the header line. */
  function Body(h: Hunk): seq<string> {
    if |h.text| == 0 then [] else h.text[1..]
  }

  function BodyDisplay(h: Hunk): seq<string> {
    if |h.display| == 0 then [] else h.display[1..]
  }

  // ---------------------------------------------------------------------------
  // Splittability

  predicate HasChange(s: seq<string>) {
    exists p :: 0 <= p < |s| && IsChange(s[p])
  }

  predicate HasPair(s: seq<string>) {
    exists p, q :: 0 <= p < q < |s| && IsChange(s[p]) && IsContext(s[q])
  }

  predicate HasTriple(s: seq<string>) {
    exists p, q, r :: 0 <= p < q < r < |s| && IsChange(s[p]) && IsContext(s[q]) && IsChange(s[r])
  }

  /** What a left-to-right pass over some lines has seen: a change line, a change then a context line, and a change after that. */
  datatype Seen = Seen(change: bool, pair: bool, triple: bool)

  /** The pass of `HunkSplittable` over `s`. */
  function Scan(s: seq<string>): (r: Seen)
    ensures r.change ==> |s| >= 1
    ensures r.pair ==> r.change && |s| >= 2
    ensures r.triple ==> r.pair && |s| >= 3
  {
    if s == [] then Seen(false, false, false)
    else
      var r := Scan(s[..|s| - 1]);
      var x := s[|s| - 1];
      Seen(r.change || IsChange(x), r.pair || (r.change && IsContext(x)), r.triple || (r.pair && IsChange(x)))
  }

  /** The pass takes one more line. */
  lemma ScanSnoc(s: seq<string>, x: string)
    ensures var r := Scan(s);
      Scan(s + [x]) == Seen(r.change || IsChange(x), r.pair || (r.change && IsContext(x)), r.triple || (r.pair && IsChange(x)))
  {
    assert (s + [x])[..|s|] == s;
  }

  /** The pass sees exactly the patterns that occur in the lines. */
  lemma {:induction false} ScanMeans(s: seq<string>)
    ensures Scan(s) == Seen(HasChange(s), HasPair(s), HasTriple(s))
  {
    if s != [] {
      var t, x := s[..|s| - 1], s[|s| - 1];
      ScanMeans(t);
      assert s == t + [x];
      ChangeSnoc(t, x);
      PairSnoc(t, x);
      TripleSnoc(t, x);
    }
  }

  /** A change hunk whose body has a change line, then a context line, then a change line. */
  predicate Splittable(h: Hunk) {
    h.kind == Change && Scan(Body(h)).triple
  }

  lemma SplittableMeans(h: Hunk)
    ensures Splittable(h) <==> h.kind == Change && HasTriple(Body(h))
  {
    ScanMeans(Body(h));
  }

  lemma ChangeSnoc(s: seq<string>, x: string)
    ensures HasChange(s + [x]) <==> HasChange(s) || IsChange(x)
  {
    var t := s + [x];
    assert forall p :: 0 <= p < |s| ==> t[p] == s[p];
    assert t[|s|] == x;
  }

  lemma PairSnoc(s: seq<string>, x: string)
    ensures HasPair(s + [x]) <==> HasPair(s) || (IsContext(x) && HasChange(s))
  {
    var t := s + [x];
    assert forall p :: 0 <= p < |s| ==> t[p] == s[p];
    assert t[|s|] == x;
    if HasPair(t) && !HasPair(s) {
      var p, q :| 0 <= p < q < |t| && IsChange(t[p]) && IsContext(t[q]);
      assert q == |s|;
    }
  }

  lemma TripleSnoc(s: seq<string>, x: string)
    ensures HasTriple(s + [x]) <==> HasTriple(s) || (IsChange(x) && HasPair(s))
  {
    var t := s + [x];
    assert forall p :: 0 <= p < |s| ==> t[p] == s[p];
    assert t[|s|] == x;
    if HasTriple(t) && !HasTriple(s) {
      var p, q, r :| 0 <= p < q < r < |t| && IsChange(t[p]) && IsContext(t[q]) && IsChange(t[r]);
      assert r == |s|;
    }
  }

  /**
    `HunkSplittable`: one pass over the body tracking whether a change was
    seen and how many context lines followed the last one.
   */
  method HunkSplittable(h: Hunk) returns (b: bool)
    ensures b <==> h.kind == Change && HasTriple(Body(h))
    ensures b == Splittable(h)
  {
    if h.kind != Change {
      return false;
    }
    if |h.text| == 0 {
      return false;
    }
    var contextLines := 0;
    var inChanges := false;
    var i := 1;
    while i < |h.text|
      invariant 1 <= i <= |h.text|
      invariant Scan(h.text[1..i]) == Seen(inChanges, contextLines > 0, false)
    {
      var line := h.text[i];
      HasPrefixChar(line, ' ');
      HasPrefixChar(line, '+');
      HasPrefixChar(line, '-');
      assert h.text[1..i + 1] == h.text[1..i] + [line];
      ScanSnoc(h.text[1..i], line);
      if HasPrefix(line, " ") {
        if inChanges {
          contextLines := contextLines + 1;
        }
      } else if HasPrefix(line, "+") || HasPrefix(line, "-") {
        if contextLines > 0 {
          EarlyTriple(h, i);
          return true;
        }
        inChanges := true;
        contextLines := 0;
      }
      i := i + 1;
    }
    assert h.text[1..i] == Body(h);
    SplittableMeans(h);
    b := false;
  }

  /** A pattern seen in the body lines up to line `i` makes the hunk splittable. */
  lemma EarlyTriple(h: Hunk, i: nat)
    requires h.kind == Change && 1 <= i < |h.text| && Scan(h.text[1..i + 1]).triple
    ensures Splittable(h) && HasTriple(Body(h))
  {
    assert Body(h)[..i] == h.text[1..i + 1];
    ScanMeans(Body(h)[..i]);
    TriplePrefix(Body(h), i);
    SplittableMeans(h);
  }

  lemma TriplePrefix(s: seq<string>, n: nat)
    requires n <= |s| && HasTriple(s[..n])
    ensures HasTriple(s)
  {
    var p, q, r :| 0 <= p < q < r < n && IsChange(s[..n][p]) && IsContext(s[..n][q]) && IsChange(s[..n][r]);
    assert IsChange(s[p]) && IsContext(s[q]) && IsChange(s[r]);
  }

  // ---------------------------------------------------------------------------
  // Cut points

  /**
    Body index `c` opens a new piece: it is a context line, and so are the
    three before it, which follow a non-context line.
   */
  predicate IsCut(b: seq<string>, c: int) {
    && 4 <= c < |b|
    && !IsContext(b[c - 4])
    && IsContext(b[c - 3]) && IsContext(b[c - 2]) && IsContext(b[c - 1]) && IsContext(b[c])
  }

  /** Two cuts are always more than three lines apart. */
  lemma CutsApart(b: seq<string>, c: int, d: int)
    requires IsCut(b, c) && IsCut(b, d) && c < d
    ensures d - c >= 4
  {
  }

  /** The cut points at or after `c`, in increasing order. */
  function CutsFrom(b: seq<string>, c: nat): (r: seq<nat>)
    ensures forall i :: 0 <= i < |r| ==> c <= r[i] < |b| && IsCut(b, r[i])
    decreases |b| - c
  {
    if c >= |b| then []
    else if IsCut(b, c) then [c] + CutsFrom(b, c + 1)
    else CutsFrom(b, c + 1)
  }

  /** The cut points come in increasing order. */
  lemma {:induction false} CutsFromSorted(b: seq<string>, c: nat)
    ensures forall i, j :: 0 <= i < j < |CutsFrom(b, c)| ==> CutsFrom(b, c)[i] < CutsFrom(b, c)[j]
    decreases |b| - c
  {
    if c < |b| {
      CutsFromSorted(b, c + 1);
      if IsCut(b, c) {
        var r, t := CutsFrom(b, c), CutsFrom(b, c + 1);
        assert r == [c] + t;
        forall i, j | 0 <= i < j < |r|
          ensures r[i] < r[j]
        {
          assert r[j] == t[j - 1];
          if i > 0 {
            assert r[i] == t[i - 1];
          }
        }
      }
    }
  }

  function Cuts(b: seq<string>): seq<nat> {
    CutsFrom(b, 0)
  }

  /** Every cut point at or after `c` is listed. */
  lemma {:induction false} CutsFromComplete(b: seq<string>, c: nat, x: int)
    requires c <= x && IsCut(b, x)
    ensures x in CutsFrom(b, c)
    decreases |b| - c
  {
    if c < x {
      CutsFromComplete(b, c + 1, x);
    }
  }

  /** Piece `k` is assigned the body lines `Bounds(b)[k] .. Bounds(b)[k+1]`. */
  function Bounds(b: seq<string>): (r: seq<nat>)
    ensures |r| == |Cuts(b)| + 2 && r[0] == 0 && r[|r| - 1] == |b|
    ensures forall i, j :: 0 <= i < j < |r| ==> r[i] < r[j] || |b| == 0
    ensures |b| == 0 ==> |r| == 2
    ensures forall k :: 1 <= k < |r| - 1 ==> r[k] == Cuts(b)[k - 1] && IsCut(b, r[k])
  {
    CutsFromSorted(b, 0);
    var cs := Cuts(b);
    var r := [0] + cs + [|b|];
    assert forall k :: 1 <= k < |r| - 1 ==> r[k] == cs[k - 1];
    r
  }

  /** Between consecutive bounds there is no cut. */
  lemma NoCutBetween(b: seq<string>, k: nat, c: int)
    requires k < |Bounds(b)| - 1
    requires Bounds(b)[k] < c < Bounds(b)[k + 1]
    ensures !IsCut(b, c)
  {
    forall j | 0 <= j < |Cuts(b)|
      ensures Cuts(b)[j] != c
    {
      assert Bounds(b)[j + 1] == Cuts(b)[j];
    }
    CutsExact(b, c);
  }

  // ---------------------------------------------------------------------------
  // The pieces

  /** Piece `k` before its header is written, as `SplitHunk` accumulates it. */
  function PieceRaw(h: Hunk, k: nat): (r: Hunk)
    requires h.WellFormed() && |h.text| > 0 && k < |Cuts(Body(h))| + 1
    ensures r.WellFormed() && |r.text| > 0
  {
    var b := Body(h);
    var bs := Bounds(b);
    var lo := bs[k];
    var hi := bs[k + 1];
    var text := if k == 0 then h.text[..hi + 1] else h.text[lo + 1..hi + 1];
    var display := if k == 0 then h.display[..hi + 1] else h.display[lo + 1..hi + 1];
    Hunk(Change, text, display, None, false,
         h.oldLine + OldIn(b, 0, lo), h.newLine + NewIn(b, 0, lo),
         OldIn(b, lo, hi), NewIn(b, lo, hi))
  }

  /** Piece `k` as `SplitHunk` returns it. */
  function Piece(h: Hunk, k: nat): Hunk
    requires h.WellFormed() && |h.text| > 0 && k < |Cuts(Body(h))| + 1
  {
    UpdateHunkHeader(PieceRaw(h, k))
  }

  /** `[f(0), .., f(n - 1)]` */
  function Tabulate<T>(f: nat -> T, n: nat): (r: seq<T>)
    ensures |r| == n
  {
    if n == 0 then [] else Tabulate(f, n - 1) + [f(n - 1)]
  }

  lemma {:induction false} TabulateIndex<T>(f: nat -> T, n: nat, k: nat)
    requires k < n
    ensures Tabulate(f, n)[k] == f(k)
  {
    if k < n - 1 {
      TabulateIndex(f, n - 1, k);
    }
  }

  /** `Piece` as a function of the piece number (the hunk itself where there is no such piece). */
  function PieceFn(h: Hunk): nat -> Hunk {
    (k: nat) => if h.WellFormed() && |h.text| > 0 && k < |Cuts(Body(h))| + 1 then Piece(h, k) else h
  }

  /** Pieces `0 .. n - 1`. */
  function Pieces(h: Hunk, n: nat): (r: seq<Hunk>)
    requires h.WellFormed() && |h.text| > 0 && n <= |Cuts(Body(h))| + 1
    ensures |r| == n
  {
    Tabulate(PieceFn(h), n)
  }

  lemma PiecesIndex(h: Hunk, n: nat, k: nat)
    requires h.WellFormed() && |h.text| > 0 && k < n <= |Cuts(Body(h))| + 1
    ensures Pieces(h, n)[k] == Piece(h, k)
  {
    TabulateIndex(PieceFn(h), n, k);
  }

  lemma PiecesSnoc(h: Hunk, n: nat)
    requires h.WellFormed() && |h.text| > 0 && n < |Cuts(Body(h))| + 1
    ensures Pieces(h, n + 1) == Pieces(h, n) + [Piece(h, n)]
  {
    assert PieceFn(h)(n) == Piece(h, n);
  }

  /** The result of `SplitHunk`. */
  function Split(h: Hunk): (r: seq<Hunk>)
    requires h.WellFormed()
    ensures |r| >= 1
  {
    if !Splittable(h) then [h]
    else Pieces(h, |Cuts(Body(h))| + 1)
  }

  // ---------------------------------------------------------------------------
  // The loop of SplitHunk, after consuming the body lines `b[..m]`

  /** The pieces built so far are pieces `0 .. |splits| - 1`. */
  ghost predicate PiecesSoFar(h: Hunk, splits: seq<Hunk>)
    requires h.WellFormed() && |h.text| > 0 && |splits| <= |Cuts(Body(h))| + 1
  {
    forall k :: 0 <= k < |splits| ==> splits[k] == Piece(h, k)
  }

  /** `K = |splits|` pieces are done and the current one started at body index `lo`. */
  ghost predicate Progress(h: Hunk, m: nat, splits: seq<Hunk>, lo: nat)
    requires h.WellFormed() && |h.text| > 0
  {
    var b := Body(h);
    var bs := Bounds(b);
    var K := |splits|;
    && m <= |b|
    && K <= |Cuts(b)|
    && lo == bs[K] && lo <= m <= bs[K + 1]
    && (K > 0 ==> lo < m)
    && PiecesSoFar(h, splits)
  }

  /** The offsets and running counts of the current piece. */
  ghost predicate Tallies(h: Hunk, m: nat, lo: nat, oldOffset: nat, newOffset: nat, oldCnt: nat, newCnt: nat)
    requires lo <= m <= |Body(h)|
  {
    var b := Body(h);
    && oldOffset == h.oldLine + OldIn(b, 0, lo) && newOffset == h.newLine + NewIn(b, 0, lo)
    && oldCnt == OldIn(b, lo, m) && newCnt == NewIn(b, lo, m)
  }

  /** The current piece holds its lines so far (the first piece also the original header line). */
  ghost predicate Current(h: Hunk, m: nat, K: nat, lo: nat, cur: Hunk, oldOffset: nat, newOffset: nat)
    requires h.WellFormed() && lo <= m < |h.text|
  {
    cur == Hunk(Change,
                if K == 0 then h.text[..m + 1] else h.text[lo + 1..m + 1],
                if K == 0 then h.display[..m + 1] else h.display[lo + 1..m + 1],
                None, false, oldOffset, newOffset, 0, 0)
  }

  /**
    `inChanges` says a non-context line was seen in the current piece, and
    `contextLines` counts the context lines since the last one.
   */
  ghost predicate Run(b: seq<string>, m: nat, lo: nat, inChanges: bool, contextLines: nat)
    requires lo <= m <= |b|
  {
    && (inChanges <==> exists p :: lo <= p < m && !IsContext(b[p]))
    && (inChanges ==>
          && contextLines <= 3 && lo <= m - contextLines - 1
          && !IsContext(b[m - contextLines - 1])
          && forall q :: m - contextLines <= q < m ==> IsContext(b[q]))
    && (!inChanges ==> contextLines == 0)
  }

  /** The current piece starts at the beginning of the body or at a cut. */
  lemma ProgressStart(h: Hunk, m: nat, splits: seq<Hunk>, lo: nat)
    requires h.WellFormed() && |h.text| > 0
    requires Progress(h, m, splits, lo)
    ensures lo <= m <= |Body(h)| && (lo == 0 || (lo < m && IsCut(Body(h), lo)))
  {
  }

  /** The cut test of `SplitHunk` is exactly `IsCut`. */
  lemma CutDecision(b: seq<string>, m: nat, lo: nat, inChanges: bool, contextLines: nat)
    requires lo <= m < |b| && (lo == 0 || (lo < m && IsCut(b, lo)))
    requires Run(b, m, lo, inChanges, contextLines) && IsContext(b[m])
    ensures (inChanges && contextLines >= 3) <==> IsCut(b, m)
  {
    if IsCut(b, m) {
      if lo != 0 {
        assert IsCut(b, lo);
      }
      assert lo <= m - 4;
      assert inChanges;
    }
  }

  lemma ProgressNoCut(h: Hunk, m: nat, splits: seq<Hunk>, lo: nat)
    requires h.WellFormed() && |h.text| > 0
    requires Progress(h, m, splits, lo) && m < |Body(h)| && !IsCut(Body(h), m)
    ensures Progress(h, m + 1, splits, lo)
  {
  }

  lemma ProgressCut(h: Hunk, m: nat, splits: seq<Hunk>, lo: nat)
    requires h.WellFormed() && |h.text| > 0
    requires Progress(h, m, splits, lo) && IsCut(Body(h), m)
    ensures |splits| < |Cuts(Body(h))| && Bounds(Body(h))[|splits| + 1] == m
    ensures Progress(h, m + 1, splits + [Piece(h, |splits|)], m)
  {
    var b := Body(h);
    var bs := Bounds(b);
    var K := |splits|;
    if K == |Cuts(b)| {
      CutsFromComplete(b, 0, m);
    }
    if bs[K + 1] != m {
      NoCutBetween(b, K, m);
    }
    assert forall k :: 0 <= k < K ==> (splits + [Piece(h, K)])[k] == splits[k];
  }

  lemma ProgressEnd(h: Hunk, splits: seq<Hunk>, lo: nat)
    requires h.WellFormed() && |h.text| > 0
    requires Progress(h, |Body(h)|, splits, lo)
    ensures |splits| == |Cuts(Body(h))|
  {
  }

  lemma TalliesStep(h: Hunk, m: nat, lo: nat, oldOffset: nat, newOffset: nat, oldCnt: nat, newCnt: nat)
    requires lo <= m < |Body(h)|
    requires Tallies(h, m, lo, oldOffset, newOffset, oldCnt, newCnt)
    ensures Tallies(h, m + 1, lo, oldOffset, newOffset, oldCnt + OldTally(Body(h)[m]), newCnt + NewTally(Body(h)[m]))
  {
  }

  lemma TalliesCut(h: Hunk, m: nat, lo: nat, oldOffset: nat, newOffset: nat, oldCnt: nat, newCnt: nat)
    requires lo <= m < |Body(h)|
    requires Tallies(h, m, lo, oldOffset, newOffset, oldCnt, newCnt)
    ensures Tallies(h, m + 1, m, oldOffset + oldCnt, newOffset + newCnt, OldTally(Body(h)[m]), NewTally(Body(h)[m]))
  {
    InAdd(Body(h), 0, lo, m);
  }

  lemma CurrentStep(h: Hunk, m: nat, K: nat, lo: nat, cur: Hunk, oldOffset: nat, newOffset: nat)
    requires h.WellFormed() && lo <= m && m + 1 < |h.text|
    requires Current(h, m, K, lo, cur, oldOffset, newOffset)
    ensures Current(h, m + 1, K, lo,
                    cur.(text := cur.text + [h.text[m + 1]], display := cur.display + [h.display[m + 1]]),
                    oldOffset, newOffset)
  {
    assert h.text[..m + 2] == h.text[..m + 1] + [h.text[m + 1]];
    assert h.display[..m + 2] == h.display[..m + 1] + [h.display[m + 1]];
    assert h.text[lo + 1..m + 2] == h.text[lo + 1..m + 1] + [h.text[m + 1]];
    assert h.display[lo + 1..m + 2] == h.display[lo + 1..m + 1] + [h.display[m + 1]];
  }

  lemma CurrentCut(h: Hunk, m: nat, K: nat, oldOffset: nat, newOffset: nat)
    requires h.WellFormed() && m + 1 < |h.text| && K > 0
    ensures Current(h, m + 1, K, m,
                    Hunk(Change, [h.text[m + 1]], [h.display[m + 1]], None, false, oldOffset, newOffset, 0, 0),
                    oldOffset, newOffset)
  {
    assert h.text[m + 1..m + 2] == [h.text[m + 1]];
    assert h.display[m + 1..m + 2] == [h.display[m + 1]];
  }

  lemma RunContext(b: seq<string>, m: nat, lo: nat, inChanges: bool, contextLines: nat)
    requires lo <= m < |b| && IsContext(b[m])
    requires Run(b, m, lo, inChanges, contextLines) && !(inChanges && contextLines >= 3)
    ensures Run(b, m + 1, lo, inChanges, if inChanges then contextLines + 1 else 0)
  {
  }

  lemma RunOther(b: seq<string>, m: nat, lo: nat, inChanges: bool, contextLines: nat)
    requires lo <= m < |b| && !IsContext(b[m])
    requires Run(b, m, lo, inChanges, contextLines)
    ensures Run(b, m + 1, lo, true, 0)
  {
  }

  lemma RunCut(b: seq<string>, m: nat)
    requires m < |b| && IsContext(b[m])
    ensures Run(b, m + 1, m, false, 0)
  {
  }

  /** When the current piece ends at the next bound, closing it gives piece `K`. */
  lemma ClosePiece(h: Hunk, m: nat, K: nat, lo: nat, cur: Hunk,
                   oldOffset: nat, newOffset: nat, oldCnt: nat, newCnt: nat)
    requires h.WellFormed() && |h.text| > 0
    requires K <= |Cuts(Body(h))| && Bounds(Body(h))[K] == lo && Bounds(Body(h))[K + 1] == m
    requires Tallies(h, m, lo, oldOffset, newOffset, oldCnt, newCnt)
    requires Current(h, m, K, lo, cur, oldOffset, newOffset)
    ensures cur.WellFormed() && Close(cur, oldCnt, newCnt) == Piece(h, K)
  {
    assert cur.(oldCnt := oldCnt, newCnt := newCnt) == PieceRaw(h, K);
  }

  /** All four parts of the loop state of `SplitHunk`. */
  ghost predicate SplitState(h: Hunk, m: nat, splits: seq<Hunk>, lo: nat, cur: Hunk,
                             oldOffset: nat, newOffset: nat, oldCnt: nat, newCnt: nat,
                             inChanges: bool, contextLines: nat)
    requires h.WellFormed() && |h.text| > 0
  {
    && Progress(h, m, splits, lo)
    && Tallies(h, m, lo, oldOffset, newOffset, oldCnt, newCnt)
    && Current(h, m, |splits|, lo, cur, oldOffset, newOffset)
    && Run(Body(h), m, lo, inChanges, contextLines)
  }

  /** A cut line closes the current piece and opens the next one. */
  lemma CutStep(h: Hunk, m: nat, splits: seq<Hunk>, lo: nat, cur: Hunk,
                oldOffset: nat, newOffset: nat, oldCnt: nat, newCnt: nat,
                inChanges: bool, contextLines: nat,
                splits': seq<Hunk>, cur': Hunk, oldOffset': nat, newOffset': nat)
    requires h.WellFormed() && |h.text| > 0
    requires SplitState(h, m, splits, lo, cur, oldOffset, newOffset, oldCnt, newCnt, inChanges, contextLines)
    requires m + 1 < |h.text| && StartsWith(h.text[m + 1], ' ') && inChanges && contextLines >= 3
    requires cur.WellFormed() && splits' == splits + [Close(cur, oldCnt, newCnt)]
    requires oldOffset' == oldOffset + oldCnt && newOffset' == newOffset + newCnt
    requires cur' == Hunk(Change, [] + [h.text[m + 1]], [] + [h.display[m + 1]], None, false, oldOffset', newOffset', 0, 0)
    ensures SplitState(h, m + 1, splits', m, cur', oldOffset', newOffset', 1, 1, false, 0)
  {
    var b := Body(h);
    assert h.text[m + 1] == b[m];
    assert [] + [h.text[m + 1]] == [h.text[m + 1]] && [] + [h.display[m + 1]] == [h.display[m + 1]];
    ProgressStart(h, m, splits, lo);
    CutDecision(b, m, lo, inChanges, contextLines);
    ProgressCut(h, m, splits, lo);
    ClosePiece(h, m, |splits|, lo, cur, oldOffset, newOffset, oldCnt, newCnt);
    TalliesCut(h, m, lo, oldOffset, newOffset, oldCnt, newCnt);
    CurrentCut(h, m, |splits| + 1, oldOffset', newOffset');
    RunCut(b, m);
  }

  /** Any other context line joins the current piece. */
  lemma ContextStep(h: Hunk, m: nat, splits: seq<Hunk>, lo: nat, cur: Hunk,
                    oldOffset: nat, newOffset: nat, oldCnt: nat, newCnt: nat,
                    inChanges: bool, contextLines: nat, cur': Hunk, contextLines': nat)
    requires h.WellFormed() && |h.text| > 0
    requires SplitState(h, m, splits, lo, cur, oldOffset, newOffset, oldCnt, newCnt, inChanges, contextLines)
    requires m + 1 < |h.text| && StartsWith(h.text[m + 1], ' ') && !(inChanges && contextLines >= 3)
    requires cur' == cur.(text := cur.text + [h.text[m + 1]], display := cur.display + [h.display[m + 1]])
    requires contextLines' == if inChanges then contextLines + 1 else contextLines
    ensures SplitState(h, m + 1, splits, lo, cur', oldOffset, newOffset, oldCnt + 1, newCnt + 1,
                       inChanges, contextLines')
  {
    var b := Body(h);
    assert h.text[m + 1] == b[m];
    ProgressStart(h, m, splits, lo);
    CutDecision(b, m, lo, inChanges, contextLines);
    ProgressNoCut(h, m, splits, lo);
    TalliesStep(h, m, lo, oldOffset, newOffset, oldCnt, newCnt);
    CurrentStep(h, m, |splits|, lo, cur, oldOffset, newOffset);
    RunContext(b, m, lo, inChanges, contextLines);
  }

  /** A non-context line joins the current piece and restarts the context run. */
  lemma OtherStep(h: Hunk, m: nat, splits: seq<Hunk>, lo: nat, cur: Hunk,
                  oldOffset: nat, newOffset: nat, oldCnt: nat, newCnt: nat,
                  inChanges: bool, contextLines: nat, cur': Hunk, oldCnt': nat, newCnt': nat)
    requires h.WellFormed() && |h.text| > 0
    requires SplitState(h, m, splits, lo, cur, oldOffset, newOffset, oldCnt, newCnt, inChanges, contextLines)
    requires m + 1 < |h.text| && !StartsWith(h.text[m + 1], ' ')
    requires cur' == cur.(text := cur.text + [h.text[m + 1]], display := cur.display + [h.display[m + 1]])
    requires oldCnt' == if StartsWith(h.text[m + 1], '-') then oldCnt + 1 else oldCnt
    requires newCnt' == if !StartsWith(h.text[m + 1], '-') && StartsWith(h.text[m + 1], '+') then newCnt + 1 else newCnt
    ensures SplitState(h, m + 1, splits, lo, cur', oldOffset, newOffset, oldCnt', newCnt', true, 0)
  {
    var b := Body(h);
    assert h.text[m + 1] == b[m];
    TallyOf(b[m]);
    ProgressNoCut(h, m, splits, lo);
    TalliesStep(h, m, lo, oldOffset, newOffset, oldCnt, newCnt);
    CurrentStep(h, m, |splits|, lo, cur, oldOffset, newOffset);
    RunOther(b, m, lo, inChanges, contextLines);
  }

  lemma SplitStart(h: Hunk, cur: Hunk)
    requires h.WellFormed() && |h.text| > 0
    requires cur == Hunk(Change, [h.text[0]], [h.display[0]], None, false, h.oldLine, h.newLine, 0, 0)
    ensures SplitState(h, 0, [], 0, cur, h.oldLine, h.newLine, 0, 0, false, 0)
  {
    assert h.text[..1] == [h.text[0]] && h.display[..1] == [h.display[0]];
  }

  /** After the last line, closing the current piece gives the last piece. */
  lemma SplitEnd(h: Hunk, splits: seq<Hunk>, lo: nat, cur: Hunk,
                 oldOffset: nat, newOffset: nat, oldCnt: nat, newCnt: nat)
    requires h.WellFormed() && |h.text| > 0
    requires Progress(h, |Body(h)|, splits, lo)
    requires Tallies(h, |Body(h)|, lo, oldOffset, newOffset, oldCnt, newCnt)
    requires Current(h, |Body(h)|, |splits|, lo, cur, oldOffset, newOffset)
    ensures |splits| == |Cuts(Body(h))| && PiecesSoFar(h, splits)
    ensures cur.WellFormed() && Close(cur, oldCnt, newCnt) == Piece(h, |splits|)
  {
    ProgressEnd(h, splits, lo);
    ClosePiece(h, |Body(h)|, |splits|, lo, cur, oldOffset, newOffset, oldCnt, newCnt);
  }

  /** All pieces but the last, then the last: all the pieces. */
  lemma SplitLast(h: Hunk, splits: seq<Hunk>, last: Hunk, all: seq<Hunk>)
    requires h.WellFormed() && |h.text| > 0
    requires |splits| == |Cuts(Body(h))| && PiecesSoFar(h, splits)
    requires last == Piece(h, |splits|)
    requires |all| == |splits| + 1 && PiecesSoFar(h, all)
    ensures splits + [last] == all
  {
    forall k | 0 <= k < |splits|
      ensures splits[k] == all[k]
    {
      PiecesAgree(h, splits, all, k);
    }
    SnocOfPrefix(splits, last, all);
  }

  /** Two lists of pieces so far agree where both are defined. */
  lemma PiecesAgree(h: Hunk, xs: seq<Hunk>, ys: seq<Hunk>, k: nat)
    requires h.WellFormed() && |h.text| > 0
    requires |xs| <= |Cuts(Body(h))| + 1 && |ys| <= |Cuts(Body(h))| + 1
    requires PiecesSoFar(h, xs) && PiecesSoFar(h, ys) && k < |xs| && k < |ys|
    ensures xs[k] == ys[k]
  {
  }

  lemma SnocOfPrefix<T>(xs: seq<T>, last: T, all: seq<T>)
    requires |all| == |xs| + 1 && all[|xs|] == last
    requires forall k :: 0 <= k < |xs| ==> xs[k] == all[k]
    ensures xs + [last] == all
  {
  }

  /** `Pieces(h, n)` lists pieces `0 .. n - 1`. */
  lemma PiecesAreSoFar(h: Hunk, n: nat)
    requires h.WellFormed() && |h.text| > 0 && n <= |Cuts(Body(h))| + 1
    ensures PiecesSoFar(h, Pieces(h, n))
  {
    forall k | 0 <= k < n
      ensures Pieces(h, n)[k] == Piece(h, k)
    {
      PiecesIndex(h, n, k);
    }
  }

  /** A line joins the piece being built. */
  function Push(cur: Hunk, line: string, displayLine: string): Hunk
  {
    cur.(text := cur.text + [line], display := cur.display + [displayLine])
  }

  /** The piece being built gets its counts and header. */
  function Close(cur: Hunk, oldCnt: nat, newCnt: nat): Hunk
    requires cur.WellFormed()
  {
    UpdateHunkHeader(cur.(oldCnt := oldCnt, newCnt := newCnt))
  }

  /**
    The rest of the loop of `SplitHunk`, from text line `i` on, in the state
    the loop keeps: the pieces so far, the piece being built, the offsets of
    the piece being built, its counts so far, and the context-run tracker.
   */
  function SplitRest(h: Hunk, i: nat, splits: seq<Hunk>, cur: Hunk,
                     oldOffset: nat, newOffset: nat, oldCnt: nat, newCnt: nat,
                     inChanges: bool, contextLines: nat): seq<Hunk>
    requires h.WellFormed() && 1 <= i <= |h.text| && cur.WellFormed()
    decreases |h.text| - i
  {
    if i == |h.text| then splits + [Close(cur, oldCnt, newCnt)]
    else
      var line := h.text[i];
      var displayLine := h.display[i];
      if StartsWith(line, ' ') then
        if inChanges && contextLines >= 3 then
          var oldOffset' := oldOffset + oldCnt;
          var newOffset' := newOffset + newCnt;
          var started := Hunk(Change, [], [], None, false, oldOffset', newOffset', 0, 0);
          SplitRest(h, i + 1, splits + [Close(cur, oldCnt, newCnt)], Push(started, line, displayLine),
                    oldOffset', newOffset', 1, 1, false, 0)
        else
          SplitRest(h, i + 1, splits, Push(cur, line, displayLine), oldOffset, newOffset, oldCnt + 1, newCnt + 1,
                    inChanges, if inChanges then contextLines + 1 else contextLines)
      else
        var oldCnt' := if StartsWith(line, '-') then oldCnt + 1 else oldCnt;
        var newCnt' := if !StartsWith(line, '-') && StartsWith(line, '+') then newCnt + 1 else newCnt;
        SplitRest(h, i + 1, splits, Push(cur, line, displayLine), oldOffset, newOffset, oldCnt', newCnt', true, 0)
  }

  /** A cut line: the loop closes the current piece and opens a new one. */
  lemma RestCut(h: Hunk, i: nat, splits: seq<Hunk>, cur: Hunk,
                oldOffset: nat, newOffset: nat, oldCnt: nat, newCnt: nat, contextLines: nat,
                splits': seq<Hunk>, cur': Hunk, oldOffset': nat, newOffset': nat)
    requires h.WellFormed() && 1 <= i < |h.text| && cur.WellFormed()
    requires StartsWith(h.text[i], ' ') && contextLines >= 3
    requires splits' == splits + [UpdateHunkHeader(cur.(oldCnt := oldCnt, newCnt := newCnt))]
    requires oldOffset' == oldOffset + oldCnt && newOffset' == newOffset + newCnt
    requires cur' == Hunk(Change, [] + [h.text[i]], [] + [h.display[i]], None, false, oldOffset', newOffset', 0, 0)
    ensures cur'.WellFormed()
    ensures SplitRest(h, i, splits, cur, oldOffset, newOffset, oldCnt, newCnt, true, contextLines)
            == SplitRest(h, i + 1, splits', cur', oldOffset', newOffset', 0 + 1, 0 + 1, false, 0)
  {
  }

  /** Any other context line joins the current piece. */
  lemma RestContext(h: Hunk, i: nat, splits: seq<Hunk>, cur: Hunk,
                    oldOffset: nat, newOffset: nat, oldCnt: nat, newCnt: nat,
                    inChanges: bool, contextLines: nat, cur': Hunk, contextLines': nat)
    requires h.WellFormed() && 1 <= i < |h.text| && cur.WellFormed()
    requires StartsWith(h.text[i], ' ') && !(inChanges && contextLines >= 3)
    requires cur' == cur.(text := cur.text + [h.text[i]], display := cur.display + [h.display[i]])
    requires contextLines' == if inChanges then contextLines + 1 else contextLines
    ensures cur'.WellFormed()
    ensures SplitRest(h, i, splits, cur, oldOffset, newOffset, oldCnt, newCnt, inChanges, contextLines)
            == SplitRest(h, i + 1, splits, cur', oldOffset, newOffset, oldCnt + 1, newCnt + 1, inChanges, contextLines')
  {
  }

  /** A non-context line joins the current piece and restarts the context run. */
  lemma RestOther(h: Hunk, i: nat, splits: seq<Hunk>, cur: Hunk,
                  oldOffset: nat, newOffset: nat, oldCnt: nat, newCnt: nat,
                  inChanges: bool, contextLines: nat, cur': Hunk, oldCnt': nat, newCnt': nat)
    requires h.WellFormed() && 1 <= i < |h.text| && cur.WellFormed()
    requires !StartsWith(h.text[i], ' ')
    requires cur' == cur.(text := cur.text + [h.text[i]], display := cur.display + [h.display[i]])
    requires oldCnt' == if StartsWith(h.text[i], '-') then oldCnt + 1 else oldCnt
    requires newCnt' == if !StartsWith(h.text[i], '-') && StartsWith(h.text[i], '+') then newCnt + 1 else newCnt
    ensures cur'.WellFormed()
    ensures SplitRest(h, i, splits, cur, oldOffset, newOffset, oldCnt, newCnt, inChanges, contextLines)
            == SplitRest(h, i + 1, splits, cur', oldOffset, newOffset, oldCnt', newCnt', true, 0)
  {
  }

  /** From any state the loop can reach, the rest of the loop completes `Split(h)`. */
  lemma {:induction false} SplitRestSplits(h: Hunk, m: nat, splits: seq<Hunk>, lo: nat, cur: Hunk,
                                           oldOffset: nat, newOffset: nat, oldCnt: nat, newCnt: nat,
                                           inChanges: bool, contextLines: nat, target: seq<Hunk>)
    requires h.WellFormed() && |h.text| > 0 && m < |h.text| && cur.WellFormed()
    requires |target| == |Cuts(Body(h))| + 1 && PiecesSoFar(h, target)
    requires SplitState(h, m, splits, lo, cur, oldOffset, newOffset, oldCnt, newCnt, inChanges, contextLines)
    ensures SplitRest(h, m + 1, splits, cur, oldOffset, newOffset, oldCnt, newCnt, inChanges, contextLines) == target
    decreases |h.text| - m, 2
  {
    if m + 1 == |h.text| {
      SplitEnd(h, splits, lo, cur, oldOffset, newOffset, oldCnt, newCnt);
      SplitLast(h, splits, Close(cur, oldCnt, newCnt), target);
    } else if !StartsWith(h.text[m + 1], ' ') {
      RestSplitsOther(h, m, splits, lo, cur, oldOffset, newOffset, oldCnt, newCnt, inChanges, contextLines, target);
    } else if inChanges && contextLines >= 3 {
      RestSplitsCut(h, m, splits, lo, cur, oldOffset, newOffset, oldCnt, newCnt, contextLines, target);
    } else {
      RestSplitsContext(h, m, splits, lo, cur, oldOffset, newOffset, oldCnt, newCnt, inChanges, contextLines, target);
    }
  }

  lemma {:induction false} RestSplitsCut(h: Hunk, m: nat, splits: seq<Hunk>, lo: nat, cur: Hunk,
                                         oldOffset: nat, newOffset: nat, oldCnt: nat, newCnt: nat,
                                         contextLines: nat, target: seq<Hunk>)
    requires h.WellFormed() && |h.text| > 0 && m + 1 < |h.text| && cur.WellFormed()
    requires |target| == |Cuts(Body(h))| + 1 && PiecesSoFar(h, target)
    requires SplitState(h, m, splits, lo, cur, oldOffset, newOffset, oldCnt, newCnt, true, contextLines)
    requires StartsWith(h.text[m + 1], ' ') && contextLines >= 3
    ensures SplitRest(h, m + 1, splits, cur, oldOffset, newOffset, oldCnt, newCnt, true, contextLines) == target
    decreases |h.text| - m, 1
  {
    var oldOffset' := oldOffset + oldCnt;
    var newOffset' := newOffset + newCnt;
    var splits' := splits + [Close(cur, oldCnt, newCnt)];
    var cur' := Hunk(Change, [] + [h.text[m + 1]], [] + [h.display[m + 1]], None, false, oldOffset', newOffset', 0, 0);
    CutStep(h, m, splits, lo, cur, oldOffset, newOffset, oldCnt, newCnt, true, contextLines,
            splits', cur', oldOffset', newOffset');
    CutTail(h, m, splits, cur, oldOffset, newOffset, oldCnt, newCnt, contextLines,
            splits', cur', oldOffset', newOffset', target);
  }

  lemma {:induction false} CutTail(h: Hunk, m: nat, splits: seq<Hunk>, cur: Hunk,
                                   oldOffset: nat, newOffset: nat, oldCnt: nat, newCnt: nat, contextLines: nat,
                                   splits': seq<Hunk>, cur': Hunk, oldOffset': nat, newOffset': nat, target: seq<Hunk>)
    requires h.WellFormed() && |h.text| > 0 && m + 1 < |h.text| && cur.WellFormed() && cur'.WellFormed()
    requires |target| == |Cuts(Body(h))| + 1 && PiecesSoFar(h, target)
    requires StartsWith(h.text[m + 1], ' ') && contextLines >= 3
    requires splits' == splits + [Close(cur, oldCnt, newCnt)]
    requires oldOffset' == oldOffset + oldCnt && newOffset' == newOffset + newCnt
    requires cur' == Hunk(Change, [] + [h.text[m + 1]], [] + [h.display[m + 1]], None, false, oldOffset', newOffset', 0, 0)
    requires SplitState(h, m + 1, splits', m, cur', oldOffset', newOffset', 1, 1, false, 0)
    ensures SplitRest(h, m + 1, splits, cur, oldOffset, newOffset, oldCnt, newCnt, true, contextLines) == target
    decreases |h.text| - m, 0
  {
    RestCut(h, m + 1, splits, cur, oldOffset, newOffset, oldCnt, newCnt, contextLines,
            splits', cur', oldOffset', newOffset');
    SplitRestSplits(h, m + 1, splits', m, cur', oldOffset', newOffset', 1, 1, false, 0, target);
  }

  lemma {:induction false} RestSplitsContext(h: Hunk, m: nat, splits: seq<Hunk>, lo: nat, cur: Hunk,
                                             oldOffset: nat, newOffset: nat, oldCnt: nat, newCnt: nat,
                                             inChanges: bool, contextLines: nat, target: seq<Hunk>)
    requires h.WellFormed() && |h.text| > 0 && m + 1 < |h.text| && cur.WellFormed()
    requires |target| == |Cuts(Body(h))| + 1 && PiecesSoFar(h, target)
    requires SplitState(h, m, splits, lo, cur, oldOffset, newOffset, oldCnt, newCnt, inChanges, contextLines)
    requires StartsWith(h.text[m + 1], ' ') && !(inChanges && contextLines >= 3)
    ensures SplitRest(h, m + 1, splits, cur, oldOffset, newOffset, oldCnt, newCnt, inChanges, contextLines) == target
    decreases |h.text| - m, 1
  {
    var cur' := cur.(text := cur.text + [h.text[m + 1]], display := cur.display + [h.display[m + 1]]);
    var cl' := if inChanges then contextLines + 1 else contextLines;
    ContextStep(h, m, splits, lo, cur, oldOffset, newOffset, oldCnt, newCnt, inChanges, contextLines, cur', cl');
    ContextTail(h, m, splits, lo, cur, oldOffset, newOffset, oldCnt, newCnt, inChanges, contextLines, cur', cl', target);
  }

  lemma {:induction false} ContextTail(h: Hunk, m: nat, splits: seq<Hunk>, lo: nat, cur: Hunk,
                                       oldOffset: nat, newOffset: nat, oldCnt: nat, newCnt: nat,
                                       inChanges: bool, contextLines: nat, cur': Hunk, cl': nat, target: seq<Hunk>)
    requires h.WellFormed() && |h.text| > 0 && m + 1 < |h.text| && cur.WellFormed() && cur'.WellFormed()
    requires |target| == |Cuts(Body(h))| + 1 && PiecesSoFar(h, target)
    requires StartsWith(h.text[m + 1], ' ') && !(inChanges && contextLines >= 3)
    requires cur' == cur.(text := cur.text + [h.text[m + 1]], display := cur.display + [h.display[m + 1]])
    requires cl' == if inChanges then contextLines + 1 else contextLines
    requires SplitState(h, m + 1, splits, lo, cur', oldOffset, newOffset, oldCnt + 1, newCnt + 1, inChanges, cl')
    ensures SplitRest(h, m + 1, splits, cur, oldOffset, newOffset, oldCnt, newCnt, inChanges, contextLines) == target
    decreases |h.text| - m, 0
  {
    RestContext(h, m + 1, splits, cur, oldOffset, newOffset, oldCnt, newCnt, inChanges, contextLines, cur', cl');
    SplitRestSplits(h, m + 1, splits, lo, cur', oldOffset, newOffset, oldCnt + 1, newCnt + 1, inChanges, cl', target);
  }

  lemma {:induction false} RestSplitsOther(h: Hunk, m: nat, splits: seq<Hunk>, lo: nat, cur: Hunk,
                                           oldOffset: nat, newOffset: nat, oldCnt: nat, newCnt: nat,
                                           inChanges: bool, contextLines: nat, target: seq<Hunk>)
    requires h.WellFormed() && |h.text| > 0 && m + 1 < |h.text| && cur.WellFormed()
    requires |target| == |Cuts(Body(h))| + 1 && PiecesSoFar(h, target)
    requires SplitState(h, m, splits, lo, cur, oldOffset, newOffset, oldCnt, newCnt, inChanges, contextLines)
    requires !StartsWith(h.text[m + 1], ' ')
    ensures SplitRest(h, m + 1, splits, cur, oldOffset, newOffset, oldCnt, newCnt, inChanges, contextLines) == target
    decreases |h.text| - m, 1
  {
    var line := h.text[m + 1];
    var cur' := cur.(text := cur.text + [line], display := cur.display + [h.display[m + 1]]);
    var oldCnt' := if StartsWith(line, '-') then oldCnt + 1 else oldCnt;
    var newCnt' := if !StartsWith(line, '-') && StartsWith(line, '+') then newCnt + 1 else newCnt;
    OtherStep(h, m, splits, lo, cur, oldOffset, newOffset, oldCnt, newCnt, inChanges, contextLines,
              cur', oldCnt', newCnt');
    OtherTail(h, m, splits, lo, cur, oldOffset, newOffset, oldCnt, newCnt, inChanges, contextLines,
              cur', oldCnt', newCnt', target);
  }

  lemma {:induction false} OtherTail(h: Hunk, m: nat, splits: seq<Hunk>, lo: nat, cur: Hunk,
                                     oldOffset: nat, newOffset: nat, oldCnt: nat, newCnt: nat,
                                     inChanges: bool, contextLines: nat, cur': Hunk, oldCnt': nat, newCnt': nat,
                                     target: seq<Hunk>)
    requires h.WellFormed() && |h.text| > 0 && m + 1 < |h.text| && cur.WellFormed() && cur'.WellFormed()
    requires |target| == |Cuts(Body(h))| + 1 && PiecesSoFar(h, target)
    requires !StartsWith(h.text[m + 1], ' ')
    requires cur' == cur.(text := cur.text + [h.text[m + 1]], display := cur.display + [h.display[m + 1]])
    requires oldCnt' == if StartsWith(h.text[m + 1], '-') then oldCnt + 1 else oldCnt
    requires newCnt' == if !StartsWith(h.text[m + 1], '-') && StartsWith(h.text[m + 1], '+') then newCnt + 1 else newCnt
    requires SplitState(h, m + 1, splits, lo, cur', oldOffset, newOffset, oldCnt', newCnt', true, 0)
    ensures SplitRest(h, m + 1, splits, cur, oldOffset, newOffset, oldCnt, newCnt, inChanges, contextLines) == target
    decreases |h.text| - m, 0
  {
    RestOther(h, m + 1, splits, cur, oldOffset, newOffset, oldCnt, newCnt, inChanges, contextLines,
              cur', oldCnt', newCnt');
    SplitRestSplits(h, m + 1, splits, lo, cur', oldOffset, newOffset, oldCnt', newCnt', true, 0, target);
  }

  /** Run from the first body line, the loop produces all the pieces. */
  lemma LoopSplits(h: Hunk)
    requires h.WellFormed() && |h.text| > 0
    ensures SplitRest(h, 1, [], Hunk(Change, [h.text[0]], [h.display[0]], None, false, h.oldLine, h.newLine, 0, 0),
                      h.oldLine, h.newLine, 0, 0, false, 0)
            == Pieces(h, |Cuts(Body(h))| + 1)
  {
    var cur := Hunk(Change, [h.text[0]], [h.display[0]], None, false, h.oldLine, h.newLine, 0, 0);
    SplitStart(h, cur);
    PiecesAreSoFar(h, |Cuts(Body(h))| + 1);
    SplitRestSplits(h, 0, [], 0, cur, h.oldLine, h.newLine, 0, 0, false, 0, Pieces(h, |Cuts(Body(h))| + 1));
  }

  /**
    `SplitHunk`: a hunk that is not splittable comes back alone and
    unchanged; otherwise the pieces are those described by `Piece`.
   */
  method SplitHunk(h: Hunk) returns (splits: seq<Hunk>)
    requires h.WellFormed()
    ensures splits == Split(h)
  {
    var splittable := HunkSplittable(h);
    if !splittable {
      return [h];
    }
    splits := [];
    var currentSplit := Hunk(Change, [h.text[0]], [h.display[0]], None, false, h.oldLine, h.newLine, 0, 0);
    var oldOffset := h.oldLine;
    var newOffset := h.newLine;
    var oldCnt := 0;
    var newCnt := 0;
    var inChanges := false;
    var contextLines := 0;
    ghost var target := SplitRest(h, 1, [], currentSplit, oldOffset, newOffset, 0, 0, false, 0);
    var i := 1;
    while i < |h.text|
      invariant 1 <= i <= |h.text| && currentSplit.WellFormed()
      invariant SplitRest(h, i, splits, currentSplit, oldOffset, newOffset, oldCnt, newCnt, inChanges, contextLines)
                == target
    {
      var line := h.text[i];
      var displayLine := h.display[i];
      HasPrefixChar(line, ' ');
      HasPrefixChar(line, '+');
      HasPrefixChar(line, '-');
      ghost var splits0, cur0, oldOffset0, newOffset0 := splits, currentSplit, oldOffset, newOffset;
      ghost var oldCnt0, newCnt0, inChanges0, contextLines0 := oldCnt, newCnt, inChanges, contextLines;
      if HasPrefix(line, " ") {
        ghost var cut := inChanges && contextLines >= 3;
        if inChanges && contextLines >= 3 {
          currentSplit := currentSplit.(oldCnt := oldCnt, newCnt := newCnt);
          currentSplit := UpdateHunkHeader(currentSplit);
          splits := splits + [currentSplit];
          oldOffset := oldOffset + oldCnt;
          newOffset := newOffset + newCnt;
          currentSplit := Hunk(Change, [], [], None, false, oldOffset, newOffset, 0, 0);
          oldCnt := 0;
          newCnt := 0;
          inChanges := false;
          contextLines := 0;
        }
        if inChanges {
          contextLines := contextLines + 1;
        }
        currentSplit := currentSplit.(text := currentSplit.text + [line],
                                      display := currentSplit.display + [displayLine]);
        oldCnt := oldCnt + 1;
        newCnt := newCnt + 1;
        if cut {
          RestCut(h, i, splits0, cur0, oldOffset0, newOffset0, oldCnt0, newCnt0, contextLines0,
                  splits, currentSplit, oldOffset, newOffset);
        } else {
          RestContext(h, i, splits0, cur0, oldOffset0, newOffset0, oldCnt0, newCnt0, inChanges0, contextLines0,
                      currentSplit, contextLines);
        }
      } else {
        inChanges := true;
        contextLines := 0;
        currentSplit := currentSplit.(text := currentSplit.text + [line],
                                      display := currentSplit.display + [displayLine]);
        if HasPrefix(line, "-") {
          oldCnt := oldCnt + 1;
        } else if HasPrefix(line, "+") {
          newCnt := newCnt + 1;
        }
        RestOther(h, i, splits0, cur0, oldOffset0, newOffset0, oldCnt0, newCnt0, inChanges0, contextLines0,
                  currentSplit, oldCnt, newCnt);
      }
      i := i + 1;
    }
    currentSplit := currentSplit.(oldCnt := oldCnt, newCnt := newCnt);
    currentSplit := UpdateHunkHeader(currentSplit);
    splits := splits + [currentSplit];
    LoopSplits(h);
  }

  // ---------------------------------------------------------------------------
  // What the pieces are

  /** The lines of a slice count as the same lines of the whole. */
  lemma {:induction false} InSlice(b: seq<string>, x: nat, y: nat)
    requires x <= y <= |b|
    ensures OldIn(b[x..y], 0, y - x) == OldIn(b, x, y) && NewIn(b[x..y], 0, y - x) == NewIn(b, x, y)
    decreases y - x
  {
    if x < y {
      InSlice(b, x, y - 1);
      assert b[x..y][..y - 1 - x] == b[x..y - 1];
      InPrefix(b[x..y], y - 1 - x);
    }
  }

  /** Counting a prefix of a sequence is counting the prefix itself. */
  lemma {:induction false} InPrefix(s: seq<string>, n: nat)
    requires n <= |s|
    ensures OldIn(s[..n], 0, n) == OldIn(s, 0, n) && NewIn(s[..n], 0, n) == NewIn(s, 0, n)
    decreases n
  {
    if n > 0 {
      assert s[..n][..n - 1] == s[..n - 1];
      InPrefix(s[..n], n - 1);
      InPrefix(s, n - 1);
    }
  }

  /** Piece `k` is a fresh change hunk that opens with its own header. */
  lemma PieceHead(h: Hunk, k: nat)
    requires h.WellFormed() && |h.text| > 0 && k < |Cuts(Body(h))| + 1
    ensures var p := Piece(h, k);
      && p.kind == Change && p.use == None && !p.dirty && p.WellFormed() && |p.text| > 0
      && p.text[0] == FormatHeader(p.Range()) && p.display[0] == p.text[0]
  {
  }

  /** The range of piece `k`: it starts after the lines of the pieces before it and counts its assigned lines. */
  lemma PieceRange(h: Hunk, k: nat)
    requires h.WellFormed() && |h.text| > 0 && k < |Cuts(Body(h))| + 1
    ensures var b, bs, p := Body(h), Bounds(Body(h)), Piece(h, k);
      && p.oldLine == h.oldLine + OldIn(b, 0, bs[k]) && p.newLine == h.newLine + NewIn(b, 0, bs[k])
      && p.oldCnt == OldIn(b, bs[k], bs[k + 1]) && p.newCnt == NewIn(b, bs[k], bs[k + 1])
  {
  }

  /** The body of piece `k` before its header is written. */
  lemma RawBody(h: Hunk, k: nat)
    requires h.WellFormed() && |h.text| > 0 && k < |Cuts(Body(h))| + 1
    ensures var b, bs, raw := Body(h), Bounds(Body(h)), PieceRaw(h, k);
      && (k == 0 ==> Body(raw) == b[..bs[1]] && BodyDisplay(raw) == BodyDisplay(h)[..bs[1]])
      && (k > 0 ==> bs[k] < bs[k + 1] && Body(raw) == b[bs[k] + 1..bs[k + 1]]
                    && BodyDisplay(raw) == BodyDisplay(h)[bs[k] + 1..bs[k + 1]])
  {
    if k == 0 {
      RawBodyFirst(h);
    } else {
      RawBodyLater(h, k);
    }
  }

  lemma RawBodyFirst(h: Hunk)
    requires h.WellFormed() && |h.text| > 0
    ensures var b, bs, raw := Body(h), Bounds(Body(h)), PieceRaw(h, 0);
      Body(raw) == b[..bs[1]] && BodyDisplay(raw) == BodyDisplay(h)[..bs[1]]
  {
    var hi := Bounds(Body(h))[1];
    var raw := PieceRaw(h, 0);
    assert raw.text == h.text[..hi + 1] && raw.display == h.display[..hi + 1];
    DropFirst(h.text, 0, hi + 1);
    DropFirst(h.display, 0, hi + 1);
  }

  lemma RawBodyLater(h: Hunk, k: nat)
    requires h.WellFormed() && |h.text| > 0 && 0 < k < |Cuts(Body(h))| + 1
    ensures var b, bs, raw := Body(h), Bounds(Body(h)), PieceRaw(h, k);
      && bs[k] < bs[k + 1] && Body(raw) == b[bs[k] + 1..bs[k + 1]]
      && BodyDisplay(raw) == BodyDisplay(h)[bs[k] + 1..bs[k + 1]]
  {
    var bs := Bounds(Body(h));
    LaterBounds(Body(h), k);
    LaterText(h, k, bs[k], bs[k + 1]);
    LaterDisplay(h, k, bs[k], bs[k + 1]);
  }

  /** A later piece starts strictly after the previous cut. */
  lemma LaterBounds(b: seq<string>, k: nat)
    requires 0 < k < |Cuts(b)| + 1
    ensures Bounds(b)[k] < Bounds(b)[k + 1] <= |b|
  {
    assert |b| > 0;
  }

  lemma LaterText(h: Hunk, k: nat, lo: nat, hi: nat)
    requires h.WellFormed() && |h.text| > 0 && 0 < k < |Cuts(Body(h))| + 1
    requires lo == Bounds(Body(h))[k] && hi == Bounds(Body(h))[k + 1] && lo < hi <= |Body(h)|
    ensures Body(PieceRaw(h, k)) == Body(h)[lo + 1..hi]
  {
    var raw := PieceRaw(h, k);
    assert raw.text == h.text[lo + 1..hi + 1];
    assert Body(raw) == raw.text[1..] && Body(h) == h.text[1..];
    DropFirst(h.text, lo + 1, hi + 1);
  }

  lemma LaterDisplay(h: Hunk, k: nat, lo: nat, hi: nat)
    requires h.WellFormed() && |h.text| > 0 && 0 < k < |Cuts(Body(h))| + 1
    requires lo == Bounds(Body(h))[k] && hi == Bounds(Body(h))[k + 1] && lo < hi <= |Body(h)|
    ensures BodyDisplay(PieceRaw(h, k)) == BodyDisplay(h)[lo + 1..hi]
  {
    var raw := PieceRaw(h, k);
    assert raw.display == h.display[lo + 1..hi + 1];
    assert BodyDisplay(raw) == raw.display[1..] && BodyDisplay(h) == h.display[1..];
    DropFirst(h.display, lo + 1, hi + 1);
  }

  lemma DropFirst<T>(s: seq<T>, lo: nat, hi: nat)
    requires lo < hi <= |s|
    ensures s[lo..hi][1..] == s[1..][lo..hi - 1]
  {
  }

  /** Writing the header keeps the body. */
  lemma HeaderKeepsBody(raw: Hunk)
    requires raw.WellFormed() && |raw.text| > 0
    ensures Body(UpdateHunkHeader(raw)) == Body(raw) && BodyDisplay(UpdateHunkHeader(raw)) == BodyDisplay(raw)
  {
  }

  /** The body of piece `k`: its assigned lines, less the first one for every piece but the first. */
  lemma PieceBody(h: Hunk, k: nat)
    requires h.WellFormed() && |h.text| > 0 && k < |Cuts(Body(h))| + 1
    ensures var b, bs, p := Body(h), Bounds(Body(h)), Piece(h, k);
      && (k == 0 ==> Body(p) == b[..bs[1]] && BodyDisplay(p) == BodyDisplay(h)[..bs[1]])
      && (k > 0 ==> bs[k] < bs[k + 1] && Body(p) == b[bs[k] + 1..bs[k + 1]]
                    && BodyDisplay(p) == BodyDisplay(h)[bs[k] + 1..bs[k + 1]])
  {
    RawBody(h, k);
    HeaderKeepsBody(PieceRaw(h, k));
  }

  /** `Split` lists the pieces of a splittable hunk and returns any other hunk alone and unchanged. */
  lemma SplitPieces(h: Hunk)
    requires h.WellFormed()
    ensures !Splittable(h) ==> Split(h) == [h]
    ensures Splittable(h) ==> |h.text| >= 4 && |Split(h)| == |Cuts(Body(h))| + 1
    ensures Splittable(h) ==> forall k :: 0 <= k < |Split(h)| ==> Split(h)[k] == Piece(h, k)
  {
    if Splittable(h) {
      PiecesAreSoFar(h, |Cuts(Body(h))| + 1);
    }
  }

  /** The range of every piece: it starts after the lines assigned before it and counts its own assigned lines. */
  lemma SplitRanges(h: Hunk)
    requires h.WellFormed() && Splittable(h)
    ensures |h.text| > 0 && |Split(h)| == |Cuts(Body(h))| + 1
    ensures forall k :: 0 <= k < |Split(h)| ==>
      && Split(h)[k].oldLine == h.oldLine + OldIn(Body(h), 0, Bounds(Body(h))[k])
      && Split(h)[k].newLine == h.newLine + NewIn(Body(h), 0, Bounds(Body(h))[k])
      && Split(h)[k].oldCnt == OldIn(Body(h), Bounds(Body(h))[k], Bounds(Body(h))[k + 1])
      && Split(h)[k].newCnt == NewIn(Body(h), Bounds(Body(h))[k], Bounds(Body(h))[k + 1])
  {
    SplitPieces(h);
    forall k | 0 <= k < |Split(h)|
      ensures Split(h)[k].oldLine == h.oldLine + OldIn(Body(h), 0, Bounds(Body(h))[k])
      ensures Split(h)[k].newLine == h.newLine + NewIn(Body(h), 0, Bounds(Body(h))[k])
      ensures Split(h)[k].oldCnt == OldIn(Body(h), Bounds(Body(h))[k], Bounds(Body(h))[k + 1])
      ensures Split(h)[k].newCnt == NewIn(Body(h), Bounds(Body(h))[k], Bounds(Body(h))[k + 1])
    {
      PieceRange(h, k);
    }
  }

  /** Every piece is a fresh change hunk that opens with its own header, which reads back as its range. */
  lemma SplitHeaders(h: Hunk)
    requires h.WellFormed() && Splittable(h)
    ensures forall k :: 0 <= k < |Split(h)| ==>
      && Split(h)[k].kind == Change && Split(h)[k].use == None && !Split(h)[k].dirty
      && Split(h)[k].WellFormed() && |Split(h)[k].text| > 0
      && Split(h)[k].text[0] == FormatHeader(Split(h)[k].Range())
      && Split(h)[k].display[0] == Split(h)[k].text[0]
      && ParseHunkHeader(Split(h)[k]) == Success(Split(h)[k])
  {
    SplitPieces(h);
    forall k | 0 <= k < |Split(h)|
      ensures Split(h)[k].kind == Change && Split(h)[k].use == None && !Split(h)[k].dirty
      ensures Split(h)[k].WellFormed() && |Split(h)[k].text| > 0
      ensures Split(h)[k].text[0] == FormatHeader(Split(h)[k].Range())
      ensures Split(h)[k].display[0] == Split(h)[k].text[0]
      ensures ParseHunkHeader(Split(h)[k]) == Success(Split(h)[k])
    {
      PieceHead(h, k);
      UpdateThenParse(PieceRaw(h, k));
    }
  }

  /** The body of every piece: its assigned lines, less the first one for every piece but the first. */
  lemma SplitBodyLines(h: Hunk)
    requires h.WellFormed() && Splittable(h)
    ensures |h.text| > 0 && |Split(h)| == |Cuts(Body(h))| + 1
    ensures Body(Split(h)[0]) == Body(h)[..Bounds(Body(h))[1]]
    ensures BodyDisplay(Split(h)[0]) == BodyDisplay(h)[..Bounds(Body(h))[1]]
    ensures forall k :: 1 <= k < |Split(h)| ==>
      && Bounds(Body(h))[k] < Bounds(Body(h))[k + 1]
      && Body(Split(h)[k]) == Body(h)[Bounds(Body(h))[k] + 1..Bounds(Body(h))[k + 1]]
      && BodyDisplay(Split(h)[k]) == BodyDisplay(h)[Bounds(Body(h))[k] + 1..Bounds(Body(h))[k + 1]]
  {
    SplitPieces(h);
    PieceBody(h, 0);
    forall k | 1 <= k < |Split(h)|
      ensures Bounds(Body(h))[k] < Bounds(Body(h))[k + 1]
      ensures Body(Split(h)[k]) == Body(h)[Bounds(Body(h))[k] + 1..Bounds(Body(h))[k + 1]]
      ensures BodyDisplay(Split(h)[k]) == BodyDisplay(h)[Bounds(Body(h))[k] + 1..Bounds(Body(h))[k + 1]]
    {
      PieceBody(h, k);
    }
  }

  /**
    The first piece starts where the hunk starts, and every later piece
    starts where the one before it ends, on both sides.
   */
  lemma SplitOffsets(h: Hunk)
    requires h.WellFormed() && Splittable(h)
    ensures Split(h)[0].oldLine == h.oldLine && Split(h)[0].newLine == h.newLine
    ensures forall k :: 0 <= k < |Split(h)| - 1 ==>
      && Split(h)[k + 1].oldLine == Split(h)[k].oldLine + Split(h)[k].oldCnt
      && Split(h)[k + 1].newLine == Split(h)[k].newLine + Split(h)[k].newCnt
  {
    SplitRanges(h);
    var b, bs := Body(h), Bounds(Body(h));
    forall k | 0 <= k < |Split(h)| - 1
      ensures Split(h)[k + 1].oldLine == Split(h)[k].oldLine + Split(h)[k].oldCnt
      ensures Split(h)[k + 1].newLine == Split(h)[k].newLine + Split(h)[k].newCnt
    {
      InAdd(b, 0, bs[k], bs[k + 1]);
    }
  }

  /** The old-side counts of a list of hunks, added up. */
  function OldTotal(ps: seq<Hunk>): nat {
    if ps == [] then 0 else OldTotal(ps[..|ps| - 1]) + ps[|ps| - 1].oldCnt
  }

  /** The new-side counts of a list of hunks, added up. */
  function NewTotal(ps: seq<Hunk>): nat {
    if ps == [] then 0 else NewTotal(ps[..|ps| - 1]) + ps[|ps| - 1].newCnt
  }

  /** Hunks that count consecutive runs `bs[k] .. bs[k + 1]` of `b` count `b[..bs[n]]` together. */
  lemma {:induction false} TotalOfRuns(ps: seq<Hunk>, b: seq<string>, bs: seq<nat>, n: nat)
    requires n <= |ps| && |ps| + 1 == |bs| && bs[0] == 0 && bs[|ps|] <= |b|
    requires forall i, j :: 0 <= i <= j < |bs| ==> bs[i] <= bs[j]
    requires forall k :: 0 <= k < |ps| ==> ps[k].oldCnt == OldIn(b, bs[k], bs[k + 1]) && ps[k].newCnt == NewIn(b, bs[k], bs[k + 1])
    ensures OldTotal(ps[..n]) == OldIn(b, 0, bs[n]) && NewTotal(ps[..n]) == NewIn(b, 0, bs[n])
  {
    if n > 0 {
      TotalOfRuns(ps, b, bs, n - 1);
      assert ps[..n][..n - 1] == ps[..n - 1];
      InAdd(b, 0, bs[n - 1], bs[n]);
    }
  }

  /** The pieces' counts add up to the tallies of the whole body. */
  lemma SplitTotals(h: Hunk)
    requires h.WellFormed() && Splittable(h)
    ensures OldTotal(Split(h)) == OldIn(Body(h), 0, |Body(h)|)
    ensures NewTotal(Split(h)) == NewIn(Body(h), 0, |Body(h)|)
  {
    SplitRanges(h);
    var b, bs, ps := Body(h), Bounds(Body(h)), Split(h);
    TotalOfRuns(ps, b, bs, |ps|);
    assert ps[..|ps|] == ps;
  }

  /** The body lines assigned to piece `k`. */
  function Assigned(h: Hunk, k: nat): (r: seq<string>)
    requires k < |Cuts(Body(h))| + 1
  {
    var bs := Bounds(Body(h));
    Body(h)[bs[k]..bs[k + 1]]
  }

  /**
    A run `b[lo..hi]` that opens with a context line counts one line more, on
    each side, than the rest of the run.
   */
  lemma LoseFirstLine(b: seq<string>, lo: nat, hi: nat)
    requires lo < hi <= |b| && IsContext(b[lo])
    ensures OldIn(b, lo, hi) == OldIn(b[lo + 1..hi], 0, hi - lo - 1) + 1
    ensures NewIn(b, lo, hi) == NewIn(b[lo + 1..hi], 0, hi - lo - 1) + 1
  {
    InSlice(b, lo + 1, hi);
    InAdd(b, lo, lo + 1, hi);
    TallyOf(b[lo]);
  }

  /** The first piece keeps all the body lines assigned to it, and its counts are its own body's tallies. */
  lemma SplitFirstBody(h: Hunk)
    requires h.WellFormed() && Splittable(h)
    ensures Body(Split(h)[0]) == Assigned(h, 0)
    ensures Split(h)[0].oldCnt == OldIn(Body(Split(h)[0]), 0, |Body(Split(h)[0])|)
    ensures Split(h)[0].newCnt == NewIn(Body(Split(h)[0]), 0, |Body(Split(h)[0])|)
  {
    SplitRanges(h);
    SplitBodyLines(h);
    var b, bs := Body(h), Bounds(Body(h));
    InSlice(b, 0, bs[1]);
    assert b[..bs[1]] == b[0..bs[1]];
  }

  /**
    Every later piece is assigned a run that opens at a cut, a context line,
    and that line is lost under the new header; the header still counts it,
    so the counts of a later piece exceed the tallies of its own body by one
    on each side.
   */
  lemma SplitLaterBodies(h: Hunk)
    requires h.WellFormed() && Splittable(h)
    ensures forall k :: 1 <= k < |Split(h)| ==>
      && IsContext(Body(h)[Bounds(Body(h))[k]])
      && Split(h)[k].oldCnt == OldIn(Body(Split(h)[k]), 0, |Body(Split(h)[k])|) + 1
      && Split(h)[k].newCnt == NewIn(Body(Split(h)[k]), 0, |Body(Split(h)[k])|) + 1
  {
    SplitLength(h);
    forall k | 1 <= k < |Split(h)|
      ensures IsContext(Body(h)[Bounds(Body(h))[k]])
      ensures Split(h)[k].oldCnt == OldIn(Body(Split(h)[k]), 0, |Body(Split(h)[k])|) + 1
      ensures Split(h)[k].newCnt == NewIn(Body(Split(h)[k]), 0, |Body(Split(h)[k])|) + 1
    {
      LaterPiece(h, k);
    }
  }

  /** Piece `k`, past the first, counts the lost context line that opens its run. */
  lemma LaterPiece(h: Hunk, k: nat)
    requires h.WellFormed() && Splittable(h) && 1 <= k < |Split(h)|
    ensures |h.text| > 0 && |Split(h)| == |Cuts(Body(h))| + 1
    ensures IsContext(Body(h)[Bounds(Body(h))[k]])
    ensures Split(h)[k].oldCnt == OldIn(Body(Split(h)[k]), 0, |Body(Split(h)[k])|) + 1
    ensures Split(h)[k].newCnt == NewIn(Body(Split(h)[k]), 0, |Body(Split(h)[k])|) + 1
  {
    PieceAt(h, k);
    LaterCounts(Split(h)[k], Body(h), Bounds(Body(h))[k], Bounds(Body(h))[k + 1]);
  }

  /** What is known of piece `k` alone: its shape, its counts and its body. */
  lemma PieceAt(h: Hunk, k: nat)
    requires h.WellFormed() && Splittable(h) && k < |Split(h)|
    ensures |h.text| > 0 && |Split(h)| == |Cuts(Body(h))| + 1
    ensures var b, bs, p := Body(h), Bounds(Body(h)), Split(h)[k];
      && p.WellFormed() && |p.text| > 0
      && p.oldCnt == OldIn(b, bs[k], bs[k + 1]) && p.newCnt == NewIn(b, bs[k], bs[k + 1])
      && (k == 0 ==> Body(p) == b[0..bs[1]])
      && (k > 0 ==> bs[k] < bs[k + 1] && Body(p) == b[bs[k] + 1..bs[k + 1]])
  {
    SplitShapes(h);
    SplitRanges(h);
    SplitBodyLines(h);
    assert Body(h)[..Bounds(Body(h))[1]] == Body(h)[0..Bounds(Body(h))[1]];
  }

  /** A piece whose body is its assigned run less the opening context line counts that line too. */
  lemma LaterCounts(p: Hunk, b: seq<string>, lo: nat, hi: nat)
    requires lo < hi <= |b| && IsContext(b[lo])
    requires Body(p) == b[lo + 1..hi]
    requires p.oldCnt == OldIn(b, lo, hi) && p.newCnt == NewIn(b, lo, hi)
    ensures p.oldCnt == OldIn(Body(p), 0, |Body(p)|) + 1
    ensures p.newCnt == NewIn(Body(p), 0, |Body(p)|) + 1
  {
    LoseFirstLine(b, lo, hi);
  }

  /** The cut points are exactly the body indices that satisfy `IsCut`. */
  lemma CutsExact(b: seq<string>, c: int)
    ensures c in Cuts(b) <==> IsCut(b, c)
  {
    if IsCut(b, c) {
      CutsFromComplete(b, 0, c);
    }
  }

  /** The assigned runs of pieces `0 .. n - 1`. */
  function Groups(h: Hunk, n: nat): (r: seq<seq<string>>)
    requires n <= |Cuts(Body(h))| + 1
    ensures |r| == n
  {
    if n == 0 then [] else Groups(h, n - 1) + [Assigned(h, n - 1)]
  }

  /** Glue line groups back together. */
  function Concat(groups: seq<seq<string>>): seq<string> {
    if groups == [] then [] else Concat(groups[..|groups| - 1]) + groups[|groups| - 1]
  }

  lemma {:induction false} GroupsCover(h: Hunk, n: nat)
    requires n <= |Cuts(Body(h))| + 1
    ensures Concat(Groups(h, n)) == Body(h)[..Bounds(Body(h))[n]]
  {
    if n > 0 {
      var b, bs := Body(h), Bounds(Body(h));
      GroupsCover(h, n - 1);
      assert Groups(h, n)[..n - 1] == Groups(h, n - 1);
      assert b[..bs[n - 1]] + b[bs[n - 1]..bs[n]] == b[..bs[n]];
    }
  }

  /** The assigned runs, in order, are the whole body: every body line goes to exactly one piece. */
  lemma SplitCoversBody(h: Hunk)
    ensures Concat(Groups(h, |Cuts(Body(h))| + 1)) == Body(h)
  {
    GroupsCover(h, |Cuts(Body(h))| + 1);
  }

  /** A cut of a slice is a cut of the whole, shifted. */
  lemma SliceCut(b: seq<string>, x: nat, y: nat, c: int)
    requires x <= y <= |b| && IsCut(b[x..y], c)
    ensures IsCut(b, x + c)
  {
    var s := b[x..y];
    assert s[c - 4] == b[x + c - 4] && s[c - 3] == b[x + c - 3] && s[c - 2] == b[x + c - 2];
    assert s[c - 1] == b[x + c - 1] && s[c] == b[x + c];
  }

  /** A run of the body that lies between two consecutive bounds, past the first, holds no cut. */
  lemma RunNoCuts(b: seq<string>, k: nat, x: nat, y: nat)
    requires k < |Bounds(b)| - 1 && Bounds(b)[k] <= x <= y <= Bounds(b)[k + 1]
    ensures Cuts(b[x..y]) == []
  {
    var s := b[x..y];
    if Cuts(s) != [] {
      var c := Cuts(s)[0];
      SliceCut(b, x, y, c);
      NoCutBetween(b, k, x + c);
    }
  }

  /** How many pieces `Split` makes. */
  lemma SplitLength(h: Hunk)
    requires h.WellFormed()
    ensures |Split(h)| == if Splittable(h) then |Cuts(Body(h))| + 1 else 1
  {
  }

  /** A hunk whose body is a run between two consecutive bounds of `b` is not split. */
  lemma RunNotSplit(p: Hunk, b: seq<string>, k: nat, x: nat, y: nat)
    requires k < |Bounds(b)| - 1 && Bounds(b)[k] <= x <= y <= Bounds(b)[k + 1]
    requires p.WellFormed() && Body(p) == b[x..y]
    ensures |Split(p)| == 1
  {
    RunNoCuts(b, k, x, y);
    SplitLength(p);
  }

  /** Every piece is a well-formed fresh change hunk. */
  lemma SplitShapes(h: Hunk)
    requires h.WellFormed() && Splittable(h)
    ensures forall k :: 0 <= k < |Split(h)| ==>
      && Split(h)[k].kind == Change && Split(h)[k].use == None && !Split(h)[k].dirty
      && Split(h)[k].WellFormed() && |Split(h)[k].text| > 0
  {
    SplitPieces(h);
    forall k | 0 <= k < |Split(h)|
      ensures Split(h)[k].kind == Change && Split(h)[k].use == None && !Split(h)[k].dirty
      ensures Split(h)[k].WellFormed() && |Split(h)[k].text| > 0
    {
      PieceHead(h, k);
    }
  }

  /**
    Splitting piece `k` again gives a single piece, and the piece itself
    when the piece is not splittable. A later piece that is still splittable
    comes back with its counts recomputed from the lines it shows, which
    differ from its own (see `SplitLaterBodies`).
   */
  lemma PieceNotSplit(h: Hunk, k: nat)
    requires h.WellFormed() && Splittable(h) && k < |Split(h)|
    ensures Split(h)[k].WellFormed() && |Split(Split(h)[k])| == 1
    ensures !Splittable(Split(h)[k]) ==> Split(Split(h)[k]) == [Split(h)[k]]
  {
    PieceAt(h, k);
    SplitPieces(Split(h)[k]);
    var b, bs := Body(h), Bounds(Body(h));
    if k == 0 {
      RunNotSplit(Split(h)[0], b, 0, 0, bs[1]);
    } else {
      RunNotSplit(Split(h)[k], b, k, bs[k] + 1, bs[k + 1]);
    }
  }

  /**
    No piece has a cut of its own, so splitting a piece again never gives
    more than one piece, and a second round of splitting changes nothing.
   */
  lemma SplitPiecesOnce(h: Hunk)
    requires h.WellFormed() && Splittable(h)
    ensures forall k :: 0 <= k < |Split(h)| ==> Split(h)[k].WellFormed() && |Split(Split(h)[k])| == 1
  {
    forall k | 0 <= k < |Split(h)|
      ensures Split(h)[k].WellFormed() && |Split(Split(h)[k])| == 1
    {
      PieceNotSplit(h, k);
    }
  }
}
