/**
  The selection engine of internal/ui/patch.go: pattern filtering and search
  over hunks, reassembling a patch from selected hunks, automatic splitting,
  the option list of the prompt, the clean-up of a manually edited hunk and
  the per-file command loop of `patchUpdateFile`.
 */
module UiPatch {
  import opened Wrappers
  import opened Strs
  import opened GitPatch
  import opened GitSplit

  // ---------------------------------------------------------------------------
  // Patterns

  /**
    A regular-expression engine, abstracted: which patterns compile, and which
    lines a pattern matches. Go's RE2 semantics are not modelled.
   */
  datatype Regex = Regex(compiles: string -> bool, matches: (string, string) -> bool)

  /** The pattern compiles and matches some line of the hunk, its header line included. */
  predicate Matches(re: Regex, pattern: string, h: Hunk) {
    re.compiles(pattern) && exists i :: 0 <= i < |h.text| && re.matches(pattern, h.text[i])
  }

  /** Every hunk of the list matches. */
  predicate AllMatch(re: Regex, pattern: string, hs: seq<Hunk>) {
    forall k :: 0 <= k < |hs| ==> Matches(re, pattern, hs[k])
  }

  /** `hunkMatchesRegex` */
  method HunkMatchesRegex(re: Regex, h: Hunk, pattern: string) returns (b: bool)
    ensures b == Matches(re, pattern, h)
  {
    if !re.compiles(pattern) {
      return false;
    }
    var i := 0;
    while i < |h.text|
      invariant 0 <= i <= |h.text|
      invariant forall j :: 0 <= j < i ==> !re.matches(pattern, h.text[j])
    {
      if re.matches(pattern, h.text[i]) {
        return true;
      }
      i := i + 1;
    }
    return false;
  }

  /** The hunks of `hs` that match, in their order. */
  function Matching(re: Regex, pattern: string, hs: seq<Hunk>): seq<Hunk>
  {
    if hs == [] then []
    else
      var last := hs[|hs| - 1];
      Matching(re, pattern, hs[..|hs| - 1]) + (if Matches(re, pattern, last) then [last] else [])
  }

  /** Filtering a concatenation filters each part: the kept hunks stay in their order. */
  lemma {:induction false} MatchingAppend(re: Regex, pattern: string, a: seq<Hunk>, b: seq<Hunk>)
    ensures Matching(re, pattern, a + b) == Matching(re, pattern, a) + Matching(re, pattern, b)
    decreases |b|
  {
    if b == [] {
      assert a + b == a;
    } else {
      var b', x := b[..|b| - 1], b[|b| - 1];
      var tail := if Matches(re, pattern, x) then [x] else [];
      assert (a + b)[..|a + b| - 1] == a + b';
      assert (a + b)[|a + b| - 1] == x;
      assert Matching(re, pattern, a + b) == Matching(re, pattern, a + b') + tail;
      assert Matching(re, pattern, b) == Matching(re, pattern, b') + tail;
      MatchingAppend(re, pattern, a, b');
    }
  }

  /** A hunk is kept exactly when it is in the list and matches; nothing is kept for a pattern that does not compile. */
  lemma {:induction false} MatchingExactly(re: Regex, pattern: string, hs: seq<Hunk>)
    ensures forall h :: h in Matching(re, pattern, hs) <==> h in hs && Matches(re, pattern, h)
    ensures |Matching(re, pattern, hs)| <= |hs|
    ensures !re.compiles(pattern) ==> Matching(re, pattern, hs) == []
    decreases |hs|
  {
    if hs != [] {
      var init := hs[..|hs| - 1];
      MatchingExactly(re, pattern, init);
      assert hs == init + [hs[|hs| - 1]];
    }
  }

  /** `filterHunksByRegex`: the matching hunks in order; none for a pattern that does not compile. */
  method FilterHunksByRegex(re: Regex, hunks: seq<Hunk>, pattern: string) returns (r: seq<Hunk>)
    ensures r == Matching(re, pattern, hunks)
  {
    if !re.compiles(pattern) {
      MatchingExactly(re, pattern, hunks);
      return [];
    }
    r := [];
    var i := 0;
    while i < |hunks|
      invariant 0 <= i <= |hunks|
      invariant r == Matching(re, pattern, hunks[..i])
    {
      var m := HunkMatchesRegex(re, hunks[i], pattern);
      assert hunks[..i + 1][..i] == hunks[..i];
      if m {
        r := r + [hunks[i]];
      }
      i := i + 1;
    }
    assert hunks[..i] == hunks;
  }

  /** The first index in `lo .. hi` whose hunk matches. */
  function FirstMatch(re: Regex, pattern: string, hs: seq<Hunk>, lo: nat, hi: nat): (r: Option<nat>)
    requires hi <= |hs|
    ensures r.Some? ==> lo <= r.value < hi && Matches(re, pattern, hs[r.value])
    ensures r.Some? ==> forall j :: lo <= j < r.value ==> !Matches(re, pattern, hs[j])
    ensures r.None? ==> forall j :: lo <= j < hi ==> !Matches(re, pattern, hs[j])
    decreases hi - lo
  {
    if lo >= hi then None
    else if Matches(re, pattern, hs[lo]) then Some(lo)
    else FirstMatch(re, pattern, hs, lo + 1, hi)
  }

  /** Where `/` moves the cursor: the first match after it, else the first match up to it, else nowhere. */
  function SearchTarget(re: Regex, pattern: string, hs: seq<Hunk>, ix: nat): nat
    requires ix < |hs|
  {
    match FirstMatch(re, pattern, hs, ix + 1, |hs|)
    case Some(i) => i
    case None =>
      match FirstMatch(re, pattern, hs, 0, ix + 1)
      case Some(i) => i
      case None => ix
  }

  /**
    The search wraps around: it lands on a matching hunk whenever there is
    one, and every hunk it passes over (cyclically after the cursor) does not
    match; with no match the cursor stays.
   */
  lemma SearchTargetMeans(re: Regex, pattern: string, hs: seq<Hunk>, ix: nat)
    requires ix < |hs|
    ensures var t := SearchTarget(re, pattern, hs, ix);
      && t < |hs|
      && ((exists j :: 0 <= j < |hs| && Matches(re, pattern, hs[j])) <==> Matches(re, pattern, hs[t]))
      && (t > ix ==> forall j :: ix < j < t ==> !Matches(re, pattern, hs[j]))
      && (t <= ix && Matches(re, pattern, hs[t]) ==>
            (forall j :: ix < j < |hs| ==> !Matches(re, pattern, hs[j])) && (forall j :: 0 <= j < t ==> !Matches(re, pattern, hs[j])))
  {
  }

  /** The `/` search loops of `patchUpdateFile`. */
  method SearchHunks(re: Regex, hunks: seq<Hunk>, ix: nat, pattern: string) returns (newIx: nat)
    requires ix < |hunks|
    ensures newIx == SearchTarget(re, pattern, hunks, ix)
  {
    var i := ix + 1;
    while i < |hunks|
      invariant ix + 1 <= i <= |hunks|
      invariant FirstMatch(re, pattern, hunks, ix + 1, |hunks|) == FirstMatch(re, pattern, hunks, i, |hunks|)
    {
      var m := HunkMatchesRegex(re, hunks[i], pattern);
      if m {
        return i;
      }
      i := i + 1;
    }
    i := 0;
    while i <= ix
      invariant 0 <= i <= ix + 1
      invariant FirstMatch(re, pattern, hunks, 0, ix + 1) == FirstMatch(re, pattern, hunks, i, ix + 1)
    {
      var m := HunkMatchesRegex(re, hunks[i], pattern);
      if m {
        return i;
      }
      i := i + 1;
    }
    return ix;
  }

  // ---------------------------------------------------------------------------
  // Reassembling a patch

  /** A `---` or `+++` line of the file header. */
  predicate IsFileLine(line: string) {
    HasPrefix(line, "+++") || HasPrefix(line, "---")
  }

  /** The header lines other than `---`/`+++`, in order. */
  function KeptHeader(text: seq<string>): seq<string> {
    if text == [] then []
    else KeptHeader(text[..|text| - 1]) + (if IsFileLine(text[|text| - 1]) then [] else [text[|text| - 1]])
  }

  /** The `---`/`+++` lines of the header, in order. */
  function FileLines(text: seq<string>): seq<string> {
    if text == [] then []
    else FileLines(text[..|text| - 1]) + (if IsFileLine(text[|text| - 1]) then [text[|text| - 1]] else [])
  }

  /** The first change hunk of the list. */
  function FirstChange(hs: seq<Hunk>): (r: Option<nat>)
    ensures r.Some? ==> r.value < |hs|
  {
    if hs == [] then None
    else
      var r := FirstChange(hs[..|hs| - 1]);
      if r.Some? then r
      else if hs[|hs| - 1].kind == Change then Some(|hs| - 1)
      else None
  }

  /** `FirstChange` finds the change hunk with no change hunk before it, or reports that there is none. */
  lemma {:induction false} FirstChangeMeans(hs: seq<Hunk>)
    ensures FirstChange(hs).Some? ==> hs[FirstChange(hs).value].kind == Change
    ensures FirstChange(hs).Some? ==> forall j :: 0 <= j < FirstChange(hs).value ==> hs[j].kind != Change
    ensures FirstChange(hs).None? ==> forall j :: 0 <= j < |hs| ==> hs[j].kind != Change
    decreases |hs|
  {
    if hs != [] {
      var init := hs[..|hs| - 1];
      FirstChangeMeans(init);
      assert forall j :: 0 <= j < |init| ==> hs[j] == init[j];
    }
  }

  /** The lines after the header part: every hunk's text, with `file` inserted before the first change hunk. */
  function Emit(hs: seq<Hunk>, file: seq<string>): seq<string> {
    if hs == [] then []
    else
      var init, last := hs[..|hs| - 1], hs[|hs| - 1];
      Emit(init, file) + (if last.kind == Change && FirstChange(init).None? then file else []) + last.text
  }

  /** The lines `reassemblePatch` joins. */
  function ReassembleLines(hunks: seq<Hunk>): seq<string> {
    if hunks == [] then [] else KeptHeader(hunks[0].text) + Emit(hunks[1..], FileLines(hunks[0].text))
  }

  /** `reassemblePatch`: the lines joined by newlines, with one trailing newline. */
  function Reassemble(hunks: seq<Hunk>): string {
    Join(ReassembleLines(hunks), "\n") + "\n"
  }

  /** The definitions above, one hunk further. */
  lemma EmitSnoc(hs: seq<Hunk>, h: Hunk, file: seq<string>)
    ensures FirstChange(hs + [h]) == if FirstChange(hs).Some? then FirstChange(hs) else if h.kind == Change then Some(|hs|) else None
    ensures Emit(hs + [h], file) == Emit(hs, file) + (if h.kind == Change && FirstChange(hs).None? then file else []) + h.text
  {
    assert (hs + [h])[..|hs|] == hs;
  }

  /** A step of the loop of `reassemblePatch`, after the lines `pre` of the header. */
  lemma EmitStep(done: seq<Hunk>, h: Hunk, file: seq<string>, pre: seq<string>, lines: seq<string>)
    requires lines == pre + Emit(done, file)
    ensures lines + (if h.kind == Change && FirstChange(done).None? then file else []) + h.text == pre + Emit(done + [h], file)
    ensures FirstChange(done + [h]).Some? <==> FirstChange(done).Some? || h.kind == Change
  {
    EmitSnoc(done, h, file);
  }

  /** `EmitInsertsOnce`, one hunk further, while no change hunk has been seen. */
  lemma EmitBeforeChange(init: seq<Hunk>, last: Hunk, file: seq<string>)
    requires FirstChange(init).None? && Emit(init, file) == Flatten(init)
    ensures var hs := init + [last];
      if last.kind == Change then FirstChange(hs) == Some(|init|) && Emit(hs, file) == Flatten(init) + file + Flatten([last])
      else FirstChange(hs).None? && Emit(hs, file) == Flatten(hs)
  {
    EmitSnoc(init, last, file);
    FlattenSnoc(init, last);
    FlattenSnoc([], last);
  }

  /** `EmitInsertsOnce`, one hunk further, once the first change hunk is at `i`. */
  lemma EmitAfterChange(init: seq<Hunk>, last: Hunk, file: seq<string>, i: nat)
    requires FirstChange(init) == Some(i)
    requires Emit(init, file) == Flatten(init[..i]) + file + Flatten(init[i..])
    ensures var hs := init + [last];
      FirstChange(hs) == Some(i) && Emit(hs, file) == Flatten(hs[..i]) + file + Flatten(hs[i..])
  {
    var hs := init + [last];
    EmitSnoc(init, last, file);
    assert hs[..i] == init[..i];
    assert hs[i..] == init[i..] + [last];
    FlattenSnoc(init[i..], last);
  }

  /**
    The `---`/`+++` lines go in once, just before the first change hunk, and
    not at all when there is none; every hunk's text follows in order.
   */
  lemma {:induction false} EmitInsertsOnce(hs: seq<Hunk>, file: seq<string>)
    ensures FirstChange(hs).None? ==> Emit(hs, file) == Flatten(hs)
    ensures FirstChange(hs).Some? ==>
      var i := FirstChange(hs).value;
      Emit(hs, file) == Flatten(hs[..i]) + file + Flatten(hs[i..])
    decreases |hs|
  {
    if hs != [] {
      var init, last := hs[..|hs| - 1], hs[|hs| - 1];
      EmitInsertsOnce(init, file);
      assert hs == init + [last];
      if FirstChange(init).None? {
        EmitBeforeChange(init, last, file);
        assert hs[..|init|] == init && hs[|init|..] == [last];
      } else {
        EmitAfterChange(init, last, file, FirstChange(init).value);
      }
    }
  }

  /** An empty list reassembles to a single newline. */
  lemma ReassembleEmpty()
    ensures Reassemble([]) == "\n"
  {
  }

  /** Reading the patch back line by line gives the reassembled lines, when no line holds a newline. */
  lemma ReassembleReads(hunks: seq<Hunk>)
    requires |ReassembleLines(hunks)| >= 1
    requires forall k, j :: 0 <= k < |ReassembleLines(hunks)| && 0 <= j < |ReassembleLines(hunks)[k]| ==>
      ReassembleLines(hunks)[k][j] != '\n'
    ensures var p := Reassemble(hunks); |p| >= 1 && SplitOn(p[..|p| - 1], '\n') == ReassembleLines(hunks)
  {
    var j := Join(ReassembleLines(hunks), "\n");
    assert (j + "\n")[..|j|] == j;
    SplitJoin(ReassembleLines(hunks), '\n');
  }

  /** The first loop of `reassemblePatch`: the header lines other than `---`/`+++`. */
  method CollectKeptHeader(head: seq<string>) returns (lines: seq<string>)
    ensures lines == KeptHeader(head)
  {
    lines := [];
    var j := 0;
    while j < |head|
      invariant 0 <= j <= |head|
      invariant lines == KeptHeader(head[..j])
    {
      assert head[..j + 1][..j] == head[..j];
      if !HasPrefix(head[j], "+++") && !HasPrefix(head[j], "---") {
        lines := lines + [head[j]];
      }
      j := j + 1;
    }
    assert head[..j] == head;
  }

  /** The loop of `reassemblePatch` that brings in the `---`/`+++` lines. */
  method CollectFileLines(head: seq<string>) returns (lines: seq<string>)
    ensures lines == FileLines(head)
  {
    lines := [];
    var i := 0;
    while i < |head|
      invariant 0 <= i <= |head|
      invariant lines == FileLines(head[..i])
    {
      assert head[..i + 1][..i] == head[..i];
      if HasPrefix(head[i], "+++") || HasPrefix(head[i], "---") {
        lines := lines + [head[i]];
      }
      i := i + 1;
    }
    assert head[..i] == head;
  }

  /** `reassemblePatch` */
  method ReassemblePatch(hunks: seq<Hunk>) returns (patch: string)
    ensures patch == Reassemble(hunks)
  {
    var lines: seq<string> := [];
    if |hunks| > 0 {
      var head := hunks[0].text;
      lines := CollectKeptHeader(head);
      var tail := hunks[1..];
      var headerAdded := false;
      var k := 0;
      while k < |tail|
        invariant 0 <= k <= |tail|
        invariant headerAdded == FirstChange(tail[..k]).Some?
        invariant lines == KeptHeader(head) + Emit(tail[..k], FileLines(head))
      {
        var hunk := tail[k];
        assert tail[..k + 1] == tail[..k] + [hunk];
        EmitStep(tail[..k], hunk, FileLines(head), KeptHeader(head), lines);
        if hunk.kind == Change && !headerAdded {
          var file := CollectFileLines(head);
          lines := lines + file;
          headerAdded := true;
        }
        lines := lines + hunk.text;
        k := k + 1;
      }
      assert tail[..k] == tail;
    }
    patch := Join(lines, "\n") + "\n";
  }

  // ---------------------------------------------------------------------------
  // Applying the selection

  /** The accepted hunks, in list order. */
  function Accepted(hs: seq<Hunk>): seq<Hunk> {
    if hs == [] then []
    else
      var last := hs[|hs| - 1];
      Accepted(hs[..|hs| - 1]) + (if last.use == Some(true) then [last] else [])
  }

  /** A hunk is accepted exactly when it is in the list with `use` true. */
  lemma {:induction false} AcceptedExactly(hs: seq<Hunk>)
    ensures forall h :: h in Accepted(hs) <==> h in hs && h.use == Some(true)
    ensures |Accepted(hs)| <= |hs|
    decreases |hs|
  {
    if hs != [] {
      var init := hs[..|hs| - 1];
      AcceptedExactly(init);
      assert hs == init + [hs[|hs| - 1]];
    }
  }

  /** The patch applied at the end of a file: header and accepted hunks, or nothing when none is accepted. */
  function AppliedPatch(header: Hunk, hs: seq<Hunk>): Option<string> {
    if Accepted(hs) == [] then None else Some(Reassemble([header] + Accepted(hs)))
  }

  /** The `applyPatch` block: collect the accepted hunks behind the header and reassemble them. */
  method SelectAndAssemble(header: Hunk, hunks: seq<Hunk>) returns (patch: Option<string>)
    ensures patch == AppliedPatch(header, hunks)
  {
    var selected := [header];
    var i := 0;
    while i < |hunks|
      invariant 0 <= i <= |hunks|
      invariant selected == [header] + Accepted(hunks[..i])
    {
      assert hunks[..i + 1][..i] == hunks[..i];
      if hunks[i].use.Some? && hunks[i].use.value {
        selected := selected + [hunks[i]];
      }
      i := i + 1;
    }
    assert hunks[..i] == hunks;
    if |selected| > 1 {
      var data := ReassemblePatch(selected);
      patch := Some(data);
    } else {
      patch := None;
    }
  }

  // ---------------------------------------------------------------------------
  // Automatic splitting

  /** A hunk as the per-file loop holds it: parallel text and display, and a first line. */
  predicate Usable(h: Hunk) {
    h.WellFormed() && |h.text| > 0
  }

  predicate AllUsable(hs: seq<Hunk>) {
    forall i :: 0 <= i < |hs| ==> Usable(hs[i])
  }

  /** A splitting round replaces this hunk: it is splittable and `SplitHunk` gives more than one piece. */
  predicate Splits(h: Hunk)
    requires h.WellFormed()
  {
    Splittable(h) && |Split(h)| > 1
  }

  /** What one round makes of a hunk. */
  function SplitOnce(h: Hunk): seq<Hunk>
    requires h.WellFormed()
  {
    if Splits(h) then Split(h) else [h]
  }

  /** One pass of the inner loop of `autoSplitAllHunks`: every hunk replaced by what the round makes of it, in order. */
  function Round(cs: seq<Hunk>): seq<Hunk>
    requires AllUsable(cs)
  {
    if cs == [] then [] else Round(cs[..|cs| - 1]) + SplitOnce(cs[|cs| - 1])
  }

  /** The round splits some hunk of the list (`splitOccurred`). */
  predicate AnySplits(cs: seq<Hunk>)
    requires AllUsable(cs)
  {
    cs != [] && (AnySplits(cs[..|cs| - 1]) || Splits(cs[|cs| - 1]))
  }

  /** No hunk of the list would be split again, and all are usable. */
  predicate Settled(cs: seq<Hunk>) {
    forall k :: 0 <= k < |cs| ==> Usable(cs[k]) && !Splits(cs[k])
  }

  /** What a round makes of one hunk is settled. */
  lemma SplitOnceSettles(h: Hunk)
    requires Usable(h)
    ensures Settled(SplitOnce(h))
  {
    if Splits(h) {
      SplitPiecesOnce(h);
      SplitHeaders(h);
    }
  }

  lemma SettledAppend(a: seq<Hunk>, b: seq<Hunk>)
    requires Settled(a) && Settled(b)
    ensures Settled(a + b)
  {
    assert forall k :: |a| <= k < |a + b| ==> (a + b)[k] == b[k - |a|];
  }

  /** Every hunk of a round's output is usable and would not be split again. */
  lemma {:induction false} RoundSettles(cs: seq<Hunk>)
    requires AllUsable(cs)
    ensures Settled(Round(cs))
    decreases |cs|
  {
    if cs != [] {
      var init, last := cs[..|cs| - 1], cs[|cs| - 1];
      RoundSettles(init);
      SplitOnceSettles(last);
      SettledAppend(Round(init), SplitOnce(last));
    }
  }

  /** A list of hunks no round would split goes through a round unchanged, and the round reports no split. */
  lemma {:induction false} RoundFixed(cs: seq<Hunk>)
    requires Settled(cs)
    ensures Round(cs) == cs && !AnySplits(cs)
    decreases |cs|
  {
    if cs != [] {
      var init := cs[..|cs| - 1];
      RoundFixed(init);
      assert cs == init + [cs[|cs| - 1]];
    }
  }

  lemma UsableAppend(a: seq<Hunk>, b: seq<Hunk>)
    requires AllUsable(a) && AllUsable(b)
    ensures AllUsable(a + b)
  {
    assert forall k :: |a| <= k < |a + b| ==> (a + b)[k] == b[k - |a|];
  }

  /** The last element of a concatenation comes from its second, non-empty part. */
  lemma AppendLast<T>(a: seq<T>, b: seq<T>)
    requires b != []
    ensures (a + b)[..|a + b| - 1] == a + b[..|b| - 1] && (a + b)[|a + b| - 1] == b[|b| - 1]
  {
  }

  /** One unfolding of `Round` on a non-empty list. */
  lemma RoundSnoc(cs: seq<Hunk>)
    requires AllUsable(cs) && cs != []
    ensures Round(cs) == Round(cs[..|cs| - 1]) + SplitOnce(cs[|cs| - 1])
  {
  }

  /** Rounds are taken list element by list element. */
  lemma {:induction false} RoundAppend(a: seq<Hunk>, b: seq<Hunk>)
    requires AllUsable(a) && AllUsable(b)
    ensures AllUsable(a + b) && Round(a + b) == Round(a) + Round(b)
    decreases |b|
  {
    UsableAppend(a, b);
    if b == [] {
      assert a + b == a;
    } else {
      var b', x := b[..|b| - 1], b[|b| - 1];
      AppendLast(a, b);
      RoundAppend(a, b');
      RoundSnoc(a + b);
      RoundSnoc(b);
      assert Round(a + b) == Round(a) + Round(b') + SplitOnce(x);
    }
  }

  /**
    The repeat loop of `autoSplitAllHunks` from round `rounds` on: it runs a
    round and stops when that round split nothing or when it was the 11th.
   */
  function Rounds(cs: seq<Hunk>, rounds: nat): seq<Hunk>
    requires AllUsable(cs) && rounds <= 10
    decreases 10 - rounds
  {
    RoundSettles(cs);
    var next := Round(cs);
    if !AnySplits(cs) || rounds + 1 > 10 then next else Rounds(next, rounds + 1)
  }

  /** `autoSplitAllHunks` on one hunk. */
  function AutoSplitOne(h: Hunk): seq<Hunk>
    requires Usable(h)
  {
    if Splittable(h) then Rounds([h], 0) else [h]
  }

  /** `autoSplitAllHunks`: the hunks' auto-split results, concatenated in order. */
  function AutoSplitAll(hs: seq<Hunk>): seq<Hunk>
    requires AllUsable(hs)
  {
    if hs == [] then [] else AutoSplitAll(hs[..|hs| - 1]) + AutoSplitOne(hs[|hs| - 1])
  }

  /**
    Splitting converges after one effective round: a hunk ends up as its
    `SplitHunk` pieces when those are more than one, and unchanged otherwise
    (in particular when it is not splittable). The round limit is never what
    stops the loop.
   */
  lemma AutoSplitOneIsOneRound(h: Hunk)
    requires Usable(h)
    ensures AutoSplitOne(h) == SplitOnce(h)
  {
    if Splittable(h) {
      assert [h][..0] == [];
      assert Round([h]) == SplitOnce(h);
      RoundSettles([h]);
      RoundFixed(Round([h]));
    }
  }

  /** Auto-splitting a list is one round over it. */
  lemma {:induction false} AutoSplitAllIsRound(hs: seq<Hunk>)
    requires AllUsable(hs)
    ensures AutoSplitAll(hs) == Round(hs)
    decreases |hs|
  {
    if hs != [] {
      AutoSplitAllIsRound(hs[..|hs| - 1]);
      AutoSplitOneIsOneRound(hs[|hs| - 1]);
    }
  }

  /**
    `autoSplitAllHunks` keeps the hunks usable, keeps the outputs for each
    input hunk together and in input order, never shortens the list, and a
    second run changes nothing.
   */
  lemma AutoSplitProperties(a: seq<Hunk>, b: seq<Hunk>)
    requires AllUsable(a) && AllUsable(b)
    ensures AllUsable(AutoSplitAll(a))
    ensures AutoSplitAll(AutoSplitAll(a)) == AutoSplitAll(a)
    ensures AllUsable(a + b) && AutoSplitAll(a + b) == AutoSplitAll(a) + AutoSplitAll(b)
    ensures |AutoSplitAll(a)| >= |a|
  {
    AutoSplitAllIsRound(a);
    AutoSplitAllIsRound(b);
    RoundSettles(a);
    AutoSplitAllIsRound(Round(a));
    RoundFixed(Round(a));
    RoundAppend(a, b);
    AutoSplitAllIsRound(a + b);
    RoundLength(a);
  }

  /** A round never shortens the list. */
  lemma {:induction false} RoundLength(cs: seq<Hunk>)
    requires AllUsable(cs)
    ensures |Round(cs)| >= |cs|
    decreases |cs|
  {
    if cs != [] {
      RoundLength(cs[..|cs| - 1]);
      if Splits(cs[|cs| - 1]) {
        SplitPiecesOnce(cs[|cs| - 1]);
      }
    }
  }

  /** The inner `for` loop of `autoSplitAllHunks`: one round, and whether it split anything. */
  method SplitRound(cs: seq<Hunk>) returns (next: seq<Hunk>, occurred: bool)
    requires AllUsable(cs)
    ensures next == Round(cs) && occurred == AnySplits(cs)
  {
    next := [];
    occurred := false;
    var i := 0;
    while i < |cs|
      invariant 0 <= i <= |cs|
      invariant next == Round(cs[..i]) && occurred == AnySplits(cs[..i])
    {
      var h := cs[i];
      assert cs[..i + 1][..i] == cs[..i];
      var splittable := HunkSplittable(h);
      if splittable {
        var splits := SplitHunk(h);
        if |splits| > 1 {
          occurred := true;
          next := next + splits;
        } else {
          next := next + [h];
        }
      } else {
        next := next + [h];
      }
      i := i + 1;
    }
    assert cs[..i] == cs;
  }

  /** `AutoSplitAll`, one hunk further. */
  lemma AutoSplitAllSnoc(hs: seq<Hunk>, h: Hunk)
    requires AllUsable(hs) && Usable(h)
    ensures AllUsable(hs + [h]) && AutoSplitAll(hs + [h]) == AutoSplitAll(hs) + AutoSplitOne(h)
  {
    assert (hs + [h])[..|hs|] == hs;
  }

  /** The repeat loop of `autoSplitAllHunks` for one splittable hunk, with its limit of 11 rounds. */
  method SplitUntilSettled(hunk: Hunk) returns (current: seq<Hunk>)
    requires Usable(hunk) && Splittable(hunk)
    ensures current == AutoSplitOne(hunk)
  {
    current := [hunk];
    var rounds := 0;
    while true
      invariant rounds <= 10 && AllUsable(current)
      invariant Rounds(current, rounds) == AutoSplitOne(hunk)
      decreases 10 - rounds
    {
      ghost var before := current;
      RoundSettles(current);
      var next, occurred := SplitRound(current);
      current := next;
      rounds := rounds + 1;
      if !occurred || rounds > 10 {
        assert current == Rounds(before, rounds - 1);
        break;
      }
    }
  }

  /** `autoSplitAllHunks` */
  method AutoSplitAllHunks(hunks: seq<Hunk>) returns (result: seq<Hunk>)
    requires AllUsable(hunks)
    ensures result == AutoSplitAll(hunks)
  {
    result := [];
    var n := 0;
    while n < |hunks|
      invariant 0 <= n <= |hunks|
      invariant result == AutoSplitAll(hunks[..n])
    {
      var hunk := hunks[n];
      assert hunks[..n + 1] == hunks[..n] + [hunk];
      AutoSplitAllSnoc(hunks[..n], hunk);
      var pieces := AutoSplitHunk(hunk);
      result := result + pieces;
      n := n + 1;
    }
    assert hunks[..n] == hunks;
  }

  /** The body of the outer loop of `autoSplitAllHunks`: a splittable hunk goes through the rounds, any other stays. */
  method AutoSplitHunk(hunk: Hunk) returns (pieces: seq<Hunk>)
    requires Usable(hunk)
    ensures pieces == AutoSplitOne(hunk)
  {
    var splittable := HunkSplittable(hunk);
    if splittable {
      pieces := SplitUntilSettled(hunk);
    } else {
      pieces := [hunk];
    }
  }

  // ---------------------------------------------------------------------------
  // The option list of the prompt

  /** The options the prompt can offer besides y,n,q,a,d. */
  datatype Choice =
    | PrevAny        // K
    | NextAny        // J
    | PrevUndecided  // k
    | NextUndecided  // j
    | GotoHunk       // g
    | GlobalFilter   // G
    | AcceptAll      // A
    | SplitThis      // s
    | SplitEverything // S
    | EditThis       // e

  /** The letter the prompt shows for a choice. */
  function Letter(c: Choice): string {
    match c
    case PrevAny => "K"
    case NextAny => "J"
    case PrevUndecided => "k"
    case NextUndecided => "j"
    case GotoHunk => "g"
    case GlobalFilter => "G"
    case AcceptAll => "A"
    case SplitThis => "s"
    case SplitEverything => "S"
    case EditThis => "e"
  }

  /** The order in which the prompt lists the choices. */
  const ChoiceOrder: seq<Choice> :=
    [PrevAny, NextAny, PrevUndecided, NextUndecided, GotoHunk, GlobalFilter, AcceptAll, SplitThis, SplitEverything, EditThis]

  /** Some hunk in `lo .. hi` is undecided. */
  predicate UndecidedIn(hs: seq<Hunk>, lo: nat, hi: nat)
    requires hi <= |hs|
  {
    exists i :: lo <= i < hi && hs[i].use.None?
  }

  /** Whether the prompt at `ix` offers choice `c`. */
  predicate Offered(hs: seq<Hunk>, ix: nat, c: Choice)
    requires ix < |hs|
  {
    match c
    case PrevAny => ix > 0
    case NextAny => ix < |hs| - 1
    case PrevUndecided => UndecidedIn(hs, 0, ix)
    case NextUndecided => UndecidedIn(hs, ix + 1, |hs|)
    case GotoHunk => |hs| > 1
    case GlobalFilter => true
    case AcceptAll => true
    case SplitThis => Splittable(hs[ix])
    case SplitEverything => true
    case EditThis => hs[ix].kind == Change
  }

  /** The offered choices among the first `n` of `ChoiceOrder`, in that order. */
  function OfferedAmong(hs: seq<Hunk>, ix: nat, n: nat): seq<Choice>
    requires ix < |hs| && n <= |ChoiceOrder|
  {
    if n == 0 then []
    else OfferedAmong(hs, ix, n - 1) + (if Offered(hs, ix, ChoiceOrder[n - 1]) then [ChoiceOrder[n - 1]] else [])
  }

  /** The choices the prompt at `ix` offers, in prompt order. */
  function OfferedChoices(hs: seq<Hunk>, ix: nat): seq<Choice>
    requires ix < |hs|
  {
    OfferedAmong(hs, ix, |ChoiceOrder|)
  }

  lemma {:induction false} OfferedAmongHas(hs: seq<Hunk>, ix: nat, n: nat, c: Choice)
    requires ix < |hs| && n <= |ChoiceOrder|
    ensures c in OfferedAmong(hs, ix, n) <==> c in ChoiceOrder[..n] && Offered(hs, ix, c)
    decreases n
  {
    if n > 0 {
      OfferedAmongHas(hs, ix, n - 1, c);
      assert ChoiceOrder[..n] == ChoiceOrder[..n - 1] + [ChoiceOrder[n - 1]];
    }
  }

  /** A choice is in the prompt exactly when it is offered. */
  lemma InOfferedChoices(hs: seq<Hunk>, ix: nat, c: Choice)
    requires ix < |hs|
    ensures c in OfferedChoices(hs, ix) <==> Offered(hs, ix, c)
  {
    OfferedAmongHas(hs, ix, |ChoiceOrder|, c);
    assert ChoiceOrder[..|ChoiceOrder|] == ChoiceOrder;
    match c
    case PrevAny => assert ChoiceOrder[0] == c;
    case NextAny => assert ChoiceOrder[1] == c;
    case PrevUndecided => assert ChoiceOrder[2] == c;
    case NextUndecided => assert ChoiceOrder[3] == c;
    case GotoHunk => assert ChoiceOrder[4] == c;
    case GlobalFilter => assert ChoiceOrder[5] == c;
    case AcceptAll => assert ChoiceOrder[6] == c;
    case SplitThis => assert ChoiceOrder[7] == c;
    case SplitEverything => assert ChoiceOrder[8] == c;
    case EditThis => assert ChoiceOrder[9] == c;
  }

  /**
    `K` is offered iff there is an earlier hunk, `J` iff a later one, `k`/`j`
    iff an undecided hunk lies before/after the cursor, `g` iff there are two
    hunks or more, `s` iff the hunk is splittable, `e` iff it is a change hunk;
    `G`, `A` and `S` always.
   */
  lemma OfferedChoicesMeans(hs: seq<Hunk>, ix: nat)
    requires ix < |hs|
    ensures var opts := OfferedChoices(hs, ix);
      && (PrevAny in opts <==> ix > 0)
      && (NextAny in opts <==> ix < |hs| - 1)
      && (PrevUndecided in opts <==> exists i :: 0 <= i < ix && hs[i].use.None?)
      && (NextUndecided in opts <==> exists i :: ix < i < |hs| && hs[i].use.None?)
      && (GotoHunk in opts <==> |hs| > 1)
      && (SplitThis in opts <==> Splittable(hs[ix]))
      && (EditThis in opts <==> hs[ix].kind == Change)
      && GlobalFilter in opts && AcceptAll in opts && SplitEverything in opts
  {
    InOfferedChoices(hs, ix, PrevAny);
    InOfferedChoices(hs, ix, NextAny);
    InOfferedChoices(hs, ix, PrevUndecided);
    InOfferedChoices(hs, ix, NextUndecided);
    InOfferedChoices(hs, ix, GotoHunk);
    InOfferedChoices(hs, ix, GlobalFilter);
    InOfferedChoices(hs, ix, AcceptAll);
    InOfferedChoices(hs, ix, SplitThis);
    InOfferedChoices(hs, ix, SplitEverything);
    InOfferedChoices(hs, ix, EditThis);
  }

  /** The letters of a list of choices. */
  function Letters(cs: seq<Choice>): (r: seq<string>)
    ensures |r| == |cs|
  {
    seq(|cs|, i requires 0 <= i < |cs| => Letter(cs[i]))
  }

  /** The text `buildOtherOptions` puts into the prompt. */
  function OtherOptions(hs: seq<Hunk>, ix: nat): string
    requires ix < |hs|
  {
    "," + Join(Letters(OfferedChoices(hs, ix)), ",")
  }

  /** One more choice considered: the letters grow by the choice's letter exactly when it is offered. */
  lemma OptionStep(hs: seq<Hunk>, ix: nat, n: nat, c: Choice, added: bool, letter: string, prev: seq<string>, next: seq<string>)
    requires ix < |hs| && n < |ChoiceOrder| && ChoiceOrder[n] == c
    requires added == Offered(hs, ix, c) && letter == Letter(c)
    requires prev == Letters(OfferedAmong(hs, ix, n))
    requires next == prev + (if added then [letter] else [])
    ensures next == Letters(OfferedAmong(hs, ix, n + 1))
  {
    var before := OfferedAmong(hs, ix, n);
    if added {
      assert Letters(before + [c]) == Letters(before) + [Letter(c)];
    } else {
      assert before + [] == before;
    }
  }

  /** One of the two scans of `buildOtherOptions`: is some hunk in `lo .. hi` undecided? */
  method HasUndecided(hunks: seq<Hunk>, lo: nat, hi: nat) returns (b: bool)
    requires hi <= |hunks|
    ensures b == UndecidedIn(hunks, lo, hi)
  {
    var i := lo;
    while i < hi
      invariant lo <= i && (i <= hi || i == lo)
      invariant forall j :: lo <= j < i && j < hi ==> hunks[j].use.Some?
      decreases hi - i
    {
      if hunks[i].use.None? {
        return true;
      }
      i := i + 1;
    }
    return false;
  }

  /** The option list `buildOtherOptions` collects for the hunk at `currentIx`. */
  method CollectOptions(hunks: seq<Hunk>, currentIx: nat) returns (options: seq<string>)
    requires currentIx < |hunks|
    ensures options == Letters(OfferedChoices(hunks, currentIx))
  {
    var hasPrev := HasUndecided(hunks, 0, currentIx);
    var hasNext := HasUndecided(hunks, currentIx + 1, |hunks|);
    options := [];
    ghost var prev := options;
    options := options + (if currentIx > 0 then ["K"] else []);
    OptionStep(hunks, currentIx, 0, PrevAny, currentIx > 0, "K", prev, options);
    prev := options;
    options := options + (if currentIx < |hunks| - 1 then ["J"] else []);
    OptionStep(hunks, currentIx, 1, NextAny, currentIx < |hunks| - 1, "J", prev, options);
    prev := options;
    options := options + (if hasPrev then ["k"] else []);
    OptionStep(hunks, currentIx, 2, PrevUndecided, hasPrev, "k", prev, options);
    prev := options;
    options := options + (if hasNext then ["j"] else []);
    OptionStep(hunks, currentIx, 3, NextUndecided, hasNext, "j", prev, options);
    prev := options;
    options := options + (if |hunks| > 1 then ["g"] else []);
    OptionStep(hunks, currentIx, 4, GotoHunk, |hunks| > 1, "g", prev, options);
    options := AddActionOptions(hunks, currentIx, options);
  }

  /** The second half of the option list: `G`, `A`, `s`, `S`, `e`. */
  method AddActionOptions(hunks: seq<Hunk>, currentIx: nat, navigation: seq<string>) returns (options: seq<string>)
    requires currentIx < |hunks|
    requires navigation == Letters(OfferedAmong(hunks, currentIx, 5))
    ensures options == Letters(OfferedChoices(hunks, currentIx))
  {
    options := navigation;
    ghost var prev := options;
    options := options + ["G"];
    OptionStep(hunks, currentIx, 5, GlobalFilter, true, "G", prev, options);
    prev := options;
    options := options + ["A"];
    OptionStep(hunks, currentIx, 6, AcceptAll, true, "A", prev, options);
    prev := options;
    var splittable := HunkSplittable(hunks[currentIx]);
    options := options + (if splittable then ["s"] else []);
    OptionStep(hunks, currentIx, 7, SplitThis, splittable, "s", prev, options);
    prev := options;
    options := options + ["S"];
    OptionStep(hunks, currentIx, 8, SplitEverything, true, "S", prev, options);
    prev := options;
    options := options + (if hunks[currentIx].kind == Change then ["e"] else []);
    OptionStep(hunks, currentIx, 9, EditThis, hunks[currentIx].kind == Change, "e", prev, options);
  }

  /** `buildOtherOptions`. The list always holds `G`, so its empty-list branch is never taken and is not modelled. */
  method BuildOtherOptions(hunks: seq<Hunk>, currentIx: nat) returns (r: string)
    requires currentIx < |hunks|
    ensures r == OtherOptions(hunks, currentIx)
  {
    var options := CollectOptions(hunks, currentIx);
    r := "," + Join(options, ",");
  }

  // ---------------------------------------------------------------------------
  // Clean-up of a manually edited hunk

  /** An edited line survives unless it is a `#` comment or blank. */
  predicate KeptEditLine(line: string) {
    !HasPrefix(line, "#") && !IsBlank(line)
  }

  /** The surviving lines, in order. */
  function KeptEdit(lines: seq<string>): seq<string> {
    if lines == [] then []
    else KeptEdit(lines[..|lines| - 1]) + (if KeptEditLine(lines[|lines| - 1]) then [lines[|lines| - 1]] else [])
  }

  lemma {:induction false} KeptEditExactly(lines: seq<string>)
    ensures forall l :: l in KeptEdit(lines) <==> l in lines && KeptEditLine(l)
    ensures |KeptEdit(lines)| <= |lines|
    decreases |lines|
  {
    if lines != [] {
      KeptEditExactly(lines[..|lines| - 1]);
      assert lines == lines[..|lines| - 1] + [lines[|lines| - 1]];
    }
  }

  /**
    The hunk `editHunk` builds from the edited file's content: nothing when no
    line survives, otherwise the surviving lines, behind the original header
    line when the first of them is not an `@@` line.
   */
  function EditedHunk(h: Hunk, content: string): Option<Hunk>
    requires Usable(h)
  {
    var kept := KeptEdit(SplitOn(content, '\n'));
    if kept == [] then None
    else if HasPrefix(kept[0], "@@") then Some(Hunk(h.kind, kept, kept, Some(true), true, 0, 0, 0, 0))
    else Some(Hunk(h.kind, [h.text[0]] + kept, [h.display[0]] + kept, Some(true), true, 0, 0, 0, 0))
  }

  /** Every surviving line passes the test, and none survives exactly when none passes. */
  lemma {:induction false} KeptEditLines(lines: seq<string>)
    ensures forall j :: 0 <= j < |KeptEdit(lines)| ==> KeptEditLine(KeptEdit(lines)[j])
    ensures KeptEdit(lines) == [] <==> forall i :: 0 <= i < |lines| ==> !KeptEditLine(lines[i])
    decreases |lines|
  {
    if lines != [] {
      var init := lines[..|lines| - 1];
      KeptEditLines(init);
      assert forall i :: 0 <= i < |init| ==> init[i] == lines[i];
    }
  }

  /**
    The edited hunk is usable, accepted, marked dirty and of the original
    type; it starts with an `@@` line or the original header; every other line
    is a surviving line, and the surviving lines appear in order; plain and
    displayed lines agree after the first. It is missing exactly when no
    line survives.
   */
  lemma EditedHunkMeans(h: Hunk, content: string)
    requires Usable(h)
    ensures var lines, r := SplitOn(content, '\n'), EditedHunk(h, content);
      && (r.None? <==> forall i :: 0 <= i < |lines| ==> !KeptEditLine(lines[i]))
      && (r.Some? ==>
            && Usable(r.value) && r.value.use == Some(true) && r.value.dirty && r.value.kind == h.kind
            && (HasPrefix(r.value.text[0], "@@") || r.value.text[0] == h.text[0])
            && r.value.text[1..] == r.value.display[1..]
            && (forall j :: 1 <= j < |r.value.text| ==> KeptEditLine(r.value.text[j]))
            && (r.value.text == KeptEdit(lines) || r.value.text == [h.text[0]] + KeptEdit(lines)))
  {
    KeptEditLines(SplitOn(content, '\n'));
  }

  /** The line clean-up in `editHunk`. */
  method CleanEditedHunk(h: Hunk, content: string) returns (r: Option<Hunk>)
    requires Usable(h)
    ensures r == EditedHunk(h, content)
  {
    var lines := SplitOn(content, '\n');
    var newText: seq<string> := [];
    var newDisplay: seq<string> := [];
    var i := 0;
    while i < |lines|
      invariant 0 <= i <= |lines|
      invariant newText == newDisplay == KeptEdit(lines[..i])
    {
      assert lines[..i + 1][..i] == lines[..i];
      var line := lines[i];
      TrimSpaceEmpty(line);
      if !HasPrefix(line, "#") && TrimSpace(line) != "" {
        newText := newText + [line];
        newDisplay := newDisplay + [line];
      }
      i := i + 1;
    }
    assert lines[..i] == lines;
    if |newText| == 0 {
      return None;
    }
    if !HasPrefix(newText[0], "@@") {
      newText := [h.text[0]] + newText;
      newDisplay := [h.display[0]] + newDisplay;
    }
    return Some(Hunk(h.kind, newText, newDisplay, Some(true), true, 0, 0, 0, 0));
  }

  // ---------------------------------------------------------------------------
  // Preparing a file's hunks

  /**
    The hunks `patchUpdateFile` prompts for: the parsed hunks after the
    header, auto-split when that is enabled, then filtered by the global
    filter when one is set; nothing when that leaves no hunk.
   */
  function Prelude(re: Regex, hunks: seq<Hunk>, autoSplit: bool, globalFilter: string): Option<seq<Hunk>>
    requires AllUsable(hunks)
  {
    if |hunks| <= 1 then None
    else
      var split := if autoSplit then AutoSplitAll(hunks[1..]) else hunks[1..];
      if globalFilter == "" then Some(split)
      else if Matching(re, globalFilter, split) == [] then None
      else Some(Matching(re, globalFilter, split))
  }

  /**
    Nothing is prompted for a file with no hunk after the header; without a
    global filter every other file is prompted for.
   */
  lemma PreludeEmpty(re: Regex, hunks: seq<Hunk>, autoSplit: bool, globalFilter: string)
    requires AllUsable(hunks)
    ensures |hunks| <= 1 ==> Prelude(re, hunks, autoSplit, globalFilter).None?
    ensures |hunks| > 1 && globalFilter == "" ==> Prelude(re, hunks, autoSplit, globalFilter).Some?
  {
  }

  /**
    The prompted list is never empty and its hunks are usable; with a global
    filter every one of them matches it.
   */
  lemma PreludeMeans(re: Regex, hunks: seq<Hunk>, autoSplit: bool, globalFilter: string)
    requires AllUsable(hunks)
    ensures var r := Prelude(re, hunks, autoSplit, globalFilter);
      && (r.Some? ==> |r.value| > 0 && AllUsable(r.value))
      && (r.Some? && globalFilter != "" ==> AllMatch(re, globalFilter, r.value))
  {
    if |hunks| > 1 {
      var rest := hunks[1..];
      assert AllUsable(rest);
      var split := if autoSplit then AutoSplitAll(rest) else rest;
      assert AllUsable(split) && |split| > 0 by {
        AutoSplitProperties(rest, []);
      }
      if globalFilter != "" {
        MatchingKept(re, globalFilter, split);
        MatchingUsable(re, globalFilter, split);
      }
    }
  }

  /** The kept hunks are hunks of the list that match. */
  lemma MatchingKept(re: Regex, pattern: string, hs: seq<Hunk>)
    ensures var m := Matching(re, pattern, hs);
      (forall k :: 0 <= k < |m| ==> m[k] in hs) && AllMatch(re, pattern, m)
  {
    MatchingExactly(re, pattern, hs);
    var m := Matching(re, pattern, hs);
    assert forall k :: 0 <= k < |m| ==> m[k] in m;
  }

  /** The hunks a global filter keeps are usable. */
  lemma MatchingUsable(re: Regex, pattern: string, hs: seq<Hunk>)
    requires AllUsable(hs)
    ensures AllUsable(Matching(re, pattern, hs))
  {
    MatchingExactly(re, pattern, hs);
    var m := Matching(re, pattern, hs);
    assert forall k :: 0 <= k < |m| ==> m[k] in m;
    assert forall h :: h in hs ==> Usable(h);
  }

  /** The set-up of `patchUpdateFile` before its loop. */
  method PrepareHunks(re: Regex, hunks: seq<Hunk>, autoSplit: bool, globalFilter: string) returns (r: Option<seq<Hunk>>)
    requires AllUsable(hunks)
    ensures r == Prelude(re, hunks, autoSplit, globalFilter)
  {
    if |hunks| == 0 {
      return None;
    }
    var actualHunks := hunks[1..];
    if |actualHunks| == 0 {
      return None;
    }
    assert AllUsable(actualHunks);
    if autoSplit {
      actualHunks := AutoSplitAllHunks(actualHunks);
    }
    if globalFilter != "" {
      var filteredHunks := FilterHunksByRegex(re, actualHunks, globalFilter);
      if |filteredHunks| == 0 {
        return None;
      }
      actualHunks := filteredHunks;
    }
    return Some(actualHunks);
  }
}
