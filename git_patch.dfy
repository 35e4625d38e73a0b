/**
  The hunk model of internal/git/patch.go: the table of patch modes, the
  `Hunk` record, the `@@ -a,b +c,d @@` header codec and the diff parser that
  cuts a unified diff into a file-header pseudo-hunk and its change hunks.
 */
module GitPatch {
  import opened Wrappers
  import opened Strs

  /** One way of running the hunk selection: how to diff, apply and dry-run apply. */
  datatype PatchMode = PatchMode(
    name: string,
    diffCmd: seq<string>,
    applyCmd: seq<string>,
    checkCmd: seq<string>,
    filter: string,
    isReverse: bool)

  /** The nine modes, in the order of the `PatchModes` table of internal/git/patch.go; `LookupMode` is its map lookup. */
  const PatchModes: seq<PatchMode> := [
    PatchMode("stage", ["diff-files", "-p"], ["apply", "--cached"],
              ["apply", "--cached", "--check"], "file-only", false),
    PatchMode("stash", ["diff-index", "-p", "HEAD"], ["apply", "--cached"],
              ["apply", "--cached", "--check"], "", false),
    PatchMode("reset_head", ["diff-index", "-p", "--cached"], ["apply", "-R", "--cached"],
              ["apply", "-R", "--cached", "--check"], "index-only", true),
    PatchMode("reset_nothead", ["diff-index", "-R", "-p", "--cached"], ["apply", "--cached"],
              ["apply", "--cached", "--check"], "index-only", false),
    PatchMode("checkout_index", ["diff-files", "-p"], ["apply", "-R"],
              ["apply", "-R", "--check"], "file-only", true),
    PatchMode("checkout_head", ["diff-index", "-p"], ["apply", "-R"],
              ["apply", "-R", "--check"], "", true),
    PatchMode("checkout_nothead", ["diff-index", "-R", "-p"], ["apply"],
              ["apply", "--check"], "", false),
    PatchMode("worktree_head", ["diff-index", "-p"], ["apply", "-R"],
              ["apply", "-R", "--check"], "", true),
    PatchMode("worktree_nothead", ["diff-index", "-R", "-p"], ["apply"],
              ["apply", "--check"], "", false)
  ]

  /** The mode names, as the keys of that table. */
  function ModeNames(): (names: seq<string>)
    ensures |names| == |PatchModes|
    ensures forall i :: 0 <= i < |PatchModes| ==> names[i] == PatchModes[i].name
  {
    seq(|PatchModes|, i requires 0 <= i < |PatchModes| => PatchModes[i].name)
  }

  predicate IsModeName(name: string) {
    name in ModeNames()
  }

  /** `PatchModes[name]` with its `ok` flag: the first table entry with that name. */
  function LookupMode(name: string): (r: Option<PatchMode>)
    ensures r.Some? <==> IsModeName(name)
    ensures r.Some? ==> r.value in PatchModes && r.value.name == name
  {
    FindMode(PatchModes, name)
  }

  function FindMode(modes: seq<PatchMode>, name: string): (r: Option<PatchMode>)
    ensures r.Some? <==> exists i :: 0 <= i < |modes| && modes[i].name == name
    ensures r.Some? ==> r.value in modes && r.value.name == name
  {
    if modes == [] then None
    else if modes[0].name == name then Some(modes[0])
    else
      var r := FindMode(modes[1..], name);
      assert forall i :: 1 <= i < |modes| ==> modes[i] == modes[1..][i - 1];
      r
  }

  /** One table entry is consistent: it dry-runs by adding `--check` and reverses iff it applies with `-R`. */
  predicate ConsistentMode(m: PatchMode) {
    && m.checkCmd == m.applyCmd + ["--check"]
    && (m.isReverse <==> "-R" in m.applyCmd)
    && (m.filter == "" || m.filter == "file-only" || m.filter == "index-only")
  }

  /** Nine distinct names, every entry consistent. */
  lemma PatchModesConsistent()
    ensures |PatchModes| == 9
    ensures forall i, j :: 0 <= i < j < |PatchModes| ==> PatchModes[i].name != PatchModes[j].name
    ensures forall i :: 0 <= i < |PatchModes| ==> ConsistentMode(PatchModes[i])
  {
    assert ConsistentMode(PatchModes[0]);
    assert ConsistentMode(PatchModes[1]);
    assert ConsistentMode(PatchModes[2]);
    assert ConsistentMode(PatchModes[3]);
    assert ConsistentMode(PatchModes[4]);
    assert ConsistentMode(PatchModes[5]);
    assert ConsistentMode(PatchModes[6]);
    assert ConsistentMode(PatchModes[7]);
    assert ConsistentMode(PatchModes[8]);
  }

  /** `HunkType`: "header", "hunk", "mode", "deletion", "addition". */
  datatype HunkType = FileHeader | Change | ModeChange | Deletion | Addition

  /**
    `Hunk`. `use` is the tri-state decision (None = undecided); `dirty` marks a
    manual edit. Line numbers and counts are naturals (the parser reads them
    from digit strings and the splitter only adds them).
   */
  datatype Hunk = Hunk(
    kind: HunkType,
    text: seq<string>,
    display: seq<string>,
    use: Option<bool>,
    dirty: bool,
    oldLine: nat,
    newLine: nat,
    oldCnt: nat,
    newCnt: nat)
  {
    /** Plain and coloured lines run in parallel. */
    predicate WellFormed() {
      |text| == |display|
    }

    function Range(): HunkRange {
      HunkRange(oldLine, oldCnt, newLine, newCnt)
    }
  }

  /** A hunk as Go's composite literal `Hunk{Type: t, Text: ..., Display: ...}` builds it. */
  function NewHunk(kind: HunkType, text: seq<string>, display: seq<string>): (h: Hunk)
    ensures h.kind == kind && h.text == text && h.display == display
    ensures h.use.None? && !h.dirty && h.Range() == HunkRange(0, 0, 0, 0)
  {
    Hunk(kind, text, display, None, false, 0, 0, 0, 0)
  }

  /** The four numbers of a hunk header. */
  datatype HunkRange = HunkRange(oldLine: nat, oldCnt: nat, newLine: nat, newCnt: nat)

  // ---------------------------------------------------------------------------
  // Header codec

  /** The longest run of decimal digits at the front of `s`, and the rest. */
  function SpanDigits(s: string): (r: (string, string))
    ensures r.0 + r.1 == s
    ensures AllDigits(r.0)
    ensures r.1 == [] || !IsDigit(r.1[0])
  {
    if s != [] && IsDigit(s[0]) then
      var (d, rest) := SpanDigits(s[1..]);
      ([s[0]] + d, rest)
    else ([], s)
  }

  /** The optional group `(?:,(\d+))?` of the header pattern. */
  function SpanCount(s: string): (r: (Option<nat>, string))
  {
    if s != [] && s[0] == ',' then
      var (d, rest) := SpanDigits(s[1..]);
      if d != [] then (Some(DigitsValue(d)), rest) else (None, s)
    else (None, s)
  }

  /** `(\d+)(?:,(\d+))?`: a start line and a count, the count defaulting to 1. */
  function SpanRange(s: string): (r: Option<(nat, nat, string)>)
  {
    var (a, r1) := SpanDigits(s);
    if a == [] then None
    else
      var (b, r2) := SpanCount(r1);
      Some((DigitsValue(a), b.GetOr(1), r2))
  }

  /**
    Matches `^@@ -(\d+)(?:,(\d+))? \+(\d+)(?:,(\d+))? @@` at the start of
    `line`; whatever follows the second `@@` is ignored.
   */
  function ParseHeaderLine(line: string): (r: Option<HunkRange>)
    ensures r.Some? ==> HasPrefix(line, "@@ -")
  {
    if !HasPrefix(line, "@@ -") then None
    else
      match SpanRange(line[4..])
      case None => None
      case Some((ol, oc, r1)) =>
        if !HasPrefix(r1, " +") then None
        else
          match SpanRange(r1[2..])
          case None => None
          case Some((nl, nc, r2)) =>
            if !HasPrefix(r2, " @@") then None
            else Some(HunkRange(ol, oc, nl, nc))
  }

  /** The header line `updateHunkHeader` writes: `,cnt` is left out exactly when cnt is 1. */
  function FormatHeader(r: HunkRange): string
  {
    "@@ -" + NatToString(r.oldLine) + CountSuffix(r.oldCnt)
    + " +" + NatToString(r.newLine) + CountSuffix(r.newCnt) + " @@"
  }

  function CountSuffix(n: nat): string {
    if n != 1 then "," + NatToString(n) else ""
  }

  /** An optional `,digits` group as it appears in a header line. */
  function OptGroup(g: Option<string>): string {
    if g.Some? then "," + g.value else ""
  }

  predicate ValidGroup(g: Option<string>) {
    g.Some? ==> g.value != [] && AllDigits(g.value)
  }

  function GroupValue(g: Option<string>): nat
    requires ValidGroup(g)
  {
    if g.Some? then DigitsValue(g.value) else 1
  }

  lemma {:induction false} SpanDigitsOf(ds: string, rest: string)
    requires AllDigits(ds)
    requires rest == [] || !IsDigit(rest[0])
    ensures SpanDigits(ds + rest) == (ds, rest)
    decreases |ds|
  {
    if ds == [] {
      assert ds + rest == rest;
    } else {
      assert (ds + rest)[0] == ds[0];
      assert (ds + rest)[1..] == ds[1..] + rest;
      SpanDigitsOf(ds[1..], rest);
      assert [ds[0]] + ds[1..] == ds;
    }
  }

  lemma SpanCountOf(g: Option<string>, rest: string)
    requires ValidGroup(g)
    requires rest != [] && rest[0] == ' '
    ensures SpanCount(OptGroup(g) + rest) == (if g.Some? then Some(GroupValue(g)) else None, rest)
  {
    if g.Some? {
      var t := OptGroup(g) + rest;
      assert t[0] == ',' && t[1..] == g.value + rest;
      SpanDigitsOf(g.value, rest);
    } else {
      assert OptGroup(g) + rest == rest;
    }
  }

  lemma SpanRangeSteps(s: string, a: string, t: string, c: Option<nat>, rest: string)
    requires a != [] && SpanDigits(s) == (a, t) && SpanCount(t) == (c, rest)
    ensures SpanRange(s) == Some((DigitsValue(a), c.GetOr(1), rest))
  {
  }

  lemma SpanRangeOf(a: string, g: Option<string>, rest: string)
    requires a != [] && AllDigits(a) && ValidGroup(g)
    requires rest != [] && rest[0] == ' '
    ensures SpanRange(a + (OptGroup(g) + rest)) == Some((DigitsValue(a), GroupValue(g), rest))
  {
    var t := OptGroup(g) + rest;
    var c := if g.Some? then Some(GroupValue(g)) else None;
    assert !IsDigit(t[0]) by {
      if g.Some? { assert t[0] == ','; } else { assert t == rest; }
    }
    SpanDigitsOf(a, t);
    SpanCountOf(g, rest);
    SpanRangeSteps(a + t, a, t, c, rest);
  }

  /** The three steps of `ParseHeaderLine`, one range after each marker. */
  lemma ParseHeaderSteps(x: string, y: string, z: string, r: HunkRange)
    requires SpanRange(x) == Some((r.oldLine, r.oldCnt, " +" + y))
    requires SpanRange(y) == Some((r.newLine, r.newCnt, " @@" + z))
    ensures ParseHeaderLine("@@ -" + x) == Some(r)
  {
    Behind("@@ -", x);
    Behind(" +", y);
    Behind(" @@", z);
  }

  lemma Regroup(p: string, a: string, b: string, q: string, c: string, d: string, e: string, rest: string)
    ensures p + a + b + q + c + d + e + rest == p + (a + (b + (q + (c + (d + (e + rest))))))
  {
  }

  /**
    Every line of the header grammar parses to its numbers, whatever text
    follows the closing `@@`.
   */
  lemma HeaderGrammar(a: string, b: Option<string>, c: string, d: Option<string>, rest: string)
    requires a != [] && AllDigits(a) && c != [] && AllDigits(c)
    requires ValidGroup(b) && ValidGroup(d)
    ensures ParseHeaderLine("@@ -" + a + OptGroup(b) + " +" + c + OptGroup(d) + " @@" + rest)
            == Some(HunkRange(DigitsValue(a), GroupValue(b), DigitsValue(c), GroupValue(d)))
  {
    var y := c + (OptGroup(d) + (" @@" + rest));
    var x := a + (OptGroup(b) + (" +" + y));
    SpanRangeOf(a, b, " +" + y);
    SpanRangeOf(c, d, " @@" + rest);
    ParseHeaderSteps(x, y, rest, HunkRange(DigitsValue(a), GroupValue(b), DigitsValue(c), GroupValue(d)));
    Regroup("@@ -", a, OptGroup(b), " +", c, OptGroup(d), " @@", rest);
  }

  lemma Behind(p: string, s: string)
    ensures HasPrefix(p + s, p) && (p + s)[|p|..] == s
  {
    assert (p + s)[..|p|] == p;
  }

  /** Header round trip: parsing what `updateHunkHeader` writes gives back the four numbers. */
  lemma HeaderRoundTrip(r: HunkRange, rest: string)
    ensures ParseHeaderLine(FormatHeader(r) + rest) == Some(r)
  {
    var b := if r.oldCnt != 1 then Some(NatToString(r.oldCnt)) else None;
    var d := if r.newCnt != 1 then Some(NatToString(r.newCnt)) else None;
    NatToStringValue(r.oldLine);
    NatToStringValue(r.newLine);
    NatToStringValue(r.oldCnt);
    NatToStringValue(r.newCnt);
    assert OptGroup(b) == CountSuffix(r.oldCnt);
    assert OptGroup(d) == CountSuffix(r.newCnt);
    HeaderGrammar(NatToString(r.oldLine), b, NatToString(r.newLine), d, rest);
    assert FormatHeader(r) + rest
        == "@@ -" + NatToString(r.oldLine) + OptGroup(b) + " +" + NatToString(r.newLine) + OptGroup(d) + " @@" + rest;
  }

  /**
    `parseHunkHeader`: fills in the four numbers from the first line. An empty
    hunk and a first line that does not match are errors.
   */
  function ParseHunkHeader(h: Hunk): (r: Result<Hunk>)
    ensures r.Success? <==> |h.text| > 0 && ParseHeaderLine(h.text[0]).Some?
    ensures r.Success? ==>
      r.value == h.(oldLine := r.value.oldLine, oldCnt := r.value.oldCnt,
                    newLine := r.value.newLine, newCnt := r.value.newCnt)
      && Some(r.value.Range()) == ParseHeaderLine(h.text[0])
  {
    if |h.text| == 0 then Failure("empty hunk")
    else
      match ParseHeaderLine(h.text[0])
      case None => Failure("invalid hunk header: " + h.text[0])
      case Some(hr) => Success(h.(oldLine := hr.oldLine, oldCnt := hr.oldCnt,
                                  newLine := hr.newLine, newCnt := hr.newCnt))
  }

  /**
    `updateHunkHeader`: writes the header for the hunk's own numbers over the
    first plain and coloured line, or makes it the only line of an empty hunk.
   */
  function UpdateHunkHeader(h: Hunk): (r: Hunk)
    requires h.WellFormed()
    ensures r.WellFormed()
    ensures r.text != [] && r.text[0] == FormatHeader(h.Range()) && r.display[0] == r.text[0]
    ensures |h.text| > 0 ==> r.text[1..] == h.text[1..] && r.display[1..] == h.display[1..]
    ensures |h.text| == 0 ==> |r.text| == 1
    ensures r == h.(text := r.text, display := r.display)
  {
    var header := FormatHeader(h.Range());
    if |h.text| > 0 then h.(text := h.text[0 := header], display := h.display[0 := header])
    else h.(text := [header], display := [header])
  }

  /** Writing a header and parsing it back leaves the hunk as the header writer saw it. */
  lemma UpdateThenParse(h: Hunk)
    requires h.WellFormed()
    ensures ParseHunkHeader(UpdateHunkHeader(h)) == Success(UpdateHunkHeader(h))
  {
    var u := UpdateHunkHeader(h);
    HeaderRoundTrip(h.Range(), []);
    assert FormatHeader(h.Range()) + [] == u.text[0];
  }

  // ---------------------------------------------------------------------------
  // Diff parser

  /** A line that opens a change hunk. */
  predicate StartsHunk(line: string) {
    HasPrefix(line, "@@ ")
  }

  /** The display line for global index `i`: the coloured line when there is one. */
  function DisplayAt(diffLines: seq<string>, colored: seq<string>, i: nat): string
    requires i < |diffLines|
  {
    if i < |colored| then colored[i] else diffLines[i]
  }

  function DisplayLines(diffLines: seq<string>, colored: seq<string>): (r: seq<string>)
    ensures |r| == |diffLines|
    ensures forall i :: 0 <= i < |diffLines| ==> r[i] == DisplayAt(diffLines, colored, i)
  {
    seq(|diffLines|, i requires 0 <= i < |diffLines| => DisplayAt(diffLines, colored, i))
  }

  /** All plain lines of a hunk list, in order. */
  function Flatten(hs: seq<Hunk>): seq<string>
  {
    if hs == [] then [] else Flatten(hs[..|hs| - 1]) + hs[|hs| - 1].text
  }

  /** All display lines of a hunk list, in order. */
  function FlattenDisplay(hs: seq<Hunk>): seq<string>
  {
    if hs == [] then [] else FlattenDisplay(hs[..|hs| - 1]) + hs[|hs| - 1].display
  }

  lemma FlattenSnoc(hs: seq<Hunk>, h: Hunk)
    ensures Flatten(hs + [h]) == Flatten(hs) + h.text
    ensures FlattenDisplay(hs + [h]) == FlattenDisplay(hs) + h.display
  {
    assert (hs + [h])[..|hs|] == hs;
  }

  lemma {:induction false} FlattenContains(hs: seq<Hunk>, k: nat, j: nat)
    requires k < |hs| && j < |hs[k].text|
    ensures hs[k].text[j] in Flatten(hs)
    decreases |hs|
  {
    if k < |hs| - 1 {
      FlattenContains(hs[..|hs| - 1], k, j);
    }
  }

  lemma {:induction false} FlattenSameText(a: seq<Hunk>, b: seq<Hunk>)
    requires |a| == |b|
    requires forall m :: 0 <= m < |a| ==> a[m].text == b[m].text && a[m].display == b[m].display
    ensures Flatten(a) == Flatten(b) && FlattenDisplay(a) == FlattenDisplay(b)
    decreases |a|
  {
    if a != [] {
      FlattenSameText(a[..|a| - 1], b[..|b| - 1]);
    }
  }

  /**
    The shape `parseHunks` gives each piece before headers are read: a
    non-empty run of lines in which only the first may open a hunk; the first
    piece alone may be the file-header pseudo-hunk.
   */
  predicate Segment(h: Hunk, first: bool) {
    && |h.text| > 0 && h.WellFormed()
    && h.use.None? && !h.dirty
    && (forall j :: 1 <= j < |h.text| ==> !StartsHunk(h.text[j]))
    && (if StartsHunk(h.text[0]) then h.kind == Change else first && h.kind == FileHeader)
  }

  /** A piece as `parseHunks` returns it: a segment whose change header has been read. */
  predicate ParsedHunk(h: Hunk, first: bool) {
    && Segment(h, first)
    && (h.kind == Change ==> ParseHeaderLine(h.text[0]) == Some(h.Range()))
    && (h.kind == FileHeader ==> h.Range() == HunkRange(0, 0, 0, 0))
  }

  /** In a segmented list, a line that opens a hunk is some piece's first line. */
  lemma {:induction false} SegmentStarts(hs: seq<Hunk>, line: string)
    requires forall k :: 0 <= k < |hs| ==> Segment(hs[k], k == 0)
    requires line in Flatten(hs) && StartsHunk(line)
    ensures exists k :: 0 <= k < |hs| && |hs[k].text| > 0 && hs[k].text[0] == line
    decreases |hs|
  {
    var init := hs[..|hs| - 1];
    var last := hs[|hs| - 1];
    if line in Flatten(init) {
      assert forall k :: 0 <= k < |init| ==> init[k] == hs[k];
      SegmentStarts(init, line);
      var k :| 0 <= k < |init| && |init[k].text| > 0 && init[k].text[0] == line;
      assert hs[k].text[0] == line;
    } else {
      assert Segment(last, |hs| - 1 == 0);
      var j :| 0 <= j < |last.text| && last.text[j] == line;
      assert j == 0;
    }
  }

  /**
    The state of the first loop of `parseHunks` after reading `lines` (shown
    as `disp`): the finished pieces and the current one cover the lines read.
   */
  ghost predicate Segmenting(hunks: seq<Hunk>, cur: Hunk, lines: seq<string>, disp: seq<string>) {
    && Flatten(hunks) + cur.text == lines
    && FlattenDisplay(hunks) + cur.display == disp
    && (forall k :: 0 <= k < |hunks| ==> Segment(hunks[k], k == 0) && hunks[k].Range() == HunkRange(0, 0, 0, 0))
    && (lines == [] ==> hunks == [] && cur == NewHunk(FileHeader, [], []))
    && (lines != [] ==> Segment(cur, hunks == []) && cur.Range() == HunkRange(0, 0, 0, 0))
  }

  /** A line that opens a hunk closes the current piece (if any) and starts a new one. */
  lemma SegmentOpens(hunks: seq<Hunk>, cur: Hunk, lines: seq<string>, disp: seq<string>, line: string, displayLine: string)
    requires Segmenting(hunks, cur, lines, disp) && StartsHunk(line)
    ensures var done := if |cur.text| > 0 then hunks + [cur] else hunks;
      Segmenting(done, NewHunk(Change, [line], [displayLine]), lines + [line], disp + [displayLine])
  {
    if |cur.text| > 0 {
      FlattenSnoc(hunks, cur);
      assert (hunks + [cur])[|hunks|] == cur;
    } else {
      assert lines == [];
    }
  }

  /** Any other line is appended to the current piece. */
  lemma SegmentGrows(hunks: seq<Hunk>, cur: Hunk, lines: seq<string>, disp: seq<string>, line: string, displayLine: string)
    requires Segmenting(hunks, cur, lines, disp) && !StartsHunk(line)
    ensures Segmenting(hunks, cur.(text := cur.text + [line], display := cur.display + [displayLine]),
                       lines + [line], disp + [displayLine])
  {
    var next := cur.(text := cur.text + [line], display := cur.display + [displayLine]);
    assert forall j :: 1 <= j < |next.text| ==> next.text[j] == line || next.text[j] == cur.text[j];
  }

  /** At the end of the loop the unfinished piece is closed. */
  lemma SegmentCloses(hunks: seq<Hunk>, cur: Hunk, lines: seq<string>, disp: seq<string>)
    requires Segmenting(hunks, cur, lines, disp)
    ensures var done := if |cur.text| > 0 then hunks + [cur] else hunks;
      && Flatten(done) == lines && FlattenDisplay(done) == disp
      && (forall k :: 0 <= k < |done| ==> Segment(done[k], k == 0) && done[k].Range() == HunkRange(0, 0, 0, 0))
      && (lines == [] ==> done == [])
  {
    if |cur.text| > 0 {
      FlattenSnoc(hunks, cur);
      assert (hunks + [cur])[|hunks|] == cur;
    } else {
      assert cur.display == [];
    }
  }

  /** One turn of the first loop of `parseHunks`, on the line at index `i`. */
  lemma SegmentStep(diffLines: seq<string>, colored: seq<string>, disp: seq<string>, i: nat,
                    hunks: seq<Hunk>, cur: Hunk, hunks': seq<Hunk>, cur': Hunk)
    requires disp == DisplayLines(diffLines, colored) && i < |diffLines|
    requires Segmenting(hunks, cur, diffLines[..i], disp[..i])
    requires StartsHunk(diffLines[i]) ==>
      && hunks' == (if |cur.text| > 0 then hunks + [cur] else hunks)
      && cur' == NewHunk(Change, [diffLines[i]], [DisplayAt(diffLines, colored, i)])
    requires !StartsHunk(diffLines[i]) ==>
      && hunks' == hunks
      && cur' == cur.(text := cur.text + [diffLines[i]], display := cur.display + [DisplayAt(diffLines, colored, i)])
    ensures Segmenting(hunks', cur', diffLines[..i + 1], disp[..i + 1])
  {
    var line, displayLine := diffLines[i], disp[i];
    assert diffLines[..i + 1] == diffLines[..i] + [line];
    assert disp[..i + 1] == disp[..i] + [displayLine];
    if StartsHunk(line) {
      SegmentOpens(hunks, cur, diffLines[..i], disp[..i], line, displayLine);
    } else {
      SegmentGrows(hunks, cur, diffLines[..i], disp[..i], line, displayLine);
    }
  }

  /**
    The first loop of `parseHunks`: start a new piece before every line that
    begins `@@ `; the lines before the first such line form the file-header
    pseudo-hunk; empty pieces are dropped.
   */
  method SegmentDiff(diffLines: seq<string>, colored: seq<string>) returns (hunks: seq<Hunk>)
    ensures Flatten(hunks) == diffLines
    ensures FlattenDisplay(hunks) == DisplayLines(diffLines, colored)
    ensures forall k :: 0 <= k < |hunks| ==> Segment(hunks[k], k == 0) && hunks[k].Range() == HunkRange(0, 0, 0, 0)
    ensures diffLines == [] ==> hunks == []
  {
    hunks := [];
    var cur := NewHunk(FileHeader, [], []);
    ghost var disp := DisplayLines(diffLines, colored);
    var i := 0;
    while i < |diffLines|
      invariant 0 <= i <= |diffLines|
      invariant Segmenting(hunks, cur, diffLines[..i], disp[..i])
    {
      ghost var hunks0, cur0 := hunks, cur;
      var line := diffLines[i];
      var displayLine := line;
      if i < |colored| {
        displayLine := colored[i];
      }
      if StartsHunk(line) {
        if |cur.text| > 0 {
          hunks := hunks + [cur];
        }
        cur := NewHunk(Change, [line], [displayLine]);
      } else {
        cur := cur.(text := cur.text + [line], display := cur.display + [displayLine]);
      }
      SegmentStep(diffLines, colored, disp, i, hunks0, cur0, hunks, cur);
      i := i + 1;
    }
    assert diffLines[..i] == diffLines;
    assert disp[..i] == disp;
    SegmentCloses(hunks, cur, diffLines, disp);
    if |cur.text| > 0 {
      hunks := hunks + [cur];
    }
  }

  /**
    `parseHunks`: cuts the diff into pieces (`SegmentDiff`) and reads each
    change hunk's header. Any unreadable change header fails the whole call.
   */
  method ParseHunks(diffLines: seq<string>, colored: seq<string>) returns (r: Result<seq<Hunk>>)
    ensures r.Success? <==>
      forall line :: line in diffLines && StartsHunk(line) ==> ParseHeaderLine(line).Some?
    ensures r.Success? ==>
      && Flatten(r.value) == diffLines
      && FlattenDisplay(r.value) == DisplayLines(diffLines, colored)
      && (forall k :: 0 <= k < |r.value| ==> ParsedHunk(r.value[k], k == 0))
    ensures r.Success? && diffLines == [] ==> r.value == []
  {
    var hunks := SegmentDiff(diffLines, colored);
    ghost var segs := hunks;
    var k := 0;
    while k < |hunks|
      invariant 0 <= k <= |hunks| == |segs|
      invariant forall m :: 0 <= m < |hunks| ==> hunks[m].text == segs[m].text && hunks[m].display == segs[m].display
      invariant forall m :: k <= m < |hunks| ==> hunks[m] == segs[m]
      invariant forall m :: 0 <= m < k ==> ParsedHunk(hunks[m], m == 0)
    {
      if hunks[k].kind == Change {
        var parsed := ParseHunkHeader(hunks[k]);
        if parsed.Failure? {
          FlattenContains(segs, k, 0);
          return Failure(parsed.error);
        }
        hunks := hunks[k := parsed.value];
      }
      k := k + 1;
    }
    FlattenSameText(hunks, segs);
    forall line | line in diffLines && StartsHunk(line)
      ensures ParseHeaderLine(line).Some?
    {
      SegmentStarts(segs, line);
    }
    r := Success(hunks);
  }
}
