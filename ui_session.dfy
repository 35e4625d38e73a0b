/**
  The per-file command loop of `patchUpdateFile` in internal/ui/patch.go:
  the hunk list with its tri-state decisions, the cursor, the session
  settings it reads and writes, and one command per step. Prompts, the
  editor, `git apply --check` and re-parsing are answers of the outside
  world, passed in as a `World`.
 */
module UiSession {
  import opened Wrappers
  import opened Strs
  import opened GitPatch
  import opened GitSplit
  import opened UiPatch

  /** How one pass through the loop ends. */
  datatype Outcome =
    | Continue        // back to the top of the loop
    | Quit            // `q`: the decided hunks are applied and ErrQuit is returned
    | AcceptAllFiles  // `A`: the file is applied and ErrAcceptAll is returned
    | Done            // the loop is left for applyPatch (end of list, `a`, `d`)
    | ReadFailed      // reading the command failed; the error is returned

  /** The loop's variables: `actualHunks`, `ix`, and the `App` fields `globalFilter` and `autoSplitEnabled`. */
  datatype Session = Session(hunks: seq<Hunk>, ix: nat, globalFilter: string, autoSplit: bool)

  /**
    What the outside world answers during a command: the pattern engine, the
    line a follow-up prompt reads (`None` when reading fails), the content of
    the edited hunk file (or the error of writing it, running the editor or
    reading it back), whether `git apply --check` accepts a patch, and a fresh
    `ParseDiff` of the file.
   */
  datatype World = World(
    re: Regex,
    answer: Option<string>,
    edited: Result<string>,
    applies: string -> bool,
    reparsed: Result<seq<Hunk>>)

  /** The state after a pass, how it ended, and the patch applied on the way, if any. */
  datatype Reply = Reply(next: Session, outcome: Outcome, patch: Option<string>)

  /** A fresh parse is a header followed by usable hunks, as `parseHunks` produces them (`hunks[1:]` needs the header). */
  predicate WorldOk(w: World) {
    w.reparsed.Success? ==> |w.reparsed.value| >= 1 && AllUsable(w.reparsed.value)
  }

  /** Usable hunks and a cursor inside or just past the list. */
  predicate ValidSession(s: Session) {
    AllUsable(s.hunks) && s.ix <= |s.hunks|
  }

  /** A command is read only for an undecided hunk under the cursor. */
  predicate Prompting(s: Session) {
    s.ix < |s.hunks| && s.hunks[s.ix].use.None?
  }

  // ---------------------------------------------------------------------------
  // Cursor movement and bulk decisions

  /** The first undecided hunk at or after `i`, or the end of the list. */
  function UndecidedFrom(hs: seq<Hunk>, i: nat): (r: nat)
    requires i <= |hs|
    ensures i <= r <= |hs|
    ensures r < |hs| ==> hs[r].use.None?
    ensures forall j :: i <= j < r ==> hs[j].use.Some?
    decreases |hs| - i
  {
    if i == |hs| || hs[i].use.None? then i else UndecidedFrom(hs, i + 1)
  }

  /** The last undecided hunk at or before `i`, or 0 when there is none. */
  function UndecidedUpTo(hs: seq<Hunk>, i: int): (r: nat)
    requires -1 <= i < |hs|
    ensures r <= i || r == 0
    ensures (r <= i && hs[r].use.None? && forall j :: r < j <= i ==> hs[j].use.Some?)
         || (r == 0 && forall j :: 0 <= j <= i ==> hs[j].use.Some?)
    decreases i + 1
  {
    if i < 0 then 0 else if hs[i].use.None? then i else UndecidedUpTo(hs, i - 1)
  }

  /** The top of the loop: skip the decided hunks. */
  function Seek(s: Session): Session
    requires s.ix <= |s.hunks|
  {
    s.(ix := UndecidedFrom(s.hunks, s.ix))
  }

  /** `hs` with every still undecided hunk from `from` on decided as `v`. */
  function MarkFrom(hs: seq<Hunk>, from: nat, v: bool): (r: seq<Hunk>)
    ensures |r| == |hs|
  {
    seq(|hs|, i requires 0 <= i < |hs| => if from <= i && hs[i].use.None? then hs[i].(use := Some(v)) else hs[i])
  }

  /**
    Marking leaves the hunks before `from` and every decided hunk alone,
    decides every undecided hunk from `from` on as `v`, and changes nothing
    but the decision.
   */
  lemma MarkFromMeans(hs: seq<Hunk>, from: nat, v: bool)
    ensures var r := MarkFrom(hs, from, v);
      && (forall i :: 0 <= i < |hs| && (i < from || hs[i].use.Some?) ==> r[i] == hs[i])
      && (forall i :: from <= i < |hs| ==> r[i].use.Some?)
      && (forall i :: from <= i < |hs| && hs[i].use.None? ==> r[i].use == Some(v))
      && (forall i :: 0 <= i < |hs| ==> r[i].(use := hs[i].use) == hs[i])
  {
  }

  /** Rejecting the rest of the file adds nothing to what is applied: `q` applies exactly the hunks accepted so far. */
  lemma {:induction false} RejectKeepsAccepted(hs: seq<Hunk>, from: nat)
    ensures Accepted(MarkFrom(hs, from, false)) == Accepted(hs)
    decreases |hs|
  {
    if hs != [] {
      var init := hs[..|hs| - 1];
      var r := MarkFrom(hs, from, false);
      RejectKeepsAccepted(init, from);
      assert r[..|hs| - 1] == MarkFrom(init, from, false);
    }
  }

  /** Accepting everything from 0 leaves out exactly the hunks rejected before. */
  lemma {:induction false} AcceptAllAccepted(hs: seq<Hunk>)
    ensures |Accepted(MarkFrom(hs, 0, true))| == |hs| - |Rejected(hs)|
    decreases |hs|
  {
    if hs != [] {
      var init := hs[..|hs| - 1];
      var last := hs[|hs| - 1];
      MarkFromMeans(hs, 0, true);
      AcceptAllAccepted(init);
      assert MarkFrom(hs, 0, true)[..|hs| - 1] == MarkFrom(init, 0, true);
      assert last.use.Some? && !last.use.value ==> MarkFrom(hs, 0, true)[|hs| - 1].use == Some(false);
      assert last.use.None? || last.use.value ==> MarkFrom(hs, 0, true)[|hs| - 1].use == Some(true);
    }
  }

  /** The hunks decided as not to be applied, in order. */
  function Rejected(hs: seq<Hunk>): (r: seq<Hunk>)
    ensures |r| <= |hs|
  {
    if hs == [] then []
    else Rejected(hs[..|hs| - 1]) + (if hs[|hs| - 1].use == Some(false) then [hs[|hs| - 1]] else [])
  }

  // ---------------------------------------------------------------------------
  // The commands

  /** `S`: auto-splitting is switched on, the whole list is auto-split, and the cursor goes back to the start. */
  function AutoSplitCmd(s: Session): Reply
    requires ValidSession(s)
  {
    Reply(s.(hunks := AutoSplitAll(s.hunks), ix := 0, autoSplit := true), Continue, None)
  }

  /** `A`: every undecided hunk of the file, from the first, is accepted and the file is applied. */
  function AcceptAllCmd(header: Hunk, s: Session): Reply {
    var hs := MarkFrom(s.hunks, 0, true);
    Reply(s.(hunks := hs), AcceptAllFiles, AppliedPatch(header, hs))
  }

  /** `y`/`n`: the current hunk is decided and the cursor moves on by one. */
  function DecideCmd(s: Session, v: bool): Reply
    requires Prompting(s)
  {
    Reply(s.(hunks := s.hunks[s.ix := s.hunks[s.ix].(use := Some(v))], ix := s.ix + 1), Continue, None)
  }

  /** `q`, `a`, `d`: the undecided hunks from the cursor on are decided as `v`, and the file is applied. */
  function BulkCmd(header: Hunk, s: Session, v: bool, o: Outcome): Reply {
    var hs := MarkFrom(s.hunks, s.ix, v);
    Reply(s.(hunks := hs), o, AppliedPatch(header, hs))
  }

  /** `s`: the current hunk makes way for its splits when splitting gives more than one; otherwise nothing changes. */
  function SplitCmd(s: Session): Reply
    requires Prompting(s) && ValidSession(s)
  {
    var h := s.hunks[s.ix];
    if Splits(h) then Reply(s.(hunks := s.hunks[..s.ix] + GitSplit.Split(h) + s.hunks[s.ix + 1..]), Continue, None)
    else Reply(s, Continue, None)
  }

  /**
    `e`: the current hunk is replaced by the cleaned-up edit when something
    survives and `git apply --check` accepts the header with it; an error or a
    rejected edit changes nothing.
   */
  function EditCmd(header: Hunk, s: Session, w: World): Reply
    requires Prompting(s) && ValidSession(s)
  {
    match w.edited
    case Failure(_) => Reply(s, Continue, None)
    case Success(content) =>
      var r := EditedHunk(s.hunks[s.ix], content);
      if r.Some? && w.applies(Reassemble([header, r.value])) then Reply(s.(hunks := s.hunks[s.ix := r.value]), Continue, None)
      else Reply(s, Continue, None)
  }

  /** `j`: to the next undecided hunk after the cursor, or past the end. */
  function NextCmd(s: Session): Reply
    requires Prompting(s)
  {
    Reply(s.(ix := UndecidedFrom(s.hunks, s.ix + 1)), Continue, None)
  }

  /** `k`: to the previous undecided hunk before the cursor, or to the first hunk. */
  function PrevCmd(s: Session): Reply
    requires Prompting(s)
  {
    Reply(s.(ix := UndecidedUpTo(s.hunks, s.ix - 1)), Continue, None)
  }

  /** The condition under which a `g` command takes the global-filter branch. */
  predicate GlobalFilterForm(line: string) {
    ToUpper(line) == "G" || (|line| > 1 && ToUpper(line)[0..1] == "G")
  }

  /**
    `g` and `G`: the pattern is the rest of the command, or when that is empty
    the answer to a follow-up prompt. An empty pattern clears the filter and
    takes the freshly parsed hunks; a pattern is stored as the filter even when
    no hunk matches it, and replaces the list by the matching hunks otherwise.
   */
  function GlobalFilterCmd(s: Session, line: string, w: World): Reply
    requires |line| > 0 && WorldOk(w)
  {
    var typed := TrimSpace(line[1..]);
    if typed == "" && w.answer.None? then Reply(s, Continue, None)
    else
      var pattern := if typed == "" then TrimSpace(w.answer.value) else typed;
      if pattern == "" then
        match w.reparsed
        case Failure(_) => Reply(s.(globalFilter := ""), Continue, None)
        case Success(parsed) => Reply(s.(globalFilter := "", hunks := parsed[1..], ix := 0), Continue, None)
      else if Matching(w.re, pattern, s.hunks) == [] then Reply(s.(globalFilter := pattern), Continue, None)
      else Reply(s.(globalFilter := pattern, hunks := Matching(w.re, pattern, s.hunks), ix := 0), Continue, None)
  }

  /** `/`: the cursor moves to the next matching hunk, wrapping around; a failed read or an empty pattern changes nothing. */
  function SearchCmd(s: Session, w: World): Reply
    requires Prompting(s)
  {
    match w.answer
    case None => Reply(s, Continue, None)
    case Some(a) =>
      var pattern := TrimSpace(a);
      if pattern == "" then Reply(s, Continue, None)
      else Reply(s.(ix := SearchTarget(w.re, pattern, s.hunks, s.ix)), Continue, None)
  }

  /**
    The dispatch of a non-empty command: `S` and `A` are tested on the first
    character as typed, every other command on the first character lowercased.
    `?` and unknown keys only print help.
   */
  function Command(header: Hunk, s: Session, line: string, w: World): Reply
    requires Prompting(s) && ValidSession(s) && |line| > 0 && WorldOk(w)
  {
    if line[0] == 'S' then AutoSplitCmd(s)
    else if line[0] == 'A' then AcceptAllCmd(header, s)
    else
      var c := ToLower(line)[0];
      if c == 'y' then DecideCmd(s, true)
      else if c == 'n' then DecideCmd(s, false)
      else if c == 'q' then BulkCmd(header, s, false, Quit)
      else if c == 'a' then BulkCmd(header, s, true, Done)
      else if c == 'd' then BulkCmd(header, s, false, Done)
      else if c == 's' then SplitCmd(s)
      else if c == 'e' then EditCmd(header, s, w)
      else if c == 'j' then NextCmd(s)
      else if c == 'k' then PrevCmd(s)
      else if c == 'g' then GlobalFilterCmd(s, line, w)
      else if c == '/' then SearchCmd(s, w)
      else Reply(s, Continue, None)
  }

  /**
    One pass through the loop from its top: decided hunks are skipped; past
    the end the file is applied; otherwise a line is read, trimmed of white
    space as `promptSingleChar` does, and carried out (an empty line does
    nothing).
   */
  function Iteration(header: Hunk, s: Session, input: Option<string>, w: World): Reply
    requires ValidSession(s) && WorldOk(w)
  {
    var t := Seek(s);
    if t.ix >= |t.hunks| then Reply(t, Done, AppliedPatch(header, t.hunks))
    else
      match input
      case None => Reply(t, ReadFailed, None)
      case Some(raw) =>
        var line := TrimSpace(raw);
        if line == "" then Reply(t, Continue, None) else Command(header, t, line, w)
  }

  // ---------------------------------------------------------------------------
  // What the commands promise

  /** A command is only ever read with the cursor on an undecided hunk; the hunks skipped on the way are decided. */
  lemma SeekPrompts(s: Session)
    requires ValidSession(s)
    ensures var t := Seek(s);
      && t.hunks == s.hunks && s.ix <= t.ix <= |s.hunks|
      && (t.ix < |t.hunks| ==> Prompting(t))
      && (forall j :: s.ix <= j < t.ix ==> s.hunks[j].use.Some?)
  {
  }

  /** A list made of usable pieces is usable. */
  lemma UsableSplice(a: seq<Hunk>, b: seq<Hunk>, c: seq<Hunk>)
    requires AllUsable(a) && AllUsable(b) && AllUsable(c)
    ensures AllUsable(a + b + c)
  {
    assert forall k :: 0 <= k < |a + b + c| ==> (a + b + c)[k] in a || (a + b + c)[k] in b || (a + b + c)[k] in c;
    assert forall h :: (h in a || h in b || h in c) ==> Usable(h);
  }

  /** The splits that replace a hunk are usable. */
  lemma SplitUsable(h: Hunk)
    requires h.WellFormed() && Splittable(h)
    ensures AllUsable(GitSplit.Split(h))
  {
    SplitHeaders(h);
  }

  /** A non-empty command other than `S` and `A`, dispatched on its lowercased first character `c`. */
  predicate Plain(line: string, c: char)
    requires |line| > 0
  {
    line[0] != 'S' && line[0] != 'A' && ToLower(line)[0] == c
  }

  /** The dispatch of `Command`, one command at a time. */
  lemma CommandCases(header: Hunk, s: Session, line: string, w: World)
    requires Prompting(s) && ValidSession(s) && |line| > 0 && WorldOk(w)
    ensures line[0] == 'S' ==> Command(header, s, line, w) == AutoSplitCmd(s)
    ensures line[0] == 'A' ==> Command(header, s, line, w) == AcceptAllCmd(header, s)
    ensures Plain(line, 'y') ==> Command(header, s, line, w) == DecideCmd(s, true)
    ensures Plain(line, 'n') ==> Command(header, s, line, w) == DecideCmd(s, false)
    ensures Plain(line, 'q') ==> Command(header, s, line, w) == BulkCmd(header, s, false, Quit)
    ensures Plain(line, 'a') ==> Command(header, s, line, w) == BulkCmd(header, s, true, Done)
    ensures Plain(line, 'd') ==> Command(header, s, line, w) == BulkCmd(header, s, false, Done)
    ensures Plain(line, 's') ==> Command(header, s, line, w) == SplitCmd(s)
    ensures Plain(line, 'e') ==> Command(header, s, line, w) == EditCmd(header, s, w)
    ensures Plain(line, 'j') ==> Command(header, s, line, w) == NextCmd(s)
    ensures Plain(line, 'k') ==> Command(header, s, line, w) == PrevCmd(s)
    ensures Plain(line, 'g') ==> Command(header, s, line, w) == GlobalFilterCmd(s, line, w)
    ensures Plain(line, '/') ==> Command(header, s, line, w) == SearchCmd(s, w)
    ensures line[0] != 'S' && line[0] != 'A' && ToLower(line)[0] !in "ynqadsejkg/" ==> Command(header, s, line, w) == Reply(s, Continue, None)
  {
  }

  /** Auto-splitting keeps every hunk usable. */
  lemma AutoSplitKeepsValid(s: Session)
    requires ValidSession(s)
    ensures ValidSession(AutoSplitCmd(s).next)
  {
    AutoSplitProperties(s.hunks, []);
  }

  /** Deciding hunks changes only their `use`, so they stay usable. */
  lemma MarkKeepsUsable(hs: seq<Hunk>, from: nat, v: bool)
    requires AllUsable(hs)
    ensures AllUsable(MarkFrom(hs, from, v))
  {
    MarkFromMeans(hs, from, v);
  }

  /** Deciding the current hunk keeps the session valid. */
  lemma DecideKeepsValid(s: Session, v: bool)
    requires Prompting(s) && ValidSession(s)
    ensures ValidSession(DecideCmd(s, v).next)
  {
  }

  /** Splitting the current hunk keeps the session valid. */
  lemma SplitKeepsValid(s: Session)
    requires Prompting(s) && ValidSession(s)
    ensures ValidSession(SplitCmd(s).next)
  {
    var hs, ix := s.hunks, s.ix;
    if Splits(hs[ix]) {
      SplitUsable(hs[ix]);
      assert AllUsable(hs[..ix]) && AllUsable(hs[ix + 1..]);
      UsableSplice(hs[..ix], GitSplit.Split(hs[ix]), hs[ix + 1..]);
    }
  }

  /** An edit keeps the session valid. */
  lemma EditKeepsValid(header: Hunk, s: Session, w: World)
    requires Prompting(s) && ValidSession(s)
    ensures ValidSession(EditCmd(header, s, w).next)
  {
    if w.edited.Success? {
      EditedHunkMeans(s.hunks[s.ix], w.edited.value);
    }
  }

  /** Setting or clearing the global filter keeps the session valid. */
  lemma GlobalFilterKeepsValid(s: Session, line: string, w: World)
    requires ValidSession(s) && |line| > 0 && WorldOk(w)
    ensures ValidSession(GlobalFilterCmd(s, line, w).next)
  {
    var typed := TrimSpace(line[1..]);
    if !(typed == "" && w.answer.None?) {
      var pattern := if typed == "" then TrimSpace(w.answer.value) else typed;
      MatchingUsable(w.re, pattern, s.hunks);
      if pattern == "" && w.reparsed.Success? {
        assert AllUsable(w.reparsed.value[1..]);
      }
    }
  }

  /** A search keeps the session valid. */
  lemma SearchKeepsValid(s: Session, w: World)
    requires Prompting(s) && ValidSession(s)
    ensures ValidSession(SearchCmd(s, w).next)
  {
    if w.answer.Some? && TrimSpace(w.answer.value) != "" {
      SearchTargetMeans(w.re, TrimSpace(w.answer.value), s.hunks, s.ix);
    }
  }

  /** Every command keeps the hunks usable and the cursor within bounds. */
  lemma CommandKeepsValid(header: Hunk, s: Session, line: string, w: World)
    requires Prompting(s) && ValidSession(s) && |line| > 0 && WorldOk(w)
    ensures ValidSession(Command(header, s, line, w).next)
  {
    CommandCases(header, s, line, w);
    AutoSplitKeepsValid(s);
    MarkKeepsUsable(s.hunks, 0, true);
    MarkKeepsUsable(s.hunks, s.ix, true);
    MarkKeepsUsable(s.hunks, s.ix, false);
    DecideKeepsValid(s, true);
    DecideKeepsValid(s, false);
    SplitKeepsValid(s);
    EditKeepsValid(header, s, w);
    GlobalFilterKeepsValid(s, line, w);
    SearchKeepsValid(s, w);
  }

  /** A pass through the loop keeps the session valid. */
  lemma IterationKeepsValid(header: Hunk, s: Session, input: Option<string>, w: World)
    requires ValidSession(s) && WorldOk(w)
    ensures ValidSession(Iteration(header, s, input, w).next)
  {
    var t := Seek(s);
    if t.ix < |t.hunks| && input.Some? && TrimSpace(input.value) != "" {
      CommandKeepsValid(header, t, TrimSpace(input.value), w);
    }
  }

  /**
    Only `S` changes the auto-split flag, and only ever to on; only `g` and
    `G` change the global filter.
   */
  lemma IterationSettings(header: Hunk, s: Session, input: Option<string>, w: World)
    requires ValidSession(s) && WorldOk(w)
    ensures var r := Iteration(header, s, input, w);
      && (s.autoSplit ==> r.next.autoSplit)
      && (r.next.autoSplit != s.autoSplit ==>
            input.Some? && |TrimSpace(input.value)| > 0 && TrimSpace(input.value)[0] == 'S')
      && (r.next.globalFilter != s.globalFilter ==>
            input.Some? && |TrimSpace(input.value)| > 0 && Plain(TrimSpace(input.value), 'g'))
  {
    var t := Seek(s);
    if t.ix < |t.hunks| && input.Some? && TrimSpace(input.value) != "" {
      CommandCases(header, t, TrimSpace(input.value), w);
    }
  }

  // ---------------------------------------------------------------------------
  // The loop until it ends

  /**
    The input of one pass: the command line the prompt reads, a whole
    `\n`-terminated line or `None` when reading fails, and the outside
    world's answers during that pass.
   */
  datatype Turn = Turn(input: Option<string>, w: World)

  /** Every world of the input answers as `WorldOk` says. */
  predicate TurnsOk(turns: seq<Turn>) {
    forall i :: 0 <= i < |turns| ==> WorldOk(turns[i].w)
  }

  /** The world of a pass after the input is used up; its read fails, so nothing is asked of it. */
  const NoAnswers := World(Regex(p => false, (p, t) => false), None, Failure("EOF"), patch => false, Failure("EOF"))

  /** How the loop of a file ends: its last state, the outcome, the patch applied, and the input left unread. */
  datatype Finish = Finish(last: Session, outcome: Outcome, patch: Option<string>, rest: seq<Turn>)

  /**
    The loop of `patchUpdateFile` from `s` until a pass ends it. A pass that
    reads a command takes the next turn; a pass that finds no undecided hunk
    left reads nothing; once the input is used up every read fails.
   */
  function Loop(header: Hunk, s: Session, turns: seq<Turn>): (f: Finish)
    requires ValidSession(s) && TurnsOk(turns)
    ensures f.outcome != Continue && ValidSession(f.last)
    ensures |f.rest| <= |turns| && f.rest == turns[|turns| - |f.rest|..]
    ensures s.autoSplit ==> f.last.autoSplit
    decreases |turns|
  {
    if turns == [] then
      var r := Iteration(header, s, None, NoAnswers);
      IterationKeepsValid(header, s, None, NoAnswers);
      Finish(r.next, r.outcome, r.patch, [])
    else
      var r := Iteration(header, s, turns[0].input, turns[0].w);
      IterationKeepsValid(header, s, turns[0].input, turns[0].w);
      IterationSettings(header, s, turns[0].input, turns[0].w);
      if r.outcome != Continue then
        Finish(r.next, r.outcome, r.patch, if Seek(s).ix >= |s.hunks| then turns else turns[1..])
      else
        Loop(header, r.next, turns[1..])
  }

  /**
    `y`/`Y` and `n`/`N` decide the current hunk (true for `y`, false for
    `n`), move the cursor on by one and change nothing else.
   */
  lemma DecideCommand(header: Hunk, s: Session, line: string, w: World)
    requires Prompting(s) && ValidSession(s) && |line| > 0 && WorldOk(w)
    requires ToLowerChar(line[0]) == 'y' || ToLowerChar(line[0]) == 'n'
    ensures var r, v := Command(header, s, line, w), ToLowerChar(line[0]) == 'y';
      && r.outcome == Continue && r.patch == None
      && r.next.ix == s.ix + 1 && |r.next.hunks| == |s.hunks|
      && r.next.hunks[s.ix] == s.hunks[s.ix].(use := Some(v))
      && (forall i :: 0 <= i < |s.hunks| && i != s.ix ==> r.next.hunks[i] == s.hunks[i])
      && r.next.globalFilter == s.globalFilter && r.next.autoSplit == s.autoSplit
  {
  }

  /**
    `q`, `a` and `d` (either case, except `A`) decide the undecided hunks from
    the cursor on, reject for `q` and `d` and accept for `a`, and apply the
    header with exactly the accepted hunks; `q` quits, the others end the
    file. `q` applies exactly what was accepted before it.
   */
  lemma BulkCommand(header: Hunk, s: Session, line: string, w: World)
    requires Prompting(s) && ValidSession(s) && |line| > 0 && WorldOk(w) && line[0] != 'A'
    requires ToLowerChar(line[0]) == 'q' || ToLowerChar(line[0]) == 'a' || ToLowerChar(line[0]) == 'd'
    ensures var r, c := Command(header, s, line, w), ToLowerChar(line[0]);
      && r.next.hunks == MarkFrom(s.hunks, s.ix, c == 'a')
      && r.next.ix == s.ix
      && r.outcome == (if c == 'q' then Quit else Done)
      && r.patch == AppliedPatch(header, r.next.hunks)
      && (c == 'q' ==> Accepted(r.next.hunks) == Accepted(s.hunks))
  {
    RejectKeepsAccepted(s.hunks, s.ix);
  }

  /**
    The commands tested case-sensitively: `S` auto-splits the whole list and
    switches auto-splitting on, while `s` splits only the current hunk; `A`
    accepts every undecided hunk from the first one and signals all files,
    while `a` accepts from the cursor and ends only this file.
   */
  lemma CaseSensitiveCommands(header: Hunk, s: Session, w: World)
    requires Prompting(s) && ValidSession(s) && WorldOk(w)
    ensures Command(header, s, "S", w) == Reply(s.(hunks := AutoSplitAll(s.hunks), ix := 0, autoSplit := true), Continue, None)
    ensures Command(header, s, "s", w) == SplitCmd(s)
    ensures Command(header, s, "A", w).next.hunks == MarkFrom(s.hunks, 0, true)
    ensures Command(header, s, "A", w).outcome == AcceptAllFiles
    ensures Command(header, s, "a", w).next.hunks == MarkFrom(s.hunks, s.ix, true)
    ensures Command(header, s, "a", w).outcome == Done
  {
    assert "S"[0] == 'S' && "s"[0] == 's' && "A"[0] == 'A' && "a"[0] == 'a';
    assert ToLower("s")[0] == 's' && ToLower("a")[0] == 'a';
  }

  /**
    `s` replaces the current hunk by its pieces, in place and with the cursor
    on the first piece, when splitting gives more than one; otherwise the
    list stays as it is.
   */
  lemma SplitCommand(s: Session)
    requires Prompting(s) && ValidSession(s)
    ensures var r, h := SplitCmd(s), s.hunks[s.ix];
      && r.next.ix == s.ix && r.outcome == Continue
      && (Splits(h) ==>
            && r.next.hunks[..s.ix] == s.hunks[..s.ix]
            && r.next.hunks[s.ix..s.ix + |GitSplit.Split(h)|] == GitSplit.Split(h)
            && r.next.hunks[s.ix + |GitSplit.Split(h)|..] == s.hunks[s.ix + 1..]
            && |r.next.hunks| == |s.hunks| + |GitSplit.Split(h)| - 1)
      && (!Splits(h) ==> r.next == s)
  {
    var h := s.hunks[s.ix];
    if Splits(h) {
      Parts(s.hunks[..s.ix], GitSplit.Split(h), s.hunks[s.ix + 1..]);
    }
  }

  /** `j` and `k` move to the nearest undecided hunk after or before the cursor; `j` may run past the end, `k` stops at the first hunk. */
  lemma NavigateCommands(s: Session)
    requires Prompting(s)
    ensures var j := NextCmd(s).next.ix;
      && s.ix < j <= |s.hunks| && (j < |s.hunks| ==> s.hunks[j].use.None?)
      && (forall i :: s.ix < i < j ==> s.hunks[i].use.Some?)
    ensures var k := PrevCmd(s).next.ix;
      && k <= s.ix
      && ((k < s.ix && s.hunks[k].use.None? && forall i :: k < i < s.ix ==> s.hunks[i].use.Some?)
          || (k == 0 && forall i :: 0 <= i < s.ix ==> s.hunks[i].use.Some?))
    ensures NextCmd(s).next.hunks == s.hunks && PrevCmd(s).next.hunks == s.hunks
  {
  }

  /**
    Every command whose first character lowercases to `g` takes the
    global-filter branch: the goto-hunk branch behind it is unreachable.
   */
  lemma GotoIsUnreachable(line: string)
    requires |line| > 0 && ToLowerChar(line[0]) == 'g'
    ensures GlobalFilterForm(line)
  {
    assert ToUpperChar(line[0]) == 'G';
    if |line| == 1 {
      assert ToUpper(line) == ['G'];
    } else {
      assert ToUpper(line)[0..1] == ['G'];
    }
  }

  /**
    A global filter typed with the command is stored whether or not it
    matches; when nothing matches the list and cursor stay, otherwise the list
    becomes exactly the matching hunks, in order, with the cursor at the start.
   */
  lemma GlobalFilterCommand(s: Session, line: string, w: World)
    requires |line| > 0 && WorldOk(w) && TrimSpace(line[1..]) != ""
    ensures var r, p := GlobalFilterCmd(s, line, w), TrimSpace(line[1..]);
      && r.next.globalFilter == p && r.outcome == Continue
      && (Matching(w.re, p, s.hunks) == [] ==> r.next.hunks == s.hunks && r.next.ix == s.ix)
      && (Matching(w.re, p, s.hunks) != [] ==> r.next.hunks == Matching(w.re, p, s.hunks) && r.next.ix == 0)
  {
  }

  /** An empty pattern clears the global filter, and a fresh parse replaces the list by its hunks after the header. */
  lemma ClearFilterCommand(s: Session, line: string, w: World)
    requires |line| > 0 && WorldOk(w) && TrimSpace(line[1..]) == "" && w.answer.Some? && TrimSpace(w.answer.value) == ""
    ensures var r := GlobalFilterCmd(s, line, w);
      && r.next.globalFilter == ""
      && (w.reparsed.Success? ==> r.next.hunks == w.reparsed.value[1..] && r.next.ix == 0)
      && (w.reparsed.Failure? ==> r.next.hunks == s.hunks && r.next.ix == s.ix)
  {
  }

  /** `/` with a pattern lands on a matching hunk whenever one exists, searching forward from the cursor and wrapping around. */
  lemma SearchCommand(s: Session, w: World)
    requires Prompting(s) && w.answer.Some? && TrimSpace(w.answer.value) != ""
    ensures var r, p := SearchCmd(s, w), TrimSpace(w.answer.value);
      && r.next.hunks == s.hunks && r.next.ix < |s.hunks|
      && ((exists j :: 0 <= j < |s.hunks| && Matches(w.re, p, s.hunks[j])) <==> Matches(w.re, p, s.hunks[r.next.ix]))
      && (r.next.ix > s.ix ==> forall j :: s.ix < j < r.next.ix ==> !Matches(w.re, p, s.hunks[j]))
  {
    SearchTargetMeans(w.re, TrimSpace(w.answer.value), s.hunks, s.ix);
  }

  /**
    An accepted edit replaces just the current hunk, by a usable, accepted
    hunk, so the next pass moves past it.
   */
  lemma EditCommand(header: Hunk, s: Session, w: World)
    requires Prompting(s) && ValidSession(s) && w.edited.Success?
    ensures var r := EditCmd(header, s, w);
      && |r.next.hunks| == |s.hunks| && r.next.ix == s.ix
      && (forall i :: 0 <= i < |s.hunks| && i != s.ix ==> r.next.hunks[i] == s.hunks[i])
      && (r.next.hunks[s.ix] == s.hunks[s.ix] || (Usable(r.next.hunks[s.ix]) && r.next.hunks[s.ix].use == Some(true)))
      && (r.next.hunks[s.ix] != s.hunks[s.ix] ==> Seek(r.next).ix > s.ix)
  {
    EditedHunkMeans(s.hunks[s.ix], w.edited.value);
  }

  // ---------------------------------------------------------------------------
  // The loop's state

  /** The loop of `patchUpdateFile` over one file's hunks. */
  class PatchSession {
    /** `hunks[0]`: the file header every applied patch starts with. */
    const header: Hunk
    /** `actualHunks` */
    var hunks: seq<Hunk>
    var ix: nat
    var globalFilter: string
    var autoSplit: bool

    function State(): Session
      reads this
    {
      Session(hunks, ix, globalFilter, autoSplit)
    }

    ghost predicate Valid()
      reads this
    {
      ValidSession(State())
    }

    /** The loop starts at the first hunk of the prepared list. */
    constructor (header: Hunk, hunks: seq<Hunk>, globalFilter: string, autoSplit: bool)
      requires AllUsable(hunks)
      ensures Valid() && this.header == header
      ensures State() == Session(hunks, 0, globalFilter, autoSplit)
    {
      this.header := header;
      this.hunks := hunks;
      this.ix := 0;
      this.globalFilter := globalFilter;
      this.autoSplit := autoSplit;
    }

    /** The skip at the top of the loop. */
    method Skip()
      requires ix <= |hunks|
      modifies this
      ensures State() == Seek(old(State()))
    {
      var i := ix;
      while i < |hunks| && hunks[i].use.Some?
        invariant ix <= i <= |hunks|
        invariant UndecidedFrom(hunks, i) == UndecidedFrom(hunks, ix)
        decreases |hunks| - i
      {
        i := i + 1;
      }
      ix := i;
    }

    /** One of the bulk loops: every undecided hunk from `from` on is decided as `v`. */
    method MarkUndecided(from: nat, v: bool)
      modifies this
      ensures State() == old(State()).(hunks := MarkFrom(old(hunks), from, v))
    {
      var hs := hunks;
      var i := from;
      while i < |hs|
        invariant |hs| == |hunks|
        invariant forall j :: 0 <= j < |hs| ==> hs[j] == if from <= j < i && hunks[j].use.None? then hunks[j].(use := Some(v)) else hunks[j]
        decreases |hs| - i
      {
        if hs[i].use.None? {
          hs := hs[i := hs[i].(use := Some(v))];
        }
        i := i + 1;
      }
      hunks := hs;
    }

    /** `s` */
    method SplitCurrent()
      requires Prompting(State()) && Valid()
      modifies this
      ensures State() == SplitCmd(old(State())).next
    {
      var hunk := hunks[ix];
      var splittable := HunkSplittable(hunk);
      if !splittable {
        return;
      }
      var splits := SplitHunk(hunk);
      if |splits| > 1 {
        hunks := Splice(hunks, ix, splits);
      }
    }

    /** `e` */
    method EditCurrent(w: World)
      requires Prompting(State()) && Valid()
      modifies this
      ensures State() == EditCmd(header, old(State()), w).next
    {
      if w.edited.Failure? {
        return;
      }
      var newHunk := CleanEditedHunk(hunks[ix], w.edited.value);
      if newHunk.None? {
        return;
      }
      var patchData := ReassemblePatch([header, newHunk.value]);
      if !w.applies(patchData) {
        return;
      }
      hunks := hunks[ix := newHunk.value];
    }

    /** `g`/`G` */
    method SetGlobalFilter(line: string, w: World)
      requires |line| > 0 && WorldOk(w)
      modifies this
      ensures State() == GlobalFilterCmd(old(State()), line, w).next
    {
      var regexStr := TrimSpace(line[1..]);
      if regexStr == "" {
        if w.answer.None? {
          return;
        }
        regexStr := TrimSpace(w.answer.value);
      }
      if regexStr == "" {
        globalFilter := "";
        if w.reparsed.Failure? {
          return;
        }
        hunks := w.reparsed.value[1..];
        ix := 0;
        return;
      }
      globalFilter := regexStr;
      var filteredHunks := FilterHunksByRegex(w.re, hunks, regexStr);
      if |filteredHunks| == 0 {
        return;
      }
      hunks := filteredHunks;
      ix := 0;
    }

    /** `/` */
    method Search(w: World)
      requires Prompting(State())
      modifies this
      ensures State() == SearchCmd(old(State()), w).next
    {
      if w.answer.None? {
        return;
      }
      var regexStr := TrimSpace(w.answer.value);
      if regexStr == "" {
        return;
      }
      ix := SearchHunks(w.re, hunks, ix, regexStr);
    }

    /** `j` */
    method MoveNext()
      requires Prompting(State())
      modifies this
      ensures State() == NextCmd(old(State())).next
    {
      var i := ix + 1;
      while i < |hunks| && hunks[i].use.Some?
        invariant ix + 1 <= i <= |hunks|
        invariant UndecidedFrom(hunks, i) == UndecidedFrom(hunks, ix + 1)
        decreases |hunks| - i
      {
        i := i + 1;
      }
      ix := i;
    }

    /** `k` */
    method MovePrev()
      requires Prompting(State())
      modifies this
      ensures State() == PrevCmd(old(State())).next
    {
      var i: int := ix - 1;
      while i >= 0 && hunks[i].use.Some?
        invariant -1 <= i < ix
        invariant UndecidedUpTo(hunks, i) == UndecidedUpTo(hunks, ix - 1)
        decreases i + 1
      {
        i := i - 1;
      }
      if i < 0 {
        i := 0;
      }
      ix := i;
    }

    /** A non-empty command read for the hunk under the cursor. */
    method Execute(line: string, w: World) returns (outcome: Outcome, patch: Option<string>)
      requires Prompting(State()) && Valid() && |line| > 0 && WorldOk(w)
      modifies this
      ensures Reply(State(), outcome, patch) == Command(header, old(State()), line, w)
    {
      if line[0] == 'S' || line[0] == 'A' {
        outcome, patch := Uppercase(line, w);
      } else {
        outcome, patch := Decide(line, w);
      }
    }

    /** The upper-case commands, checked first: `S` auto-splits every hunk, `A` accepts everything. */
    method Uppercase(line: string, w: World) returns (outcome: Outcome, patch: Option<string>)
      requires Prompting(State()) && Valid() && |line| > 0 && WorldOk(w)
      requires line[0] == 'S' || line[0] == 'A'
      modifies this
      ensures Reply(State(), outcome, patch) == Command(header, old(State()), line, w)
    {
      CommandCases(header, State(), line, w);
      if line[0] == 'S' {
        autoSplit := true;
        hunks := AutoSplitAllHunks(hunks);
        ix := 0;
        return Continue, None;
      }
      MarkUndecided(0, true);
      patch := SelectAndAssemble(header, hunks);
      return AcceptAllFiles, patch;
    }

    /** The commands that decide the current hunk, or the rest of the file. */
    method Decide(line: string, w: World) returns (outcome: Outcome, patch: Option<string>)
      requires Prompting(State()) && Valid() && |line| > 0 && WorldOk(w)
      requires line[0] != 'S' && line[0] != 'A'
      modifies this
      ensures Reply(State(), outcome, patch) == Command(header, old(State()), line, w)
    {
      CommandCases(header, State(), line, w);
      var c := ToLower(line)[0];
      if c == 'y' {
        hunks := hunks[ix := hunks[ix].(use := Some(true))];
        ix := ix + 1;
        return Continue, None;
      } else if c == 'n' {
        hunks := hunks[ix := hunks[ix].(use := Some(false))];
        ix := ix + 1;
        return Continue, None;
      } else if c == 'q' {
        MarkUndecided(ix, false);
        patch := SelectAndAssemble(header, hunks);
        return Quit, patch;
      } else if c == 'a' || c == 'd' {
        MarkUndecided(ix, c == 'a');
        patch := SelectAndAssemble(header, hunks);
        return Done, patch;
      }
      outcome, patch := Rework(line, w);
    }

    /** The commands that rework the list or move the cursor without deciding a hunk. */
    method Rework(line: string, w: World) returns (outcome: Outcome, patch: Option<string>)
      requires Prompting(State()) && Valid() && |line| > 0 && WorldOk(w)
      requires line[0] != 'S' && line[0] != 'A' && ToLower(line)[0] !in "ynqad"
      modifies this
      ensures Reply(State(), outcome, patch) == Command(header, old(State()), line, w)
    {
      CommandCases(header, State(), line, w);
      var c := ToLower(line)[0];
      if c == 's' {
        SplitCurrent();
      } else if c == 'e' {
        EditCurrent(w);
      } else if c == 'j' {
        MoveNext();
      } else if c == 'k' {
        MovePrev();
      } else if c == 'g' {
        SetGlobalFilter(line, w);
      } else if c == '/' {
        Search(w);
      }
      return Continue, None;
    }

    /** One pass through the loop of `patchUpdateFile`, from its top. */
    method Step(input: Option<string>, w: World) returns (outcome: Outcome, patch: Option<string>)
      requires Valid() && WorldOk(w)
      modifies this
      ensures Valid()
      ensures Reply(State(), outcome, patch) == Iteration(header, old(State()), input, w)
    {
      IterationKeepsValid(header, State(), input, w);
      Skip();
      if ix >= |hunks| {
        patch := SelectAndAssemble(header, hunks);
        return Done, patch;
      }
      if input.None? {
        return ReadFailed, None;
      }
      var line := TrimSpace(input.value);
      if line == "" {
        return Continue, None;
      }
      outcome, patch := Execute(line, w);
    }
  }

  /** The list with the hunk at `at` taken out and `splits` inserted one by one in its place. */
  method Splice(hunks: seq<Hunk>, at: nat, splits: seq<Hunk>) returns (hs: seq<Hunk>)
    requires at < |hunks|
    ensures hs == hunks[..at] + splits + hunks[at + 1..]
  {
    var before, after := hunks[..at], hunks[at + 1..];
    hs := before + after;
    var i := 0;
    while i < |splits|
      invariant 0 <= i <= |splits|
      invariant hs == before + splits[..i] + after
    {
      InsertAt(before, splits[..i], after, splits[i]);
      assert splits[..i + 1] == splits[..i] + [splits[i]];
      hs := hs[..at + i] + [splits[i]] + hs[at + i..];
      i := i + 1;
    }
    assert splits[..i] == splits;
  }

  /** Inserting one element at the end of the middle part of a three-part sequence. */
  lemma Parts<T>(a: seq<T>, b: seq<T>, c: seq<T>)
    ensures (a + b + c)[..|a|] == a && (a + b + c)[|a|..|a| + |b|] == b && (a + b + c)[|a| + |b|..] == c
    ensures |a + b + c| == |a| + |b| + |c|
  {
  }

  lemma InsertAt<T>(a: seq<T>, b: seq<T>, c: seq<T>, x: T)
    ensures (a + b + c)[..|a| + |b|] + [x] + (a + b + c)[|a| + |b|..] == a + (b + [x]) + c
  {
    assert (a + b + c)[..|a| + |b|] == a + b;
    assert (a + b + c)[|a| + |b|..] == c;
  }
}
