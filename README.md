# git add--interactive: the hunk engine, verified in Dafny

This project models the core of `git-add--interactive`, a Go re-implementation
of `git add -p`, and proves properties of that model. It covers five parts.

- **The hunk engine** (`git_patch.dfy`, `git_split.dfy`):
  - the table of the nine patch modes;
  - the `Hunk` record;
  - `parseHunks`, which cuts a diff into a file header followed by `@@` hunks;
  - the `@@ -a,b +c,d @@` header codec (`parseHunkHeader`, `updateHunkHeader`);
  - the splitter (`HunkSplittable`, `SplitHunk`).
- **The selection engine** (`ui_patch.dfy`, `ui_session.dfy`):
  - `reassemblePatch`;
  - the regex filters;
  - the bounded auto-split fixpoint;
  - the option list of the prompt;
  - the clean-up of an edited hunk;
  - the per-file decision loop of `patchUpdateFile`, as a class `PatchSession`. The class holds the hunks, the cursor and the two session fields. Each command it carries out is proved equal to a pure transition function `Command`.
- **The status parsers** (`git_status.dfy`):
  - `parseIndexLine` and `parseFileLine`, as methods of a class `StatusTable` that updates a path → `FileStatus` map;
  - the filtered listing;
  - `unquotePath`;
  - `ListUntracked`'s line filter.
- **Pathspecs, prompts and file selection** (`ui_app.dfy`):
  - `parsePathspec`, `normalizePath`, `matchesPathspec`, `containsPath` and `colored`;
  - the answer readers of `promptYesNo` and `listAndChoose`;
  - `patchUpdateFile` from its set-up to the end of its loop (a method driving `PatchSession`), with the `App` fields `globalFilter` and `autoSplitEnabled` carried from one file to the next;
  - `RunPatchMode`'s file filter and exit policy.
- **Command-line mode resolution** (`cli.dfy`):
  - the three revision parsers and `skipRevisionAndSeparator`;
  - `validatePatchMode`;
  - the part of `processArgs` after flag parsing.

`wrappers.dfy` holds `Option` and `Result`. `strs.dfy` holds the few Go `strings` and `strconv` functions the code uses. White space is Unicode's, as `unicode.IsSpace` defines it; case mapping is ASCII only:
- `HasPrefix`, `TrimSpace`, `ToLower`, `SplitOn`/`Join`;
- `Atoi` and decimal formatting.

## Model

| member | source | states |
|---|---|---|
| GitPatch.ModeNames | internal/git/patch.go:19-92 | The keys of `PatchModes`, one per entry, in table order. |
| GitPatch.LookupMode | internal/git/patch.go:19-92 | `PatchModes[name]` exists exactly when `name` is one of the keys, and then it is the entry carrying that name. |
| GitPatch.PatchModesConsistent | internal/git/patch.go:19-92 | The table has nine entries with distinct names. In every entry the check command is the apply command plus `--check`, and `IsReverse` holds iff the apply command contains `-R`. Every filter is `""`, `file-only` or `index-only`. |
| GitPatch.NewHunk | internal/git/patch.go:171-175 | A composite literal `Hunk{Type, Text, Display}` leaves the hunk undecided and not dirty, with all line numbers and counts zero. |
| GitPatch.ParseHeaderLine | internal/git/patch.go:218-222 | A line that reads as a range starts with `@@ -`. |
| GitPatch.HeaderGrammar | internal/git/patch.go:218-234 | `@@ -a[,b] +c[,d] @@rest` reads as OldLine a and NewLine c. OldCnt is b, and NewCnt is d; a missing count reads as 1. Anything after the second `@@` is ignored. |
| GitPatch.HeaderRoundTrip | internal/git/patch.go:358-367 | Reading back the header that `updateHunkHeader` writes gives the same four numbers, whatever text follows it. The writer omits `,cnt` exactly when the count is 1, and the reader defaults a missing count to 1. |
| GitPatch.ParseHunkHeader | internal/git/patch.go:213-242 | Fails exactly when Text is empty or its first line does not read as a range. On success only the four range fields change, and they are the range of the first line. |
| GitPatch.UpdateHunkHeader | internal/git/patch.go:358-376 | Text[0] and Display[0] become the formatted header of the hunk's range. The other lines and fields are kept. An empty hunk gets the header as its only line. |
| GitPatch.UpdateThenParse | internal/git/patch.go:358-376 | After `updateHunkHeader`, `parseHunkHeader` succeeds and changes nothing. |
| GitPatch.DisplayLines | internal/git/patch.go:177-181 | The display line at each index is the coloured line there when one exists, else the plain line. |
| GitPatch.SegmentStarts | internal/git/patch.go:183-192 | In a segmented list, every line opening with `@@ ` is the first line of some hunk. |
| GitPatch.SegmentDiff | internal/git/patch.go:169-200 | The returned hunks hold, in order, exactly the input lines in Text and their display lines in Display. Each hunk is non-empty and undecided. Only a first line starts a hunk with `@@ `, and it makes the hunk a change hunk. Only the first hunk of the list can be the header hunk, and only when it does not open with `@@ `. Empty input gives an empty list. |
| GitPatch.ParseHunks | internal/git/patch.go:169-211 | Succeeds exactly when every `@@ ` line of the input reads as a range. On success the line conservation above holds, and every change hunk carries the range of its first line. Empty input gives an empty list. |
| GitSplit.ScanMeans | internal/git/patch.go:259-277 | The left-to-right scan records exactly whether a change line was seen, then a context line after it, then a change line after that. |
| GitSplit.SplittableMeans | internal/git/patch.go:254-278 | A hunk is splittable iff it is a change hunk and its body has a `+`/`-` line, a later ` ` line and a later `+`/`-` line. |
| GitSplit.HunkSplittable | internal/git/patch.go:254-278 | The loop with `inChanges`/`contextLines` returns the splittability above. It is false for every non-hunk type, and lines of other kinds neither count nor reset. |
| GitSplit.EarlyTriple | internal/git/patch.go:269-271 | The early `return true` is sound: a triple in a prefix of the body is a triple of the whole body. |
| GitSplit.CutsFrom | internal/git/patch.go:305-306 | Every listed cut point is a ` ` line preceded by three ` ` lines and, before them, a non-` ` line. |
| GitSplit.CutsFromSorted | internal/git/patch.go:305-306 | The cut points are listed in increasing order. |
| GitSplit.CutsExact | internal/git/patch.go:305-306 | A body index is listed as a cut iff it is the fourth consecutive context line after a non-context line. |
| GitSplit.Bounds | internal/git/patch.go:301-353 | The piece boundaries run from 0 through the cuts to the body length, strictly increasing for a non-empty body. |
| GitSplit.NoCutBetween | internal/git/patch.go:305-306 | Between two consecutive boundaries there is no cut point. |
| GitSplit.LoopSplits | internal/git/patch.go:285-355 | The loop of `SplitHunk`, started in its initial state, ends with exactly the pieces cut at the cut points. |
| GitSplit.SplitHunk | internal/git/patch.go:280-356 | The imperative splitter returns exactly `Split(h)`. |
| GitSplit.SplitPieces | internal/git/patch.go:280-353 | A non-splittable hunk gives exactly `[hunk]`. A splittable one has at least four lines and gives one piece per cut plus one. |
| GitSplit.SplitLength | internal/git/patch.go:280-356 | The number of pieces is one plus the number of cuts for a splittable hunk, else one. |
| GitSplit.SplitRanges | internal/git/patch.go:294-353 | Piece k starts at the hunk's OldLine/NewLine plus the old/new tallies of the body before its boundary. Its OldCnt/NewCnt are the tallies of the body lines between its two boundaries. |
| GitSplit.SplitOffsets | internal/git/patch.go:290-319 | The first piece starts at the hunk's OldLine/NewLine. Piece k+1 starts at piece k's OldLine+OldCnt and NewLine+NewCnt. |
| GitSplit.SplitTotals | internal/git/patch.go:333-353 | The OldCnt/NewCnt of all pieces add up to the old/new tallies of the whole body. |
| GitSplit.SplitHeaders | internal/git/patch.go:307-371 | Every piece is an undecided, clean change hunk. Its Text[0] and Display[0] are its freshly formatted header, which parses back to the piece's own range. |
| GitSplit.SplitBodyLines | internal/git/patch.go:314-371 | The first piece's body is the body before the first cut. A later piece's body is its assigned lines minus the first one: the header overwrote the cut's context line. |
| GitSplit.SplitFirstBody | internal/git/patch.go:333-346 | The first piece's counts tally exactly the lines it shows. |
| GitSplit.SplitLaterBodies | internal/git/patch.go:314-371 | A later piece starts at a context line that its header hides, so each of its counts is one more than the tally of the lines it shows. |
| GitSplit.PieceAt | internal/git/patch.go:301-353 | A piece's counts and body, read off the boundaries around it. |
| GitSplit.GroupsCover | internal/git/patch.go:301-348 | The pieces' assigned line groups concatenate to the body up to the n-th boundary. |
| GitSplit.SplitCoversBody | internal/git/patch.go:301-348 | The assigned groups concatenate to the whole body. Every body line is assigned to exactly one piece, and none is duplicated. |
| GitSplit.PieceNotSplit | internal/git/patch.go:280-356 | Splitting a piece again gives a single piece, and the piece itself unchanged when it is not splittable. |
| GitSplit.SplitPiecesOnce | internal/git/patch.go:280-356 | No piece of a split splits any further. |
| GitStatus.UnquotePath | internal/git/status.go:219-226 | The result is the input, unless the input has length ≥ 2, starts and ends with `"`, and unquotes; then the result is the unquoted value. |
| GitStatus.Words | internal/git/status.go:183 | A run of space-terminated words read by character class and length bounds: each word fits its class, and together they rebuild the line. |
| GitStatus.WordsOf | internal/git/status.go:183 | Words that fit their classes, written with spaces, read back as themselves and the rest of the line. |
| GitStatus.ParseSummary | internal/git/status.go:126-128 | A line read as ` create mode <octal> <path>` or ` delete mode <octal> <path>` is a valid summary and is exactly that summary's text. |
| GitStatus.SummaryRoundTrip | internal/git/status.go:126-128 | The text of any valid summary reads back as that summary. |
| GitStatus.ParseRawMeans | internal/git/status.go:183-185 | A line read as a raw line `:<octal> <octal> <hex> <hex> <status>\t<path>` is a valid raw line and is exactly that raw line's text. |
| GitStatus.RawRoundTrip | internal/git/status.go:183-185 | The text of any valid raw line reads back as that raw line. |
| GitStatus.IndexLineKind | internal/git/status.go:102-142 | `parseIndexLine` tries numstat and then summary, and never treats a line as a raw line. |
| GitStatus.ApplyTouchesOne | internal/git/status.go:102-201 | Applying a recognised line adds its path, creating the entry as unchanged/nothing if it is new. Every other entry is kept, and an unrecognised line changes nothing. |
| GitStatus.ApplyOtherSide | internal/git/status.go:117-196 | An index line never writes the file columns, and a file line never writes the index columns. Only a raw line can set `Unmerged`. |
| GitStatus.IndexLineTouchesOne | internal/git/status.go:102-142 | `parseIndexLine` touches only the path its line names, and never its File, FileAddDel, Unmerged or Path fields. An unrecognised line leaves the map unchanged. |
| GitStatus.FileLineTouchesOne | internal/git/status.go:144-201 | `parseFileLine` touches only the path its line names, and never its Index, IndexAddDel or Path fields. An unrecognised line leaves the map unchanged. |
| GitStatus.NumstatOf | internal/git/status.go:103-105 | A line with at least three tab-separated fields reads as its first three fields. |
| GitStatus.IndexNumstat | internal/git/status.go:103-123 | A numstat line sets the unquoted path's Index to `+<add>/-<del>`, or to `binary` with Binary set when both counts are `-`. A new entry starts with File `nothing`. |
| GitStatus.FileNumstat | internal/git/status.go:145-165 | The same on the File column, and a new entry starts with Index `unchanged`. |
| GitStatus.SummaryLines | internal/git/status.go:126-181 | A summary line sets IndexAddDel (index) or FileAddDel (file) of its path to the operation. |
| GitStatus.RawLines | internal/git/status.go:183-198 | A raw line sets Unmerged only for status `U`. Any other raw line only makes sure the entry exists. |
| GitStatus.FoldIndexKeys | internal/git/status.go:58-62 | After the index lines, the map holds exactly the old keys plus the paths named by recognised lines. |
| GitStatus.FoldFileKeys | internal/git/status.go:80-84 | The same for the file lines. |
| GitStatus.ListingFilters | internal/git/status.go:87-97 | Under `index-only` no listed entry has Index `unchanged`. Under `file-only` no listed entry has File `nothing`. Under any other filter every entry is listed. |
| GitStatus.ListingSize | internal/git/status.go:87-97 | The listing has exactly one entry per kept path. |
| GitStatus.StatusTable.ParseIndexLine | internal/git/status.go:102-142 | The map after the call is the index-line update of the map before it. |
| GitStatus.StatusTable.ParseFileLine | internal/git/status.go:144-201 | The map after the call is the file-line update of the map before it. |
| GitStatus.StatusTable.List | internal/git/status.go:87-97 | Lists each kept path once, as its entry with Path set to the key, in some order. |
| GitStatus.ListModified | internal/git/status.go:27-100 | Lists the map built from the index lines (skipped under `file-only`) and then the file lines (skipped under `index-only`). |
| GitStatus.NonEmptyExactly | internal/git/status.go:210-214 | The kept lines are exactly the non-empty ones. |
| GitStatus.ListUntracked | internal/git/status.go:209-216 | Returns the non-empty lines, in order, each unquoted. |
| UiPatch.HunkMatchesRegex | internal/ui/patch.go:675-687 | True iff the pattern compiles and matches some line of Text, the header line included. |
| UiPatch.MatchingAppend | internal/ui/patch.go:699-703 | Filtering distributes over concatenation, so the order is kept. |
| UiPatch.MatchingExactly | internal/ui/patch.go:689-706 | The filter keeps exactly the matching hunks and never grows the list. An invalid pattern keeps none. |
| UiPatch.FilterHunksByRegex | internal/ui/patch.go:689-706 | Returns exactly the matching hunks in their original order. |
| UiPatch.MatchingKept | internal/ui/patch.go:689-706 | Every kept hunk is from the input and matches. |
| UiPatch.FirstMatch | internal/ui/patch.go:423-438 | The first matching index in a range, or none when nothing in the range matches. |
| UiPatch.SearchTargetMeans | internal/ui/patch.go:421-442 | `/` lands on a matching hunk iff some hunk matches. A target after `ix` is the first match after it; a target at or before `ix` means nothing after `ix` matches, and it is the first match from 0. |
| UiPatch.SearchHunks | internal/ui/patch.go:421-442 | The two search loops land on that target. |
| UiPatch.FirstChangeMeans | internal/ui/patch.go:718-727 | The first change hunk of the list, or none. |
| UiPatch.EmitInsertsOnce | internal/ui/patch.go:718-731 | The later hunks' lines appear in order. The header's `---`/`+++` lines are inserted once, just before the first change hunk, and never if there is none. |
| UiPatch.ReassembleEmpty | internal/ui/patch.go:734 | An empty list reassembles to a single newline. |
| UiPatch.ReassembleReads | internal/ui/patch.go:734 | Lines with no newline in them, joined by `\n` plus a trailing `\n`, split back into those lines. |
| UiPatch.CollectKeptHeader | internal/ui/patch.go:712-716 | The header lines that start with neither `+++` nor `---`, in order. |
| UiPatch.CollectFileLines | internal/ui/patch.go:721-725 | The header's `---`/`+++` lines, in order. |
| UiPatch.ReassemblePatch | internal/ui/patch.go:708-735 | The patch text is the kept header lines, then the later hunks with the file lines inserted before the first change hunk, joined by newlines with one trailing newline. |
| UiPatch.AcceptedExactly | internal/ui/patch.go:472-477 | A hunk is selected iff it is in the list with Use true. |
| UiPatch.SelectAndAssemble | internal/ui/patch.go:471-485 | Nothing is applied when no hunk is accepted. Otherwise the patch is the header followed by exactly the accepted hunks, in list order. |
| UiPatch.SplitOnceSettles | internal/ui/patch.go:645-656 | What one round makes of a hunk never splits further. |
| UiPatch.RoundSettles | internal/ui/patch.go:641-664 | After one round no hunk splits, so the round loop stops after its second round. |
| UiPatch.RoundFixed | internal/ui/patch.go:641-664 | A round over settled hunks changes nothing and reports no split. |
| UiPatch.RoundAppend | internal/ui/patch.go:645-657 | A round distributes over concatenation. |
| UiPatch.RoundLength | internal/ui/patch.go:645-657 | A round never shortens the list. |
| UiPatch.AutoSplitOneIsOneRound | internal/ui/patch.go:636-666 | The bounded fixpoint (at most 11 rounds) on one hunk equals a single round. |
| UiPatch.AutoSplitAllIsRound | internal/ui/patch.go:632-673 | `autoSplitAllHunks` equals one splitting round over the whole list. Non-splittable hunks pass through unchanged. |
| UiPatch.AutoSplitProperties | internal/ui/patch.go:632-673 | The outputs of hunk i precede those of hunk i+1, and auto-splitting is idempotent. The output is never shorter than the input, and every hunk stays well formed. |
| UiPatch.SplitRound | internal/ui/patch.go:642-660 | One round of the inner loop: its new list and its `splitOccurred` flag. |
| UiPatch.SplitUntilSettled | internal/ui/patch.go:638-666 | The bounded round loop on one splittable hunk gives its auto-split pieces. |
| UiPatch.AutoSplitHunk | internal/ui/patch.go:636-669 | One iteration of the outer loop gives the hunk's auto-split pieces. |
| UiPatch.AutoSplitAllHunks | internal/ui/patch.go:632-673 | The method returns exactly the auto-split list. |
| UiPatch.InOfferedChoices | internal/ui/patch.go:491-540 | A choice is listed iff its condition holds. |
| UiPatch.OfferedChoicesMeans | internal/ui/patch.go:491-540 | `K` iff ix > 0; `J` iff ix < len-1; `k`/`j` iff an undecided hunk lies before/after ix; `g` iff len > 1; `s` iff splittable; `e` iff a change hunk. `G`, `A` and `S` are always listed. |
| UiPatch.HasUndecided | internal/ui/patch.go:494-509 | The scan for an undecided hunk in a range. |
| UiPatch.CollectOptions | internal/ui/patch.go:491-539 | The letters of the offered choices, in the fixed order K,J,k,j,g,G,A,s,S,e. |
| UiPatch.AddActionOptions | internal/ui/patch.go:527-539 | The second half of the option list, appended after the navigation letters. |
| UiPatch.BuildOtherOptions | internal/ui/patch.go:491-545 | The `,`-joined letters, each preceded by a comma. |
| UiPatch.KeptEditExactly | internal/ui/patch.go:594-599 | A line survives the clean-up iff it does not start with `#` and is not blank. |
| UiPatch.KeptEditLines | internal/ui/patch.go:594-603 | Nothing survives exactly when every line is a comment or blank. |
| UiPatch.EditedHunkMeans | internal/ui/patch.go:590-618 | No hunk when nothing survives. Otherwise a dirty, accepted hunk of the same type, whose body is the surviving lines. Its first line starts with `@@`, or else the original header line is prepended. |
| UiPatch.CleanEditedHunk | internal/ui/patch.go:590-618 | The loop over the edited lines builds that hunk. |
| UiPatch.PreludeEmpty | internal/ui/patch.go:131-142 | A file with no hunk after its header is not prompted for. Without a global filter, every other file is. |
| UiPatch.PreludeMeans | internal/ui/patch.go:139-164 | The prompted list is non-empty and well formed. Under a global filter every hunk in it matches. |
| UiPatch.PrepareHunks | internal/ui/patch.go:139-164 | Auto-split runs before the global filter, and an empty filtered list ends the file without prompting. |
| UiSession.UndecidedFrom | internal/ui/patch.go:168-176 | The first undecided hunk at or after i, or the end of the list. |
| UiSession.UndecidedUpTo | internal/ui/patch.go:340-347 | The last undecided hunk at or before i, or 0 when there is none. |
| UiSession.SeekPrompts | internal/ui/patch.go:168-176 | Skipping decided hunks stops inside the list only at an undecided hunk, so a command is only ever read for an undecided hunk under the cursor. |
| UiSession.MarkFromMeans | internal/ui/patch.go:264-304 | Marking from `from` decides every still-undecided hunk at or after it and leaves earlier and decided hunks untouched. No other field changes. |
| UiSession.RejectKeepsAccepted | internal/ui/patch.go:264-276 | `q` adds nothing to the accepted hunks. |
| UiSession.AcceptAllAccepted | internal/ui/patch.go:225-238 | After `A`, every hunk except those already rejected is accepted. |
| UiSession.Rejected | internal/ui/patch.go:225-230 | The rejected hunks, in order. |
| UiSession.CommandCases | internal/ui/patch.go:212-468 | `S` and `A` are tested on the first character as typed; every other command on the first character lowercased. |
| UiSession.CommandKeepsValid | internal/ui/patch.go:212-468 | Every command keeps the hunks well formed and the cursor within the list or just past it. |
| UiSession.IterationKeepsValid | internal/ui/patch.go:166-468 | Every pass of the loop keeps that invariant. |
| UiSession.IterationSettings | internal/ui/patch.go:166-468 | In one pass only `S` changes the auto-split flag, and only from off to on; only `g`/`G` change the global filter. |
| UiSession.Loop | internal/ui/patch.go:166-468 | The loop run to its end never ends in Continue and keeps the session valid. The unread input is a suffix of the input, and an auto-split flag that was on stays on. |
| UiSession.DecideCommand | internal/ui/patch.go:253-261 | `y`/`n` set the current hunk's Use to true/false and advance the cursor by one. Nothing else changes, and nothing is applied. |
| UiSession.BulkCommand | internal/ui/patch.go:263-305 | `q`/`a`/`d` decide every undecided hunk from the cursor on as false/true/false and apply the accepted hunks. `q` ends with Quit; `a`/`d` leave the loop. |
| UiSession.CaseSensitiveCommands | internal/ui/patch.go:212-250 | `S` auto-splits everything, switches auto-split on and resets the cursor, while `s` splits one hunk. `A` marks from index 0 and ends with accept-all, while `a` marks from the cursor. |
| UiSession.SplitCommand | internal/ui/patch.go:307-322 | `s` replaces the current hunk by its splits only when there is more than one, giving prefix ++ splits ++ suffix with the cursor unchanged. Otherwise nothing changes. |
| UiSession.NavigateCommands | internal/ui/patch.go:334-347 | `j` moves to the next undecided hunk or past the end. `k` moves to the previous undecided hunk, or to 0 when there is none. Neither changes the hunks. |
| UiSession.GotoIsUnreachable | internal/ui/patch.go:349-407 | Every command whose first letter lowercases to `g` passes the global-filter test, so the goto branch is dead code. |
| UiSession.GlobalFilterCommand | internal/ui/patch.go:377-390 | `G <pattern>` stores the pattern as the filter even when no hunk matches. It replaces the list by the matching hunks and resets the cursor only when some hunk matches. |
| UiSession.ClearFilterCommand | internal/ui/patch.go:352-375 | An empty pattern clears the filter. It takes the freshly parsed hunks after the header and resets the cursor, or keeps the hunks and the cursor when the re-parse fails. |
| UiSession.SearchCommand | internal/ui/patch.go:409-442 | `/` keeps the hunks and lands on a matching hunk iff one exists. Moving forward, it lands on the first match after the cursor. |
| UiSession.EditCommand | internal/ui/patch.go:324-332 | `e` at most replaces the current hunk, by an accepted usable hunk; the next pass then moves past it. |
| UiSession.PatchSession.constructor | internal/ui/patch.go:139-166 | A session starts at cursor 0 over the prepared hunks. |
| UiSession.PatchSession.Skip | internal/ui/patch.go:168-176 | The loop head's skip over decided hunks. |
| UiSession.PatchSession.MarkUndecided | internal/ui/patch.go:225-304 | The marking loops of `A`, `q`, `a` and `d`. |
| UiSession.PatchSession.SplitCurrent | internal/ui/patch.go:307-322 | The in-place splice of `s`. |
| UiSession.PatchSession.EditCurrent | internal/ui/patch.go:324-332 | `e` on the session's state. |
| UiSession.PatchSession.SetGlobalFilter | internal/ui/patch.go:349-390 | `g`/`G` on the session's state. |
| UiSession.PatchSession.Search | internal/ui/patch.go:409-442 | `/` on the session's state. |
| UiSession.PatchSession.MoveNext | internal/ui/patch.go:334-338 | `j` on the session's state. |
| UiSession.PatchSession.MovePrev | internal/ui/patch.go:340-347 | `k` on the session's state. |
| UiSession.PatchSession.Execute | internal/ui/patch.go:212-468 | Carrying out a command changes the session and returns the outcome and patch exactly as `Command` says. |
| UiSession.PatchSession.Uppercase | internal/ui/patch.go:212-250 | The same for `S` and `A`, which are checked before the case-folded commands. |
| UiSession.PatchSession.Decide | internal/ui/patch.go:252-306 | The same for the commands that decide the current hunk or the rest of the file. |
| UiSession.PatchSession.Rework | internal/ui/patch.go:307-468 | The same for the commands that rework the list or move the cursor. |
| UiSession.PatchSession.Step | internal/ui/patch.go:166-210 | One pass of the loop is the transition `Iteration`, and it keeps the session valid. |
| UiSession.Splice | internal/ui/patch.go:316-321 | The copy-down and insert loop gives prefix ++ splits ++ suffix. |
| UiApp.ParsePathspecMeans | internal/ui/app.go:184-196 | The result is a suffix of the pathspec. It differs from the pathspec iff the pathspec starts with `:(` and contains `)`, and then it is the text after the first `)`. |
| UiApp.ParseMagic | internal/ui/app.go:184-196 | The path after a `:(magic)` prefix. |
| UiApp.NormalizePathMeans | internal/ui/app.go:198-208 | At most one leading `./` and at most one trailing `/` are removed, and nothing else. |
| UiApp.DotSlashNormal | internal/ui/app.go:198-208 | A leading `./` does not change the normal form. |
| UiApp.MatchesItself | internal/ui/app.go:144-148 | Every path matches itself. |
| UiApp.MagicMatches | internal/ui/app.go:144-182 | A magic pathspec matches iff it equals the target or its stripped path matches. |
| UiApp.DirectoryMatches | internal/ui/app.go:158-163 | A directory pathspec ending in `/` matches every path under it. |
| UiApp.MagicDirectoryMatches | internal/ui/app.go:151-163 | The same under a `:(magic)` prefix. |
| UiApp.DotSlashMatches | internal/ui/app.go:165-172 | `./p` matches `p`. |
| UiApp.NoImplicitDirectory | internal/ui/app.go:144-182 | A directory named without a trailing `/` does not match the paths under it. |
| UiApp.ContainsPath | internal/ui/app.go:135-142 | True iff some pathspec matches the target. |
| UiApp.Colored | internal/ui/app.go:210-215 | The text alone when colours are off or the colour is empty. Otherwise colour + text + normal colour. |
| UiApp.YesNo | internal/ui/app.go:238-243 | y/yes (any case, trimmed) is yes, and n/no is no. Anything else is neither. |
| UiApp.PromptYesNo | internal/ui/app.go:230-245 | Re-prompts until an answer reads as yes or no and returns it. Failing to read is an error. |
| UiApp.ChoiceNumber | internal/ui/app.go:525-533 | A trimmed choice selects item k exactly when it reads as the number k with 1 ≤ k ≤ len. |
| UiApp.ChoiceNumberExamples | internal/ui/app.go:525-537 | A written index selects its item. A range such as `1-3` is not parsed, and an index past the end selects nothing. |
| UiApp.Pick | internal/ui/app.go:527-537 | One choice selects `items[num-1]` or nothing. |
| UiApp.ChosenConcat | internal/ui/app.go:524-538 | Selections follow the choices in input order. |
| UiApp.ChosenItems | internal/ui/app.go:524-538 | Only listed items are selected. |
| UiApp.ChosenNext | internal/ui/app.go:524-538 | Each further choice adds what it picks at the end of the selection. |
| UiApp.ChooseEach | internal/ui/app.go:524-538 | The loop over the choices selects exactly `Chosen` of them. |
| UiApp.ChooseItems | internal/ui/app.go:521-540 | The comma-separated choices, each trimmed, select their items in order; invalid ones are skipped. |
| UiApp.ReadAnswer | internal/ui/app.go:507-519 | `?` re-prompts. The first other trimmed line is the answer; failing to read ends without one. |
| UiApp.ListAndChoose | internal/ui/app.go:484-543 | No items chooses nothing, and `immediate` with one item chooses it without reading. Otherwise the first answer that is not `?` is parsed as choices; failing to read is an error. |
| UiApp.RunError | internal/ui/app.go:123-132 | The file that stopped the loop gives no error when it quit with ErrQuit, and its error otherwise, ErrAcceptAll included. |
| UiApp.SelectedMeans | internal/ui/app.go:109-116 | A file is processed iff it is neither unmerged nor binary, and it matches a pathspec when pathspecs are given. |
| UiApp.NoPathspecs | internal/ui/app.go:109-116 | Without pathspecs every file that is neither unmerged nor binary is processed. |
| UiApp.FilterFiles | internal/ui/app.go:109-116 | The filter loop keeps exactly those files, in listing order. |
| UiApp.Opening | internal/ui/patch.go:125-164 | A file is prompted for only when `ParseDiff` succeeds with hunks after the header. The session then starts at 0 over usable hunks, with the `App`'s global filter and auto-split flag, and under a filter every hunk matches it. |
| UiApp.OpensSettled | internal/ui/patch.go:144-154 | With auto-split on and no filter, a file opens with hunks that auto-split no further. |
| UiApp.PatchFile | internal/ui/patch.go:125-489 | Leaves a suffix of the input unread, and leaves auto-split on when it was on. |
| UiApp.PatchFileMeans | internal/ui/patch.go:125-489 | A `ParseDiff` error is returned, and a file with nothing to prompt for is updated at once; both leave the `App` fields and the input alone. A prompted file runs its loop to the end, reports `q` as ErrQuit, `A` as ErrAcceptAll and a failed read as its error. It leaves the session's last global filter and auto-split flag in the `App`. |
| UiApp.PatchUpdateFile | internal/ui/patch.go:125-489 | The set-up and the `PatchSession` passes compute `PatchFile`. |
| UiApp.Updater | internal/ui/patch.go:125-489 | `patchUpdateFile` as one step of the file loop: on well-answered input it is `PatchFile`. |
| UiApp.StepRuns | internal/ui/app.go:123-132 | Each file of the run reads well-answered input, and it is `patchUpdateFile` opened with the fields and the input the file before it left. |
| UiApp.UpdaterKeepsAutoSplit | internal/ui/patch.go:212-219 | No file turns auto-split off. |
| UiApp.StopsAtFirst | internal/ui/app.go:123-132 | The loop stops exactly at the first file that does not simply update, each file run from the state the ones before it left. |
| UiApp.AllUpdated | internal/ui/app.go:123-132 | When every file updates, all are processed and there is no error. |
| UiApp.AcceptAllEndsRun | internal/ui/app.go:123-132 | A file ending in ErrAcceptAll ends the run with that error; the later files are not processed. |
| UiApp.CarryOver | internal/ui/patch.go:144-164 | A file is opened with the global filter and auto-split flag that the previous file's session ended with. A filter set there pre-filters the next file, so every hunk it shows matches. |
| UiApp.AutoSplitSticky | internal/ui/patch.go:212-219 | Once auto-split is on, it stays on for every later file of a run whose files never turn it off. |
| UiApp.UpdateNext | internal/ui/app.go:123-124 | Updating the next file gives the next step of the run. |
| UiApp.UpdateFiles | internal/ui/app.go:123-132 | The loop over the selected files follows that policy, threading the `App` fields and the input from file to file. It returns the fields the run leaves. |
| UiApp.RunPatchMode | internal/ui/app.go:98-133 | An unknown mode is an error before any listing, and a listing error is returned. Otherwise the selected files are processed under the exit policy above, from the `App`'s current fields. |
| Cli.ParsePatchReset | main.go:186-196 | No arguments, a leading `--` or `HEAD` give `reset_head`; any other first argument gives `reset_nothead`. The revision is the first argument, or `HEAD`. |
| Cli.ParsePatchCheckout | main.go:198-208 | No revision gives (`checkout_index`, `""`). `HEAD` gives `checkout_head`, and any other revision `checkout_nothead`, with that revision. |
| Cli.ParsePatchWorktree | main.go:210-220 | No revision gives (`checkout_index`, `""`), which is not a worktree mode. `HEAD` gives `worktree_head`, and any other revision `worktree_nothead`. |
| Cli.SkipRevisionAndSeparator | main.go:222-233 | Drops exactly the first argument when it is not `--`, and otherwise returns the arguments unchanged. |
| Cli.RevisionConsumed | main.go:186-233 | The revision the parsers read is exactly the argument that is dropped. |
| Cli.HeadDefaults | main.go:186-208 | Naming `HEAD` equals naming nothing for `reset`, but not for `checkout`. |
| Cli.ValidatePatchMode | main.go:150-184 | Modes `""`, `reset` and `checkout` fail unless `--` occurs in the arguments, and mode `""` also fails when a bare `--patch` is followed by something other than `--`. Other modes pass. The message names the option as spelt. |
| Cli.DropSeparator | main.go:118-121 | One leading `--` is dropped. |
| Cli.Resolved | main.go:99-121 | The mode is a key of `PatchModes`, and the files are the remaining arguments minus at most a revision and a separator. |
| Cli.ResolvedModesKnown | main.go:100-116 | Every mode the dispatch names is a key of `PatchModes`. |
| Cli.ProcessArgs | main.go:66-131 | Without `--patch`, a leading `--` gives the menu with the rest as files, and another non-empty remainder gives `stage`. With `--patch`, a value of `--` counts as empty, a separator error or an unknown value is an error, and otherwise the resolved invocation is returned. Every non-empty mode is a key of `PatchModes`. |
| Strs.TrimSpaceMeans | internal/ui/app.go:227 | `strings.TrimSpace` leaves the unpadded middle of the input, with only white space around it. White space is `unicode.IsSpace`'s: the ASCII spaces, U+0085, U+00A0 and the rest of Unicode's White_Space. |
| Strs.TrimSpaceEmpty | internal/ui/app.go:227 | The trimmed input is empty iff it is all white space in that sense. |
| Strs.JoinSplit | internal/ui/patch.go:590 | Splitting on a separator and joining back gives the input. |
| Strs.SplitJoin | internal/ui/patch.go:734 | Joining parts free of the separator and splitting again gives the parts. |
| Strs.NatToStringValue | internal/git/patch.go:359-366 | The decimal text of n has value n. |
| Strs.AtoiNatToString | internal/git/patch.go:224-233 | `strconv.Atoi` reads back what `%d` writes. |

## Left out

- The subprocesses are not modelled: `git diff-index`, `diff-files`, `ls-files`, `apply` and `apply --check`, and `git var GIT_EDITOR`.
  - `ListModified` takes the command's output lines as inputs.
  - `RunPatchMode` takes the listing and `ParseDiff` of each file as functions.
  - The session takes the `apply --check` verdict and a fresh re-parse as inputs.
  - The choice of reference, including the empty tree for an initial commit, is not modelled.
- `ParseDiff`'s command assembly is not modelled. `parseHunks` takes the plain and coloured lines; a missing coloured line falls back to the plain one (`DisplayLines`).
- `ApplyPatch`, `CheckPatch` and `UpdateIndex` are not modelled. The model returns the patch that would be applied.
- Printing, ANSI colouring of output and the prompt and help tables are not modelled. Only `colored` is.
- Reading the terminal is modelled as a sequence of whole lines, each ended by `\n`, read one at a time as from a terminal. Two effects of Go's reader are not captured:
  - UiApp.PromptYesNo, UiApp.ReadAnswer and UiSession.Loop: a last line without `\n` is not representable. Go's `ReadString('\n')` returns such a line together with `io.EOF`, so Go reports an error where the model would read an answer (input `y` at end of file).
  - `promptSingleChar` builds a new `bufio.Reader` on each prompt, which can swallow lines already buffered past the first one when the input is a pipe. The model reads every line in turn.
- UiApp.PatchFileMeans: every failed read is reported with the text of `io.EOF`; other read errors are not distinguished.
- Strings are sequences of Unicode code points. Go's strings are bytes; invalid UTF-8 is not modelled.
- Strs.ToLowerChar: ASCII only. Go's `unicode.ToLower` also maps other letters, and `strings.ToLower(input)[0]` is a byte. The only case that reaches a command is the Kelvin sign U+212A, which Go lowercases to `k` and so runs `k`; the model shows help (UiSession.CommandCases). `YesNo` and the other lowercased tests accept the same answers either way.
- Strs.ToUpperChar: ASCII only. Go's `unicode.ToUpper` maps other letters too, but none to `G`, so the global-filter test is unaffected.
- Regular expressions (Go's RE2) are an abstract engine: a `compiles` and a `matches` function passed in. The header, summary and raw-line regexes are hand-written parsers for the forms they accept.
- `strconv.Unquote` is a function parameter. Only `unquotePath`'s guard is modelled.
- The `flag` package parsing in `processArgs` is not modelled. The value of `--patch` and `fs.Args()` are inputs. The `flag provided but not defined` error mapping and `extractUnknownFlag` are left out too.
- `validatePatchMode` takes no `remaining` argument: the source never reads it.
- Map iteration order in the listing is unspecified. The listing is specified as a duplicate-free enumeration of the kept paths in any order.
- The menu commands of the interactive mode are not modelled: `RunInteractive`, status, update, revert, add-untracked, diff, help and quit.
- The editor: writing the hunk file, spawning the editor and reading the file back are one input (the edited content or an error).
  - The retry after a failed `apply --check` is simplified: a rejected edit is discarded, as if the user answered no.
- The goto branch of `g` (internal/ui/patch.go:392-407) is not modelled: it is unreachable (`GotoIsUnreachable`).
- The follow-up prompt of `G` with an empty pattern gets its answer from the environment. A failed read continues the loop unchanged.
- Hunk types `mode`, `deletion` and `addition` are not produced by the parser. They appear only as values of the type, and their prompt wording is not modelled.
- Go's `nil` and empty slices are not distinguished.
- A fresh re-parse for clearing the filter is assumed to have its header hunk (`WorldOk`). On an empty re-parse, `hunks[1:]` would panic in Go.
- Integers are unbounded naturals. `strconv.Atoi` overflow in header numbers is not modelled.
- The `Hunk` field `OfsDelta` is not modelled: nothing in the core reads or writes it.
- `listAndChoose`'s printing of the items is not modelled. The `immediate` check that follows it is tested before the first prompt, which is observably the same.
- `listAndChoose`'s `singleton` flag is not modelled. It only changes the prompt text and the help.
- The code differs from a reader's expectations in places; the model follows the code.
  - `RunPatchMode` returns `ErrAcceptAll` as an error, so files after an `A` are not processed (`AcceptAllEndsRun`).
  - A split shares no context line between pieces: a later piece's header overwrites its first assigned line (`SplitBodyLines`).
- UiSession.PatchSession.Execute: the error returned by `q` and `A` is an `Outcome` value, `Quit` or `AcceptAllFiles`, not a Go error value.
- UiPatch.AutoSplitAllIsRound: the 11-round safety limit is modelled, but the proofs show that one round always settles, so the limit is never reached.
