/**
  The application layer of internal/ui/app.go that `git add -p` runs through:
  pathspec matching and the file selection of `RunPatchMode`, its file loop
  and exit policy, `patchUpdateFile` (internal/ui/patch.go) with the `App`
  fields it carries from one file to the next, `colored`, and the two input
  readers `promptYesNo` and `listAndChoose`. Terminal input is a sequence of
  whole lines, each ended by `\n` and read one at a time as from a terminal;
  a read past the last line fails the way `bufio.Reader.ReadString` does at
  end of input.
 */
module UiApp {
  import opened Wrappers
  import opened Strs
  import opened GitPatch
  import opened GitStatus
  import opened UiPatch
  import opened UiSession

  // ---------------------------------------------------------------- pathspecs

  /** `pathspec` carries a magic signature `:(…)` that `parsePathspec` strips. */
  predicate HasMagic(pathspec: string) {
    HasPrefix(pathspec, ":(") && exists i :: 0 <= i < |pathspec| && pathspec[i] == ')'
  }

  /** `k` is the position of the first `)` in `s`. */
  predicate FirstClose(s: string, k: int) {
    0 <= k < |s| && s[k] == ')' && forall j :: 0 <= j < k ==> s[j] != ')'
  }

  /** `parsePathspec` */
  function ParsePathspec(pathspec: string): string
  {
    if HasPrefix(pathspec, ":(") then
      var close := IndexOf(pathspec, ')');
      if close != -1 then pathspec[close + 1..] else pathspec
    else pathspec
  }

  /**
    With a magic signature, `parsePathspec` gives the text after its first
    `)`; any other pathspec is returned unchanged.
   */
  lemma ParsePathspecMeans(pathspec: string)
    ensures var path := ParsePathspec(pathspec);
      && HasSuffix(pathspec, path)
      && (path != pathspec <==> HasMagic(pathspec))
      && (HasMagic(pathspec) ==> FirstClose(pathspec, |pathspec| - |path| - 1))
  {
    var path := ParsePathspec(pathspec);
    if HasMagic(pathspec) {
      var close := IndexOf(pathspec, ')');
      assert pathspec[|pathspec| - |path|..] == path;
    }
  }

  /** The magic signature `:(magic)` in front of `path` is stripped, whatever `path` is. */
  lemma {:induction false} ParseMagic(magic: string, path: string)
    requires forall j :: 0 <= j < |magic| ==> magic[j] != ')'
    ensures ParsePathspec(":(" + magic + ")" + path) == path
  {
    var ps := ":(" + magic + ")" + path;
    var k := |magic| + 2;
    assert ps[..2] == ":(";
    assert ps[k] == ')';
    assert forall j :: 0 <= j < k ==> ps[j] != ')' by {
      forall j | 0 <= j < k ensures ps[j] != ')' {
        if j >= 2 { assert ps[j] == magic[j - 2]; }
      }
    }
    assert ps[k + 1..] == path;
  }

  /** `normalizePath` */
  function NormalizePath(path: string): string
  {
    var p := if HasPrefix(path, "./") then path[2..] else path;
    TrimSuffix(p, "/")
  }

  /**
    `normalizePath` drops one leading `./` if there is one, then one
    trailing `/` if there is one; nothing else changes.
   */
  lemma NormalizePathMeans(path: string)
    ensures var r := NormalizePath(path);
      var lead := if HasPrefix(path, "./") then 2 else 0;
      && lead + |r| <= |path| <= lead + |r| + 1
      && path[lead..lead + |r|] == r
      && (|path| == lead + |r| + 1 ==> path[|path| - 1] == '/')
      && (|path| == lead + |r| ==> !HasSuffix(r, "/"))
  {
  }

  /** A leading `./` makes no difference to the normal form. */
  lemma DotSlashNormal(path: string)
    requires !HasPrefix(path, "./")
    ensures NormalizePath("./" + path) == NormalizePath(path)
  {
    assert ("./" + path)[..2] == "./";
    assert ("./" + path)[2..] == path;
  }

  /** `path` names `target` or, ending in `/`, a directory above it. */
  predicate DirPrefix(path: string, target: string) {
    HasSuffix(path, "/") && HasPrefix(target, path)
  }

  /** The four tests `matchesPathspec` makes on a pathspec whose magic is stripped. */
  predicate MatchesPath(path: string, target: string) {
    var np := NormalizePath(path);
    var nt := NormalizePath(target);
    path == target || DirPrefix(path, target) || np == nt || DirPrefix(np, nt)
  }

  /** `matchesPathspec`: the pathspec as written, or its stripped path, matches. */
  predicate MatchesPathspec(pathspec: string, target: string) {
    pathspec == target || MatchesPath(ParsePathspec(pathspec), target)
  }

  /** Every path matches itself. */
  lemma MatchesItself(path: string)
    ensures MatchesPathspec(path, path)
  {
  }

  /** A pathspec with magic matches what its stripped path matches, and itself. */
  lemma MagicMatches(magic: string, path: string, target: string)
    requires forall j :: 0 <= j < |magic| ==> magic[j] != ')'
    ensures MatchesPathspec(":(" + magic + ")" + path, target)
        <==> (":(" + magic + ")" + path == target || MatchesPath(path, target))
  {
    ParseMagic(magic, path);
  }

  /** A pathspec ending in `/` (and no magic) matches everything below it. */
  lemma DirectoryMatches(dir: string, target: string)
    requires HasSuffix(dir, "/") && !HasMagic(dir) && HasPrefix(target, dir)
    ensures MatchesPathspec(dir, target)
  {
  }

  /** `./path` matches `path`. */
  lemma DotSlashMatches(path: string)
    requires !HasPrefix(path, "./")
    ensures MatchesPathspec("./" + path, path)
  {
    DotSlashNormal(path);
    assert !HasPrefix("./" + path, ":(") by {
      assert ("./" + path)[1] == '/';
    }
  }

  /**
    The magic form of the example in internal/ui/app.go's comment, `:(,prefix:0)internal/`:
    with magic in front, a directory pathspec still selects every file below it.
   */
  lemma MagicDirectoryMatches(magic: string, dir: string, target: string)
    requires forall j :: 0 <= j < |magic| ==> magic[j] != ')'
    requires HasSuffix(dir, "/") && HasPrefix(target, dir)
    ensures MatchesPathspec(":(" + magic + ")" + dir, target)
  {
    MagicMatches(magic, dir, target);
  }

  /**
    Without its trailing `/` a directory name does not select the files below
    it (`internal` does not match `internal/ui/app.go`).
   */
  lemma NoImplicitDirectory(dir: string, rest: string)
    requires !HasMagic(dir) && !HasSuffix(dir, "/") && dir != []
    requires !HasPrefix(dir + "/" + rest, "./") && rest != [] && rest[|rest| - 1] != '/'
    ensures !MatchesPathspec(dir, dir + "/" + rest)
  {
    var t := dir + "/" + rest;
    NormalizePathMeans(dir);
    NormalizePathMeans(t);
    assert t[|t| - 1] == rest[|rest| - 1];
    assert NormalizePath(t) == t;
    assert |NormalizePath(dir)| <= |dir|;
    ParsePathspecMeans(dir);
  }

  /** Some pathspec of `paths` matches `target`. */
  predicate ContainsAny(paths: seq<string>, target: string) {
    exists i :: 0 <= i < |paths| && MatchesPathspec(paths[i], target)
  }

  /** `containsPath`: the pathspecs are tried in order until one matches. */
  method ContainsPath(paths: seq<string>, target: string) returns (b: bool)
    ensures b <==> ContainsAny(paths, target)
  {
    for i := 0 to |paths|
      invariant forall j :: 0 <= j < i ==> !MatchesPathspec(paths[j], target)
    {
      if MatchesPathspec(paths[i], target) {
        return true;
      }
    }
    return false;
  }

  // ------------------------------------------------------------------ colours

  /** The two fields of `ColorConfig` that `colored` reads. */
  datatype ColorConfig = ColorConfig(useColor: bool, normalColor: string)

  /**
    `colored`: `text` between `color` and the reset colour, or `text` alone
    when colours are off or `color` is empty.
   */
  function Colored(cfg: ColorConfig, color: string, text: string): (r: string)
    ensures !cfg.useColor || color == [] ==> r == text
    ensures cfg.useColor && color != [] ==>
      && |r| == |color| + |text| + |cfg.normalColor|
      && HasPrefix(r, color)
      && r[|color|..|color| + |text|] == text
      && HasSuffix(r, cfg.normalColor)
  {
    if !cfg.useColor || color == [] then text
    else
      var r := color + text + cfg.normalColor;
      assert r[..|color|] == color;
      assert r[|color|..|color| + |text|] == text;
      assert r[|r| - |cfg.normalColor|..] == cfg.normalColor;
      r
  }

  // ----------------------------------------------------------- terminal input

  /** The error a read past the end of the input reports (`io.EOF`). */
  const EndOfInput := "EOF"

  /** `promptYesNo`'s reading of one answer: y/yes, n/no in any case, or neither. */
  function YesNo(line: string): (r: Option<bool>)
    ensures r == Some(true) <==> var a := ToLower(TrimSpace(line)); a == "y" || a == "yes"
    ensures r == Some(false) <==> var a := ToLower(TrimSpace(line)); a == "n" || a == "no"
  {
    var a := ToLower(TrimSpace(line));
    if a == "y" || a == "yes" then Some(true)
    else if a == "n" || a == "no" then Some(false)
    else None
  }

  lemma YesNoExamples()
    ensures YesNo("Yes\n") == Some(true)
    ensures YesNo(" N ") == Some(false)
    ensures YesNo("yep") == None
    ensures YesNo("") == None
  {
    assert TrimSpace("Yes\n") == "Yes" by {
      assert "Yes\n"[..3] == "Yes";
    }
    assert ToLower("Yes") == "yes";
    assert TrimSpace(" N ") == "N" by {
      assert " N "[1..] == "N " && "N "[..1] == "N";
    }
    assert ToLower("N") == "n";
    TrimSpaceUnpadded("yep");
    assert ToLower("yep") == "yep";
  }

  /**
    `promptYesNo`: answers that are neither yes nor no are asked again; the
    first one that is decides. `lines` are the whole lines still to come,
    without their `\n`; `read` is the number of lines consumed.
   */
  method PromptYesNo(lines: seq<string>) returns (r: Result<bool>, read: nat)
    ensures read <= |lines|
    ensures forall i :: 0 <= i < read - 1 ==> YesNo(lines[i]).None?
    ensures if 0 < read && YesNo(lines[read - 1]).Some? then r == Success(YesNo(lines[read - 1]).value)
            else read == |lines| && r == Failure(EndOfInput)
  {
    read := 0;
    while true
      invariant read <= |lines|
      invariant forall i :: 0 <= i < read ==> YesNo(lines[i]).None?
      decreases |lines| - read
    {
      if read == |lines| {
        return Failure(EndOfInput), read;
      }
      var answer := YesNo(lines[read]);
      read := read + 1;
      if answer.Some? {
        return Success(answer.value), read;
      }
    }
  }

  /** One comma-separated choice: a number in 1..n after trimming, or nothing. */
  function ChoiceNumber(n: nat, choice: string): (k: Option<nat>)
    ensures k.Some? ==> 1 <= k.value <= n && Atoi(TrimSpace(choice)) == Some(k.value as int)
    ensures k.None? ==> match Atoi(TrimSpace(choice)) case None => true case Some(v) => v < 1 || n < v
  {
    match Atoi(TrimSpace(choice))
    case Some(v) => if 1 <= v <= n then Some(v as nat) else None
    case None => None
  }

  /** Every listed number picks its item, and a range such as `1-3` picks nothing. */
  lemma ChoiceNumberExamples(n: nat, k: nat)
    requires 1 <= k <= n
    ensures ChoiceNumber(n, NatToString(k)) == Some(k)
    ensures ChoiceNumber(n, "1-3") == None
    ensures ChoiceNumber(n, NatToString(n + 1)) == None
  {
    var s := NatToString(k);
    assert !IsSpace(s[0]) && !IsSpace(s[|s| - 1]);
    TrimSpaceUnpadded(s);
    AtoiNatToString(k);
    var t := NatToString(n + 1);
    assert !IsSpace(t[0]) && !IsSpace(t[|t| - 1]);
    TrimSpaceUnpadded(t);
    AtoiNatToString(n + 1);
    TrimSpaceUnpadded("1-3");
    assert !AllDigits("1-3") by { assert !IsDigit("1-3"[1]); }
  }

  /** The items the choices select, in the order the choices are written; the rest are skipped. */
  function Chosen<T>(items: seq<T>, choices: seq<string>): (sel: seq<T>)
    ensures |sel| <= |choices|
  {
    if choices == [] then []
    else Chosen(items, choices[..|choices| - 1]) + Pick(items, choices[|choices| - 1])
  }

  /** The item one choice selects, if any. */
  function Pick<T>(items: seq<T>, choice: string): (p: seq<T>)
    ensures |p| <= 1
    ensures p != [] <==> ChoiceNumber(|items|, choice).Some?
    ensures p != [] ==> p[0] == items[ChoiceNumber(|items|, choice).value - 1]
  {
    var k := ChoiceNumber(|items|, choice);
    if k.Some? then [items[k.value - 1]] else []
  }

  /** Choices are read one by one: the selection of a list of choices is the concatenation. */
  lemma {:induction false} ChosenConcat<T>(items: seq<T>, a: seq<string>, b: seq<string>)
    ensures Chosen(items, a + b) == Chosen(items, a) + Chosen(items, b)
    decreases |b|
  {
    if b == [] {
      assert a + b == a;
    } else {
      var b' := b[..|b| - 1];
      assert (a + b)[..|a + b| - 1] == a + b';
      assert (a + b)[|a + b| - 1] == b[|b| - 1];
      ChosenConcat(items, a, b');
    }
  }

  /** Only listed items are ever selected. */
  lemma {:induction false} ChosenItems<T>(items: seq<T>, choices: seq<string>, x: T)
    requires x in Chosen(items, choices)
    ensures x in items
    decreases |choices|
  {
    var init := choices[..|choices| - 1];
    var p := Pick(items, choices[|choices| - 1]);
    if x in p {
      assert x == p[0];
    } else {
      ChosenItems(items, init, x);
    }
  }

  /** A single choice selects its item or nothing. */
  lemma ChosenOne<T>(items: seq<T>, c: string)
    ensures Chosen(items, [c]) == Pick(items, c)
  {
    assert [c][..0] == [];
  }

  /** The selection grows by what the next choice picks. */
  lemma ChosenNext<T>(items: seq<T>, choices: seq<string>, i: nat)
    requires i < |choices|
    ensures Chosen(items, choices[..i + 1]) == Chosen(items, choices[..i]) + Pick(items, choices[i])
  {
    assert choices[..i + 1][..i] == choices[..i];
  }

  /** `listAndChoose`'s selection loop over one answer line. */
  method ChooseItems<T>(items: seq<T>, input: string) returns (selected: seq<T>)
    ensures selected == Chosen(items, SplitOn(input, ','))
  {
    selected := ChooseEach(items, SplitOn(input, ','));
  }

  /** The selection loop proper, over the comma-separated choices. */
  method ChooseEach<T>(items: seq<T>, choices: seq<string>) returns (selected: seq<T>)
    ensures selected == Chosen(items, choices)
  {
    selected := [];
    for i := 0 to |choices|
      invariant selected == Chosen(items, choices[..i])
    {
      ChosenNext(items, choices, i);
      var num := ChoiceNumber(|items|, choices[i]);
      if num.Some? {
        selected := selected + [items[num.value - 1]];
      }
    }
    assert choices[..|choices|] == choices;
  }

  /** An empty answer chooses nothing. */
  lemma EmptyAnswer<T>(items: seq<T>)
    ensures Chosen(items, SplitOn("", ',')) == []
  {
    assert SplitOn("", ',') == [""];
    ChosenOne(items, "");
    assert Atoi(TrimSpace("")) == None;
  }

  /**
    `listAndChoose`'s prompt loop: `?` answers (which show the help) are asked
    again; the first other answer, trimmed, is returned, or `None` when the
    input ends first. `lines` are whole lines, as for `PromptYesNo`.
   */
  method ReadAnswer(lines: seq<string>) returns (answer: Option<string>, read: nat)
    ensures read <= |lines|
    ensures forall i :: 0 <= i < read - 1 ==> TrimSpace(lines[i]) == "?"
    ensures if 0 < read && TrimSpace(lines[read - 1]) != "?" then answer == Some(TrimSpace(lines[read - 1]))
            else read == |lines| && answer == None
  {
    read := 0;
    while true
      invariant read <= |lines|
      invariant forall i :: 0 <= i < read ==> TrimSpace(lines[i]) == "?"
      decreases |lines| - read
    {
      if read == |lines| {
        return None, read;
      }
      var input := TrimSpace(lines[read]);
      read := read + 1;
      if input != "?" {
        return Some(input), read;
      }
    }
  }

  /**
    `listAndChoose`: no items gives nothing; with `immediate`, a single item is
    chosen without asking; otherwise the first answer that is not `?` is the
    selection, an empty answer choosing nothing.
   */
  method ListAndChoose<T>(items: seq<T>, immediate: bool, lines: seq<string>) returns (r: Result<seq<T>>, read: nat)
    ensures items == [] ==> r == Success([]) && read == 0
    ensures immediate && |items| == 1 ==> r == Success([items[0]]) && read == 0
    ensures items != [] && !(immediate && |items| == 1) ==>
      && read <= |lines|
      && (forall i :: 0 <= i < read - 1 ==> TrimSpace(lines[i]) == "?")
      && if 0 < read && TrimSpace(lines[read - 1]) != "?" then
           r == Success(Chosen(items, SplitOn(TrimSpace(lines[read - 1]), ',')))
         else read == |lines| && r == Failure(EndOfInput)
  {
    if |items| == 0 {
      return Success([]), 0;
    }
    // `listAndChoose` makes this test at the top of every round, before reading.
    if immediate && |items| == 1 {
      return Success([items[0]]), 0;
    }
    var answer;
    answer, read := ReadAnswer(lines);
    if answer.None? {
      return Failure(EndOfInput), read;
    }
    if answer.value == "" {
      EmptyAnswer(items);
      return Success([]), read;
    }
    var selected := ChooseItems(items, answer.value);
    return Success(selected), read;
  }

  // ----------------------------------------------------------- RunPatchMode

  /** What `patchUpdateFile` returned for one file. */
  datatype UpdateResult = Updated | UserQuit | AcceptAllHunks | UpdateFailed(error: string)

  /** The text of `ErrAcceptAll`. */
  const ErrAcceptAll := "accept all hunks in all files"

  /** The error `RunPatchMode` returns after the file that ended its loop: `ErrQuit` is not one. */
  function RunError(u: UpdateResult): (err: Option<string>)
    ensures err.None? <==> u.Updated? || u.UserQuit?
  {
    match u
    case Updated => None
    case UserQuit => None
    case AcceptAllHunks => Some(ErrAcceptAll)
    case UpdateFailed(e) => Some(e)
  }

  /** A file is offered: it is merged, not binary, and any pathspec given matches it. */
  predicate Eligible(f: FileStatus, paths: seq<string>) {
    !f.unmerged && !f.binary && (paths == [] || ContainsAny(paths, f.path))
  }

  /** The files `RunPatchMode` goes through, in listing order. */
  function Selected(files: seq<FileStatus>, paths: seq<string>): (sel: seq<FileStatus>)
    ensures |sel| <= |files|
  {
    if files == [] then []
    else
      var pre := Selected(files[..|files| - 1], paths);
      if Eligible(files[|files| - 1], paths) then pre + [files[|files| - 1]] else pre
  }

  /** A file is selected iff it is listed and eligible. */
  lemma {:induction false} SelectedMeans(files: seq<FileStatus>, paths: seq<string>, f: FileStatus)
    ensures f in Selected(files, paths) <==> f in files && Eligible(f, paths)
    decreases |files|
  {
    if files != [] {
      var init := files[..|files| - 1];
      SelectedMeans(init, paths, f);
      assert files == init + [files[|files| - 1]];
    }
  }

  /** Without pathspecs, exactly the merged text files are selected. */
  lemma NoPathspecs(files: seq<FileStatus>, f: FileStatus)
    ensures f in Selected(files, []) <==> f in files && !f.unmerged && !f.binary
  {
    SelectedMeans(files, [], f);
  }

  /** `RunPatchMode`'s filtering loop. */
  method FilterFiles(files: seq<FileStatus>, paths: seq<string>) returns (filtered: seq<FileStatus>)
    ensures filtered == Selected(files, paths)
  {
    filtered := [];
    for i := 0 to |files|
      invariant filtered == Selected(files[..i], paths)
    {
      assert files[..i + 1][..i] == files[..i];
      var file := files[i];
      if !file.unmerged && !file.binary {
        var keep := |paths| == 0;
        if !keep {
          keep := ContainsPath(paths, file.path);
        }
        if keep {
          filtered := filtered + [file];
        }
      }
    }
    assert files[..|files|] == files;
  }

  function Paths(files: seq<FileStatus>): (ps: seq<string>)
    ensures |ps| == |files| && forall i :: 0 <= i < |files| ==> ps[i] == files[i].path
  {
    seq(|files|, i requires 0 <= i < |files| => files[i].path)
  }

  // ---------------------------------------------------------- patchUpdateFile

  /** The `App` fields that outlive a file, `globalFilter` and `autoSplitEnabled`; `NewApp` sets neither. */
  datatype Globals = Globals(globalFilter: string, autoSplit: bool)

  /**
    What patch mode sees of the outside world: the pattern engine, and
    `ParseDiff` of each path for the run's mode and revision.
   */
  datatype Env = Env(re: Regex, diff: string -> Result<seq<Hunk>>)

  /** A successful parse gives usable hunks, as `parseHunks` produces them. */
  predicate UsableParse(parsed: Result<seq<Hunk>>) {
    parsed.Success? ==> AllUsable(parsed.value)
  }

  /** Every `ParseDiff` of the environment is a usable parse. */
  ghost predicate EnvOk(env: Env) {
    forall path :: UsableParse(env.diff(path))
  }

  /**
    The session `patchUpdateFile` opens a file with, if it prompts for the
    file at all: the prepared hunks from the first, under the `App`'s global
    filter and auto-split flag.
   */
  function Opening(env: Env, path: string, g: Globals): (o: Option<Session>)
    requires EnvOk(env)
    ensures o.Some? ==> env.diff(path).Success? && |env.diff(path).value| > 1
    ensures o.Some? ==>
      && ValidSession(o.value) && o.value.ix == 0 && |o.value.hunks| > 0
      && o.value.globalFilter == g.globalFilter && o.value.autoSplit == g.autoSplit
    ensures o.Some? && g.globalFilter != "" ==> AllMatch(env.re, g.globalFilter, o.value.hunks)
  {
    match env.diff(path)
    case Failure(_) => None
    case Success(hunks) =>
      PreludeMeans(env.re, hunks, g.autoSplit, g.globalFilter);
      match Prelude(env.re, hunks, g.autoSplit, g.globalFilter)
      case None => None
      case Some(prompted) => Some(Session(prompted, 0, g.globalFilter, g.autoSplit))
  }

  /** With auto-splitting on and no filter, a file opens with hunks that auto-split no further. */
  lemma OpensSettled(env: Env, path: string, g: Globals)
    requires EnvOk(env) && Opening(env, path, g).Some? && g.autoSplit && g.globalFilter == ""
    ensures var hs := Opening(env, path, g).value.hunks; AutoSplitAll(hs) == hs
  {
    var hunks := env.diff(path).value;
    assert AllUsable(hunks[1..]);
    AutoSplitProperties(hunks[1..], []);
  }

  /** How `patchUpdateFile` reports the end of its loop: `q` is `ErrQuit`, `A` is `ErrAcceptAll`, a failed read its error. */
  function ResultOf(o: Outcome): UpdateResult {
    match o
    case Quit => UserQuit
    case AcceptAllFiles => AcceptAllHunks
    case ReadFailed => UpdateFailed(EndOfInput)
    case _ => Updated
  }

  /** What updating one file gives: its result, the patch applied, the `App` fields it leaves and the input it leaves unread. */
  datatype FileRun = FileRun(result: UpdateResult, patch: Option<string>, after: Globals, rest: seq<Turn>)

  /** A suffix of well-answered input is well answered. */
  lemma TurnsSuffix(turns: seq<Turn>, k: nat)
    requires TurnsOk(turns) && k <= |turns|
    ensures TurnsOk(turns[k..])
  {
    assert forall i :: 0 <= i < |turns| - k ==> turns[k..][i] == turns[k + i];
  }

  /**
    `patchUpdateFile` on `path`, opened with the `App` fields `g` and reading
    `turns`. A `ParseDiff` error is returned and a file with nothing to
    prompt for is done at once, both leaving the fields and the input alone;
    otherwise the loop runs until a pass ends it and leaves its last global
    filter and auto-split flag in the `App`.
   */
  function PatchFile(env: Env, path: string, g: Globals, turns: seq<Turn>): (r: FileRun)
    requires EnvOk(env) && TurnsOk(turns)
    ensures |r.rest| <= |turns| && TurnsOk(r.rest)
    ensures g.autoSplit ==> r.after.autoSplit
  {
    match Opening(env, path, g)
    case None =>
      FileRun(if env.diff(path).Failure? then UpdateFailed(env.diff(path).error) else Updated, None, g, turns)
    case Some(s) =>
      var f := Loop(env.diff(path).value[0], s, turns);
      TurnsSuffix(turns, |turns| - |f.rest|);
      FileRun(ResultOf(f.outcome), f.patch, Globals(f.last.globalFilter, f.last.autoSplit), f.rest)
  }

  /**
    A `ParseDiff` error is returned and a file with nothing to prompt for is
    done at once, both leaving the `App` fields and the input alone; a file
    that is prompted for leaves the last global filter and auto-split flag
    of its session and reads on where its loop stopped.
   */
  lemma PatchFileMeans(env: Env, path: string, g: Globals, turns: seq<Turn>)
    requires EnvOk(env) && TurnsOk(turns)
    ensures var r := PatchFile(env, path, g, turns);
      && r.rest == turns[|turns| - |r.rest|..]
      && (env.diff(path).Failure? ==> r == FileRun(UpdateFailed(env.diff(path).error), None, g, turns))
      && (env.diff(path).Success? && Opening(env, path, g).None? ==> r == FileRun(Updated, None, g, turns))
      && (Opening(env, path, g).Some? ==>
            var f := Loop(env.diff(path).value[0], Opening(env, path, g).value, turns);
            && r == FileRun(ResultOf(f.outcome), f.patch, Globals(f.last.globalFilter, f.last.autoSplit), f.rest)
            && f.outcome != Continue)
  {
  }

  /**
    `patchUpdateFile`: the set-up, then the passes of its loop through a
    `PatchSession` until one ends it.
   */
  method PatchUpdateFile(env: Env, path: string, g: Globals, turns: seq<Turn>) returns (r: FileRun)
    requires EnvOk(env) && TurnsOk(turns)
    ensures r == PatchFile(env, path, g, turns)
  {
    var parsed := env.diff(path);
    if parsed.Failure? {
      return FileRun(UpdateFailed(parsed.error), None, g, turns);
    }
    var hunks := parsed.value;
    var prompted := PrepareHunks(env.re, hunks, g.autoSplit, g.globalFilter);
    if prompted.None? {
      return FileRun(Updated, None, g, turns);
    }
    PreludeMeans(env.re, hunks, g.autoSplit, g.globalFilter);
    var session := new PatchSession(hunks[0], prompted.value, g.globalFilter, g.autoSplit);
    ghost var goal := Loop(hunks[0], session.State(), turns);
    var rest := turns;
    while true
      invariant session.Valid() && session.header == hunks[0] && TurnsOk(rest)
      invariant Loop(hunks[0], session.State(), rest) == goal
      decreases |rest|
    {
      var prompts := UndecidedFrom(session.hunks, session.ix) < |session.hunks|;
      var turn := if rest == [] then Turn(None, NoAnswers) else rest[0];
      var outcome, patch := session.Step(turn.input, turn.w);
      if outcome != Continue {
        var left := if rest != [] && prompts then rest[1..] else rest;
        return FileRun(ResultOf(outcome), patch, Globals(session.globalFilter, session.autoSplit), left);
      }
      TurnsSuffix(rest, 1);
      rest := rest[1..];
    }
  }

  // ------------------------------------------------------------ the file loop

  /** One file's update: from its path, the `App` fields it is opened with and the input left, what it gives. */
  type FileStep = (string, Globals, seq<Turn>) -> FileRun

  /**
    `patchUpdateFile` in the environment `env` as a step of the file loop.
    The loop only ever hands it well-answered input (`TurnsOk`); any other
    input is left unread.
   */
  ghost function Updater(env: Env): (step: FileStep)
    requires EnvOk(env)
    ensures Performs(env, step)
  {
    (path, g, turns) => if TurnsOk(turns) then PatchFile(env, path, g, turns) else FileRun(Updated, None, g, turns)
  }

  /**
    `step` is `patchUpdateFile` in the environment `env` on well-answered
    input. The fact is used only where a `PatchFile` term is at hand.
   */
  ghost predicate Performs(env: Env, step: FileStep)
    requires EnvOk(env)
  {
    forall path, g, turns {:trigger PatchFile(env, path, g, turns)} ::
      TurnsOk(turns) ==> step(path, g, turns) == PatchFile(env, path, g, turns)
  }

  /**
    The run of the first `i` selected files: what the last of them gave or,
    for none, the `App` fields and the input the run starts with. Every file
    is opened with the fields the file before it left and reads on where it
    stopped.
   */
  function After(step: FileStep, sel: seq<string>, g: Globals, input: seq<Turn>, i: nat): (r: FileRun)
    requires i <= |sel|
    decreases i
  {
    if i == 0 then FileRun(Updated, None, g, input)
    else
      var p := After(step, sel, g, input, i - 1);
      step(sel[i - 1], p.after, p.rest)
  }

  /** The input stays well answered from file to file, and each file is `patchUpdateFile` on it. */
  lemma {:induction false} StepRuns(env: Env, step: FileStep, sel: seq<string>, g: Globals, input: seq<Turn>, i: nat)
    requires EnvOk(env) && Performs(env, step) && TurnsOk(input) && i <= |sel|
    ensures TurnsOk(After(step, sel, g, input, i).rest)
    ensures i > 0 ==>
      var p := After(step, sel, g, input, i - 1);
      TurnsOk(p.rest) && After(step, sel, g, input, i) == PatchFile(env, sel[i - 1], p.after, p.rest)
    decreases i
  {
    if i > 0 {
      StepRuns(env, step, sel, g, input, i - 1);
      var p := After(step, sel, g, input, i - 1);
      assert step(sel[i - 1], p.after, p.rest) == PatchFile(env, sel[i - 1], p.after, p.rest);
    }
  }

  /**
    The file loop's outcome: the files are updated in order, the first one
    that is not simply updated ends the loop with its `RunError`, and when all
    are updated there is no error. File `i` of `sel` gives `After(…, i + 1)`.
   */
  predicate Processed(step: FileStep, sel: seq<string>, g: Globals, input: seq<Turn>, visited: seq<string>, err: Option<string>) {
    && |visited| <= |sel|
    && visited == sel[..|visited|]
    && (forall i :: 1 <= i < |visited| ==> After(step, sel, g, input, i).result.Updated?)
    && if visited != [] && !After(step, sel, g, input, |visited|).result.Updated?
       then err == RunError(After(step, sel, g, input, |visited|).result)
       else |visited| == |sel| && err == None
  }

  /** The loop stops exactly at the first file that is not simply updated. */
  lemma StopsAtFirst(step: FileStep, sel: seq<string>, g: Globals, input: seq<Turn>, visited: seq<string>, err: Option<string>, k: nat)
    requires Processed(step, sel, g, input, visited, err)
    requires k < |sel| && !After(step, sel, g, input, k + 1).result.Updated?
    requires forall j :: 1 <= j <= k ==> After(step, sel, g, input, j).result.Updated?
    ensures visited == sel[..k + 1] && err == RunError(After(step, sel, g, input, k + 1).result)
  {
  }

  /** When every file is simply updated, all are visited and nothing is returned. */
  lemma AllUpdated(step: FileStep, sel: seq<string>, g: Globals, input: seq<Turn>, visited: seq<string>, err: Option<string>)
    requires Processed(step, sel, g, input, visited, err)
    requires forall j :: 1 <= j <= |sel| ==> After(step, sel, g, input, j).result.Updated?
    ensures visited == sel && err == None
  {
  }

  /** Accepting all hunks ends `RunPatchMode` with an error and leaves the later files alone. */
  lemma AcceptAllEndsRun(step: FileStep, sel: seq<string>, g: Globals, input: seq<Turn>, visited: seq<string>, err: Option<string>, k: nat)
    requires Processed(step, sel, g, input, visited, err)
    requires k < |sel| && After(step, sel, g, input, k + 1).result == AcceptAllHunks
    requires forall j :: 1 <= j <= k ==> After(step, sel, g, input, j).result.Updated?
    ensures err == Some(ErrAcceptAll) && |visited| == k + 1
  {
    StopsAtFirst(step, sel, g, input, visited, err, k);
  }

  /**
    A file is opened with the global filter and auto-split flag the session
    of the file before it ended with: a filter set with `G` pre-filters the
    next file, and an `S` leaves it auto-split.
   */
  lemma CarryOver(env: Env, sel: seq<string>, g: Globals, input: seq<Turn>, k: nat)
    requires EnvOk(env) && TurnsOk(input) && k + 1 < |sel|
    requires Opening(env, sel[k], After(Updater(env), sel, g, input, k).after).Some?
    ensures TurnsOk(After(Updater(env), sel, g, input, k).rest)
    ensures var before := After(Updater(env), sel, g, input, k);
      var f := Loop(env.diff(sel[k]).value[0], Opening(env, sel[k], before.after).value, before.rest);
      var next := Opening(env, sel[k + 1], After(Updater(env), sel, g, input, k + 1).after);
      && After(Updater(env), sel, g, input, k + 1).after == Globals(f.last.globalFilter, f.last.autoSplit)
      && (next.Some? ==> next.value.globalFilter == f.last.globalFilter && next.value.autoSplit == f.last.autoSplit)
      && (next.Some? && f.last.globalFilter != "" ==> AllMatch(env.re, f.last.globalFilter, next.value.hunks))
  {
    StepRuns(env, Updater(env), sel, g, input, k + 1);
    StepRuns(env, Updater(env), sel, g, input, k);
    var before := After(Updater(env), sel, g, input, k);
    PatchFileMeans(env, sel[k], before.after, before.rest);
  }

  /** A step that never turns auto-splitting off. */
  ghost predicate KeepsAutoSplit(step: FileStep) {
    forall path, g: Globals, turns :: g.autoSplit ==> step(path, g, turns).after.autoSplit
  }

  /** `patchUpdateFile` never turns auto-splitting off: no key of the loop clears `autoSplitEnabled`. */
  lemma UpdaterKeepsAutoSplit(env: Env)
    requires EnvOk(env)
    ensures KeepsAutoSplit(Updater(env))
  {
  }

  /** Once auto-splitting is on, it stays on for every later file of the run. */
  lemma {:induction false} AutoSplitSticky(step: FileStep, sel: seq<string>, g: Globals, input: seq<Turn>, i: nat, j: nat)
    requires KeepsAutoSplit(step) && i <= j <= |sel|
    requires After(step, sel, g, input, i).after.autoSplit
    ensures After(step, sel, g, input, j).after.autoSplit
    decreases j
  {
    if i < j {
      AutoSplitSticky(step, sel, g, input, i, j - 1);
    }
  }

  /** `RunPatchMode`'s file loop, from the `App` fields `g` and the input `input`; `app` is what it leaves in the `App`. */
  method UpdateFiles(env: Env, ghost step: FileStep, files: seq<FileStatus>, g: Globals, input: seq<Turn>)
    returns (err: Option<string>, visited: seq<string>, app: Globals)
    requires EnvOk(env) && Performs(env, step) && TurnsOk(input)
    ensures Processed(step, Paths(files), g, input, visited, err)
    ensures app == After(step, Paths(files), g, input, |visited|).after
  {
    var sel := Paths(files);
    visited := [];
    var cur := FileRun(Updated, None, g, input);
    for i := 0 to |files|
      invariant visited == sel[..i]
      invariant cur == After(step, sel, g, input, i)
      invariant forall j :: 1 <= j <= i ==> After(step, sel, g, input, j).result.Updated?
    {
      cur := UpdateNext(env, step, sel, g, input, i, cur);
      PrefixSnoc(sel, i);
      visited := visited + [sel[i]];
      if !cur.result.Updated? {
        ProcessedStop(step, sel, g, input, i);
        return RunError(cur.result), visited, cur.after;
      }
    }
    ProcessedAll(step, sel, g, input);
    return None, visited, cur.after;
  }

  /** File `i` of the run: `patchUpdateFile` with what the files before it left. */
  method UpdateNext(env: Env, ghost step: FileStep, sel: seq<string>, g: Globals, input: seq<Turn>, i: nat, cur: FileRun)
    returns (next: FileRun)
    requires EnvOk(env) && Performs(env, step) && TurnsOk(input) && i < |sel|
    requires cur == After(step, sel, g, input, i)
    ensures next == After(step, sel, g, input, i + 1)
  {
    StepRuns(env, step, sel, g, input, i);
    StepRuns(env, step, sel, g, input, i + 1);
    next := PatchUpdateFile(env, sel[i], cur.after, cur.rest);
  }

  /** A prefix grows by the next element. */
  lemma PrefixSnoc<T>(s: seq<T>, i: nat)
    requires i < |s|
    ensures s[..i] + [s[i]] == s[..i + 1]
  {
  }

  /** Stopping at the first file that is not simply updated is the loop's outcome. */
  lemma ProcessedStop(step: FileStep, sel: seq<string>, g: Globals, input: seq<Turn>, k: nat)
    requires k < |sel|
    requires forall j :: 1 <= j <= k ==> After(step, sel, g, input, j).result.Updated?
    requires !After(step, sel, g, input, k + 1).result.Updated?
    ensures Processed(step, sel, g, input, sel[..k + 1], RunError(After(step, sel, g, input, k + 1).result))
  {
  }

  /** Updating every file is the loop's outcome when each is simply updated. */
  lemma ProcessedAll(step: FileStep, sel: seq<string>, g: Globals, input: seq<Turn>)
    requires forall j :: 1 <= j <= |sel| ==> After(step, sel, g, input, j).result.Updated?
    ensures Processed(step, sel, g, input, sel, None)
  {
    assert sel[..|sel|] == sel;
  }

  /**
    `RunPatchMode`: the mode must be known; the mode's listing (`list`, given
    the mode's filter) is filtered, and the selected files are updated one by
    one, from the `App` fields `g`, until one quits, fails or asks to accept
    everything. `env.diff` is `ParseDiff` for this mode and revision.
   */
  method RunPatchMode(mode: string, paths: seq<string>, list: string -> Result<seq<FileStatus>>,
                      env: Env, g: Globals, input: seq<Turn>)
    returns (err: Option<string>, visited: seq<string>)
    requires EnvOk(env) && TurnsOk(input)
    ensures LookupMode(mode).None? ==> err == Some("unknown patch mode: " + mode) && visited == []
    ensures LookupMode(mode).Some? && list(LookupMode(mode).value.filter).Failure? ==>
      err == Some(list(LookupMode(mode).value.filter).error) && visited == []
    ensures LookupMode(mode).Some? && list(LookupMode(mode).value.filter).Success? ==>
      Processed(Updater(env), Paths(Selected(list(LookupMode(mode).value.filter).value, paths)), g, input, visited, err)
  {
    var patchMode := LookupMode(mode);
    if patchMode.None? {
      return Some("unknown patch mode: " + mode), [];
    }
    var files := list(patchMode.value.filter);
    if files.Failure? {
      return Some(files.error), [];
    }
    var filtered := FilterFiles(files.value, paths);
    if |filtered| == 0 {
      // "No changes."
      return None, [];
    }
    var app;
    err, visited, app := UpdateFiles(env, Updater(env), filtered, g, input);
  }
}
