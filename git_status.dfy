/**
  The status parsers of internal/git/status.go: the lines of
  `git diff-index --numstat --summary` and `git diff-files --numstat
  --summary --raw` update a path-to-status table in place, and the listing
  keeps the entries the filter asks for. Running git is left to the caller:
  the lines come in as parameters, and so does `strconv.Unquote`.
 */
module GitStatus {
  import opened Wrappers
  import opened Strs

  /** `FileStatus`: `Index`/`File` are `unchanged`/`nothing`, `binary` or `+add/-del`. */
  datatype FileStatus = FileStatus(
    path: string,
    binary: bool,
    index: string,
    file: string,
    indexAddDel: string,
    fileAddDel: string,
    unmerged: bool)

  /** The entry a path gets when a line names it for the first time. */
  const Unseen := FileStatus("", false, "unchanged", "nothing", "", "", false)

  /** `strconv.Unquote`: the value of a Go string literal, or `None` when it is not one. */
  type Unquoter = string -> Option<string>

  predicate Quoted(path: string) {
    |path| >= 2 && path[0] == '"' && path[|path| - 1] == '"'
  }

  /** `unquotePath`: a quoted path that unquotes is replaced by its value; any other path is kept. */
  function UnquotePath(unquote: Unquoter, path: string): (r: string)
    ensures r == path || (Quoted(path) && unquote(path) == Some(r))
    ensures Quoted(path) && unquote(path).Some? ==> r == unquote(path).value
  {
    if Quoted(path) && unquote(path).Some? then unquote(path).value else path
  }

  // ---------------------------------------------------------------------------
  // The line grammars, written out instead of regular expressions

  predicate IsOctal(c: char) {
    '0' <= c <= '7'
  }

  predicate IsHex(c: char) {
    '0' <= c <= '9' || 'a' <= c <= 'f'
  }

  /** The character classes `[0-7]` and `[0-9a-f]`. */
  datatype CharClass = Octal | Hex

  predicate In(c: char, k: CharClass) {
    match k
    case Octal => IsOctal(c)
    case Hex => IsHex(c)
  }

  predicate AllIn(s: string, k: CharClass) {
    forall i :: 0 <= i < |s| ==> In(s[i], k)
  }

  predicate NoNewline(s: string) {
    forall i :: 0 <= i < |s| ==> s[i] != '\n'
  }

  /** The length of the longest prefix of `s` made of characters of class `k`. */
  function Span(s: string, k: CharClass): (n: nat)
    ensures n <= |s|
    ensures forall i :: 0 <= i < n ==> In(s[i], k)
    ensures n < |s| ==> !In(s[n], k)
  {
    if s == [] || !In(s[0], k) then 0 else 1 + Span(s[1..], k)
  }

  /** A word of regular-expression characters class `k` with its length bounds (`hi` absent for `+`). */
  datatype WordSpec = WordSpec(k: CharClass, lo: nat, hi: Option<nat>)

  predicate Fits(w: string, sp: WordSpec) {
    sp.lo <= |w| && (sp.hi.Some? ==> |w| <= sp.hi.value) && AllIn(w, sp.k)
  }

  /** The words, each followed by a space, then `tail`. */
  function Spaced(ws: seq<string>, tail: string): string
    decreases |ws|
  {
    if ws == [] then tail else ws[0] + " " + Spaced(ws[1..], tail)
  }

  /** A word as `sp` describes it, then a space: the word and what follows the space. */
  function Word(s: string, sp: WordSpec): (r: Option<(string, string)>)
    ensures r.Some? ==> Fits(r.value.0, sp) && s == r.value.0 + " " + r.value.1
  {
    var n := Span(s, sp.k);
    if sp.lo <= n && (sp.hi.Some? ==> n <= sp.hi.value) && n < |s| && s[n] == ' ' then
      assert s == s[..n] + " " + s[n + 1..] by { AroundIndex(s, n); }
      Some((s[..n], s[n + 1..]))
    else None
  }

  /** Words as `sps` describes them, one after the other: the words and what follows the last space. */
  function Words(s: string, sps: seq<WordSpec>): (r: Option<(seq<string>, string)>)
    ensures r.Some? ==> |r.value.0| == |sps| && (forall i :: 0 <= i < |sps| ==> Fits(r.value.0[i], sps[i]))
    ensures r.Some? ==> s == Spaced(r.value.0, r.value.1)
    decreases |sps|
  {
    if sps == [] then Some(([], s))
    else
      match Word(s, sps[0])
      case None => None
      case Some((w, rest)) =>
        match Words(rest, sps[1..])
        case None => None
        case Some((ws, tail)) =>
          assert ([w] + ws)[1..] == ws;
          Some(([w] + ws, tail))
  }

  lemma {:induction false} SpanOf(w: string, rest: string, k: CharClass)
    requires AllIn(w, k)
    requires rest != [] && !In(rest[0], k)
    ensures Span(w + rest, k) == |w|
    decreases |w|
  {
    if w != [] {
      assert (w + rest)[0] == w[0];
      assert (w + rest)[1..] == w[1..] + rest;
      SpanOf(w[1..], rest, k);
    }
  }

  /** A word that fits, followed by a space, is read back exactly. */
  lemma WordOf(w: string, rest: string, sp: WordSpec)
    requires Fits(w, sp)
    ensures Word(w + " " + rest, sp) == Some((w, rest))
  {
    var s := w + " " + rest;
    assert s == w + (" " + rest);
    SpanOf(w, " " + rest, sp.k);
    assert s[..|w|] == w && s[|w| + 1..] == rest;
  }

  /** Words that fit, each followed by a space, are read back exactly. */
  lemma {:induction false} WordsOf(ws: seq<string>, tail: string, sps: seq<WordSpec>)
    requires |ws| == |sps| && forall i :: 0 <= i < |sps| ==> Fits(ws[i], sps[i])
    ensures Words(Spaced(ws, tail), sps) == Some((ws, tail))
    decreases |sps|
  {
    if sps != [] {
      WordOf(ws[0], Spaced(ws[1..], tail), sps[0]);
      WordsOf(ws[1..], tail, sps[1..]);
      assert [ws[0]] + ws[1..] == ws;
    }
  }

  /** A summary line ` create mode 100644 path` or ` delete mode 100644 path`. */
  datatype Summary = Summary(op: string, mode: string, path: string)

  const ModeWord := WordSpec(Octal, 1, None)

  predicate ValidSummary(x: Summary) {
    (x.op == "create" || x.op == "delete") && Fits(x.mode, ModeWord) && NoNewline(x.path)
  }

  /** The text before the mode word: ` create mode ` or ` delete mode `. */
  function OpPrefix(op: string): string {
    " " + op + " mode "
  }

  function SummaryText(x: Summary): string {
    OpPrefix(x.op) + (x.mode + " " + x.path)
  }

  /** The operation a line starts with, or "" for neither. */
  function SummaryOp(line: string): string {
    if HasPrefix(line, OpPrefix("create")) then "create"
    else if HasPrefix(line, OpPrefix("delete")) then "delete"
    else ""
  }

  /** A line with an operation is that operation's prefix followed by the rest. */
  lemma SummaryOpMeans(line: string)
    ensures var op := SummaryOp(line);
      op != "" ==> HasPrefix(line, OpPrefix(op)) && line == OpPrefix(op) + line[13..]
  {
    var op := SummaryOp(line);
    if op != "" {
      assert |OpPrefix(op)| == 13;
      assert line == line[..13] + line[13..];
    }
  }

  /** A line written for an operation starts with that operation. */
  lemma SummaryOpOf(op: string, rest: string)
    requires op == "create" || op == "delete"
    ensures SummaryOp(OpPrefix(op) + rest) == op && (OpPrefix(op) + rest)[13..] == rest
  {
    var line := OpPrefix(op) + rest;
    assert |OpPrefix(op)| == 13;
    assert line[..13] == OpPrefix(op);
    assert line[1] == op[0];
    assert OpPrefix("create")[1] == 'c';
  }

  /** The pattern `^ (create|delete) mode [0-7]+ (.*)$`. */
  function ParseSummary(line: string): (r: Option<Summary>)
    ensures r.Some? ==> ValidSummary(r.value) && SummaryText(r.value) == line
  {
    var op := SummaryOp(line);
    if op == "" then None
    else
      SummaryOpMeans(line);
      match Word(line[13..], ModeWord)
      case None => None
      case Some((mode, path)) => if NoNewline(path) then Some(Summary(op, mode, path)) else None
  }

  /** Every well-formed summary line is read back as what it was written from. */
  lemma SummaryRoundTrip(x: Summary)
    requires ValidSummary(x)
    ensures ParseSummary(SummaryText(x)) == Some(x)
  {
    SummaryOpOf(x.op, x.mode + " " + x.path);
    WordOf(x.mode, x.path, ModeWord);
  }

  /** A raw line `:100644 100644 <sha> <sha> M\tpath`. */
  datatype Raw = Raw(srcMode: string, dstMode: string, srcHash: string, dstHash: string, status: char, path: string)

  /** The four words of a raw line: `[0-7]+ [0-7]+ [0-9a-f]{7,40} [0-9a-f]{7,40} `. */
  const RawWords := [ModeWord, ModeWord, WordSpec(Hex, 7, Some(40)), WordSpec(Hex, 7, Some(40))]

  function RawWordsOf(x: Raw): seq<string> {
    [x.srcMode, x.dstMode, x.srcHash, x.dstHash]
  }

  predicate ValidRaw(x: Raw) {
    && (forall i :: 0 <= i < 4 ==> Fits(RawWordsOf(x)[i], RawWords[i]))
    && x.status != '\n' && NoNewline(x.path)
  }

  function RawText(x: Raw): string {
    ":" + Spaced(RawWordsOf(x), [x.status] + "\t" + x.path)
  }

  /** What follows the two hashes: one status character, a tab and the path. */
  function RawTail(s: string): (r: Option<(char, string)>)
    ensures r.Some? ==> r.value.0 != '\n' && NoNewline(r.value.1) && s == [r.value.0] + "\t" + r.value.1
  {
    if |s| >= 2 && s[0] != '\n' && s[1] == '\t' && NoNewline(s[2..]) then
      assert s == [s[0]] + "\t" + s[2..];
      Some((s[0], s[2..]))
    else None
  }

  /** The pattern `^:[0-7]+ [0-7]+ [0-9a-f]{7,40} [0-9a-f]{7,40} (.)\t(.*)$`. */
  function ParseRaw(line: string): Option<Raw> {
    if line == [] || line[0] != ':' then None
    else
      match Words(line[1..], RawWords)
      case None => None
      case Some((ws, t)) =>
        match RawTail(t)
        case None => None
        case Some((st, path)) => Some(Raw(ws[0], ws[1], ws[2], ws[3], st, path))
  }

  /** A line read as a raw line is well formed and is what that raw line is written as. */
  lemma ParseRawMeans(line: string)
    ensures var r := ParseRaw(line);
      r.Some? ==> ValidRaw(r.value) && RawText(r.value) == line
  {
    if line != [] && line[0] == ':' {
      assert line == ":" + line[1..];
      var w := Words(line[1..], RawWords);
      if w.Some? && RawTail(w.value.1).Some? {
        var ws := w.value.0;
        var x := ParseRaw(line).value;
        assert RawWordsOf(x) == ws;
      }
    }
  }

  /** Every well-formed raw line is read back as what it was written from. */
  lemma RawRoundTrip(x: Raw)
    requires ValidRaw(x)
    ensures ParseRaw(RawText(x)) == Some(x)
  {
    var tail := [x.status] + "\t" + x.path;
    var line := RawText(x);
    assert line[1..] == Spaced(RawWordsOf(x), tail);
    WordsOf(RawWordsOf(x), tail, RawWords);
    assert tail[2..] == x.path;
  }

  // ---------------------------------------------------------------------------
  // What one line does to the table

  /** A numstat line: at least three tab-separated fields, of which the first three count. */
  function Numstat(line: string): (r: Option<(string, string, string)>)
  {
    var parts := SplitOn(line, '\t');
    if |parts| >= 3 then Some((parts[0], parts[1], parts[2])) else None
  }

  /** The entry of `path`, or the entry it would be created with. */
  function Entry(m: map<string, FileStatus>, path: string): FileStatus {
    if path in m then m[path] else Unseen
  }

  predicate BinaryCounts(add: string, del: string) {
    add == "-" && del == "-"
  }

  /** The `Index`/`File` text of a numstat line. */
  function CountsText(add: string, del: string): string {
    if BinaryCounts(add, del) then "binary" else "+" + add + "/-" + del
  }

  /** Which column of the table a line of `diff-index` (index) or `diff-files` (file) writes. */
  datatype Side = IndexSide | FileSide

  /** A numstat line's counts written into one column of an entry. */
  function WithCounts(st: FileStatus, side: Side, add: string, del: string): FileStatus {
    if BinaryCounts(add, del) then
      if side == IndexSide then st.(index := "binary", binary := true) else st.(file := "binary", binary := true)
    else
      if side == IndexSide then st.(index := "+" + add + "/-" + del) else st.(file := "+" + add + "/-" + del)
  }

  /** A summary line's operation written into one column of an entry. */
  function WithAddDel(st: FileStatus, side: Side, op: string): FileStatus {
    if side == IndexSide then st.(indexAddDel := op) else st.(fileAddDel := op)
  }

  /** A raw line's status letter applied to an entry. */
  function WithRawStatus(st: FileStatus, status: char): FileStatus {
    if status == 'U' then st.(unmerged := true) else st
  }

  /** What a line is to the parsers, in the order they try: counts, a summary, a raw status, or nothing they know. */
  datatype LineKind = Counts(add: string, del: string, path: string) | AddDel(summary: Summary) | RawStatus(raw: Raw) | Unrecognised

  /** The kinds `parseIndexLine` tries: numstat, then summary. */
  function IndexLineKind(line: string): (kind: LineKind)
    ensures !kind.RawStatus?
  {
    match Numstat(line)
    case Some((add, del, path)) => Counts(add, del, path)
    case None =>
      match ParseSummary(line)
      case Some(x) => AddDel(x)
      case None => Unrecognised
  }

  /** The kinds `parseFileLine` tries: numstat, then summary, then raw. */
  function FileLineKind(line: string): LineKind {
    match Numstat(line)
    case Some((add, del, path)) => Counts(add, del, path)
    case None =>
      match ParseSummary(line)
      case Some(x) => AddDel(x)
      case None =>
        match ParseRaw(line)
        case Some(x) => RawStatus(x)
        case None => Unrecognised
  }

  /** The table path a line of that kind names, if any. */
  function KindKey(kind: LineKind, unquote: Unquoter): Option<string> {
    match kind
    case Counts(_, _, path) => Some(UnquotePath(unquote, path))
    case AddDel(x) => Some(UnquotePath(unquote, x.path))
    case RawStatus(x) => Some(UnquotePath(unquote, x.path))
    case Unrecognised => None
  }

  /** What a line of that kind does to the table, writing into `side`'s columns. */
  function Apply(m: map<string, FileStatus>, side: Side, kind: LineKind, unquote: Unquoter): map<string, FileStatus> {
    match kind
    case Counts(add, del, path) =>
      var file := UnquotePath(unquote, path);
      m[file := WithCounts(Entry(m, file), side, add, del)]
    case AddDel(x) =>
      var file := UnquotePath(unquote, x.path);
      m[file := WithAddDel(Entry(m, file), side, x.op)]
    case RawStatus(x) =>
      var file := UnquotePath(unquote, x.path);
      m[file := WithRawStatus(Entry(m, file), x.status)]
    case Unrecognised => m
  }

  /** `parseIndexLine` */
  function IndexLineUpdate(m: map<string, FileStatus>, line: string, unquote: Unquoter): map<string, FileStatus> {
    Apply(m, IndexSide, IndexLineKind(line), unquote)
  }

  /** `parseFileLine` */
  function FileLineUpdate(m: map<string, FileStatus>, line: string, unquote: Unquoter): map<string, FileStatus> {
    Apply(m, FileSide, FileLineKind(line), unquote)
  }

  /** The path an index line names, if it is a line the parser recognises. */
  function IndexKey(line: string, unquote: Unquoter): Option<string> {
    KindKey(IndexLineKind(line), unquote)
  }

  /** The path a file line names, if it is a line the parser recognises. */
  function FileKey(line: string, unquote: Unquoter): Option<string> {
    KindKey(FileLineKind(line), unquote)
  }

  function KeySet(k: Option<string>): set<string> {
    if k.Some? then {k.value} else {}
  }

  /**
    A line touches only the path it names: that path gets an entry, every
    other entry stays, its path field stays, and a line the parser does not
    recognise changes nothing.
   */
  lemma ApplyTouchesOne(m: map<string, FileStatus>, side: Side, kind: LineKind, unquote: Unquoter)
    ensures var r, k := Apply(m, side, kind, unquote), KindKey(kind, unquote);
      && r.Keys == m.Keys + KeySet(k)
      && (forall p :: p in m && Some(p) != k ==> r[p] == m[p])
      && (k.Some? ==> r[k.value].path == Entry(m, k.value).path)
      && (k.None? ==> r == m)
  {
  }

  /** The columns of the other side are left alone; only a raw line changes `Unmerged`. */
  lemma ApplyOtherSide(m: map<string, FileStatus>, side: Side, kind: LineKind, unquote: Unquoter)
    ensures var r, k := Apply(m, side, kind, unquote), KindKey(kind, unquote);
      && (k.Some? && side == IndexSide ==> r[k.value].file == Entry(m, k.value).file && r[k.value].fileAddDel == Entry(m, k.value).fileAddDel)
      && (k.Some? && side == FileSide ==> r[k.value].index == Entry(m, k.value).index && r[k.value].indexAddDel == Entry(m, k.value).indexAddDel)
      && (k.Some? && !kind.RawStatus? ==> r[k.value].unmerged == Entry(m, k.value).unmerged)
  {
  }

  /**
    An index line touches only the path it names: that path gets an entry,
    every other entry stays, a new entry starts from `Unseen` (so its `File`
    is `nothing`), and a line the parser does not recognise changes nothing.
   */
  lemma IndexLineTouchesOne(m: map<string, FileStatus>, line: string, unquote: Unquoter)
    ensures var r, k := IndexLineUpdate(m, line, unquote), IndexKey(line, unquote);
      && r.Keys == m.Keys + KeySet(k)
      && (forall p :: p in m && Some(p) != k ==> r[p] == m[p])
      && (k.Some? ==> r[k.value].file == Entry(m, k.value).file && r[k.value].fileAddDel == Entry(m, k.value).fileAddDel
                      && r[k.value].unmerged == Entry(m, k.value).unmerged && r[k.value].path == Entry(m, k.value).path)
      && (k.None? ==> r == m)
  {
    ApplyTouchesOne(m, IndexSide, IndexLineKind(line), unquote);
    ApplyOtherSide(m, IndexSide, IndexLineKind(line), unquote);
  }

  /**
    A file line touches only the path it names: that path gets an entry,
    every other entry stays, a new entry starts from `Unseen` (so its `Index`
    is `unchanged`), and a line the parser does not recognise changes nothing.
   */
  lemma FileLineTouchesOne(m: map<string, FileStatus>, line: string, unquote: Unquoter)
    ensures var r, k := FileLineUpdate(m, line, unquote), FileKey(line, unquote);
      && r.Keys == m.Keys + KeySet(k)
      && (forall p :: p in m && Some(p) != k ==> r[p] == m[p])
      && (k.Some? ==> r[k.value].index == Entry(m, k.value).index && r[k.value].indexAddDel == Entry(m, k.value).indexAddDel
                      && r[k.value].path == Entry(m, k.value).path)
      && (k.None? ==> r == m)
  {
    ApplyTouchesOne(m, FileSide, FileLineKind(line), unquote);
    ApplyOtherSide(m, FileSide, FileLineKind(line), unquote);
  }

  predicate NoTab(s: string) {
    forall i :: 0 <= i < |s| ==> s[i] != '\t'
  }

  /** The fields of a numstat line: at least three, none holding a tab. */
  predicate NumstatFields(fields: seq<string>) {
    |fields| >= 3 && forall k :: 0 <= k < |fields| ==> NoTab(fields[k])
  }

  /** The line `add\tdel\tpath` (with possibly more fields) reads as its first three fields. */
  lemma NumstatOf(fields: seq<string>)
    requires NumstatFields(fields)
    ensures Numstat(Join(fields, "\t")) == Some((fields[0], fields[1], fields[2]))
  {
    var line := Join(fields, "\t");
    SplitJoin(fields, '\t');
    var parts := SplitOn(line, '\t');
    assert parts == fields;
  }

  /**
    A numstat line on the index side sets `Index` to `binary` (and `Binary`)
    when both counts are `-`, and to `+add/-del` otherwise; `File` is left as
    it was, or `nothing` for a new path.
   */
  lemma IndexNumstat(m: map<string, FileStatus>, fields: seq<string>, unquote: Unquoter)
    requires NumstatFields(fields)
    ensures var r, add, del, f := IndexLineUpdate(m, Join(fields, "\t"), unquote), fields[0], fields[1], UnquotePath(unquote, fields[2]);
      && f in r && r[f].index == CountsText(add, del)
      && r[f].binary == (BinaryCounts(add, del) || Entry(m, f).binary)
      && r[f].file == (if f in m then m[f].file else "nothing")
  {
    NumstatOf(fields);
  }

  /** The same on the work-tree side, for `File`; `Index` stays, or is `unchanged` for a new path. */
  lemma FileNumstat(m: map<string, FileStatus>, fields: seq<string>, unquote: Unquoter)
    requires NumstatFields(fields)
    ensures var r, add, del, f := FileLineUpdate(m, Join(fields, "\t"), unquote), fields[0], fields[1], UnquotePath(unquote, fields[2]);
      && f in r && r[f].file == CountsText(add, del)
      && r[f].binary == (BinaryCounts(add, del) || Entry(m, f).binary)
      && r[f].index == (if f in m then m[f].index else "unchanged")
  {
    NumstatOf(fields);
  }

  /** A summary line records its operation as `IndexAddDel` (index side) or `FileAddDel` (file side). */
  lemma SummaryLines(m: map<string, FileStatus>, x: Summary, unquote: Unquoter)
    requires ValidSummary(x) && NoTab(x.path)
    ensures var f, ri, rf := UnquotePath(unquote, x.path), IndexLineUpdate(m, SummaryText(x), unquote), FileLineUpdate(m, SummaryText(x), unquote);
      && f in ri && ri[f].indexAddDel == x.op
      && f in rf && rf[f].fileAddDel == x.op
  {
    SummaryRoundTrip(x);
    SummaryNoTab(x);
    assert Numstat(SummaryText(x)).None?;
  }

  /** A raw line marks its path unmerged exactly when its status letter is `U`, and otherwise only makes sure the entry exists. */
  lemma RawLines(m: map<string, FileStatus>, x: Raw, unquote: Unquoter)
    requires ValidRaw(x) && x.status != '\t' && NoTab(x.path)
    ensures var r, f := FileLineUpdate(m, RawText(x), unquote), UnquotePath(unquote, x.path);
      && f in r && r[f].unmerged == (x.status == 'U' || Entry(m, f).unmerged)
      && (x.status != 'U' ==> r[f] == Entry(m, f))
  {
    RawRoundTrip(x);
    var line, ws := RawText(x), RawWordsOf(x);
    SpacedTab(ws, [x.status], x.path);
    var a := ":" + Spaced(ws, [x.status]);
    assert line == a + "\t" + x.path;
    forall i | 0 <= i < |ws|
      ensures NoTab(ws[i])
    {
      ClassNoTab(ws[i], RawWords[i].k);
    }
    SpacedNoTab(ws, [x.status]);
    RawSplit(line, a, x.path);
    assert ParseSummary(line).None? by {
      assert line[0] == ':';
    }
  }

  lemma {:induction false} SpacedTab(ws: seq<string>, u: string, p: string)
    ensures Spaced(ws, u + "\t" + p) == Spaced(ws, u) + "\t" + p
    decreases |ws|
  {
    if ws != [] {
      SpacedTab(ws[1..], u, p);
    }
  }

  lemma {:induction false} SpacedNoTab(ws: seq<string>, u: string)
    requires NoTab(u) && forall i :: 0 <= i < |ws| ==> NoTab(ws[i])
    ensures NoTab(Spaced(ws, u))
    decreases |ws|
  {
    if ws != [] {
      SpacedNoTab(ws[1..], u);
      NoTabConcat(ws[0] + " ", Spaced(ws[1..], u));
    }
  }

  lemma SummaryNoTab(x: Summary)
    requires ValidSummary(x) && NoTab(x.path)
    ensures NoTab(SummaryText(x))
  {
    ClassNoTab(x.mode, Octal);
    NoTabConcat(x.mode, " ");
    NoTabConcat(x.mode + " ", x.path);
    assert NoTab(OpPrefix(x.op));
    NoTabConcat(OpPrefix(x.op), x.mode + " " + x.path);
  }

  lemma NoTabConcat(a: string, b: string)
    requires NoTab(a) && NoTab(b)
    ensures NoTab(a + b)
  {
  }

  lemma ClassNoTab(w: string, k: CharClass)
    requires AllIn(w, k)
    ensures NoTab(w)
  {
    assert forall i :: 0 <= i < |w| ==> In(w[i], k);
  }

  /** A line with exactly one tab is no numstat line. */
  lemma RawSplit(line: string, a: string, b: string)
    requires line == a + "\t" + b && NoTab(a) && NoTab(b)
    ensures Numstat(line).None?
  {
    SplitJoin([a, b], '\t');
    assert Join([a, b], "\t") == line;
  }

  // ---------------------------------------------------------------------------
  // The table

  /** The lines of one diff run, folded into the table in order. */
  function FoldIndex(m: map<string, FileStatus>, lines: seq<string>, unquote: Unquoter): map<string, FileStatus>
  {
    if lines == [] then m else IndexLineUpdate(FoldIndex(m, lines[..|lines| - 1], unquote), lines[|lines| - 1], unquote)
  }

  function FoldFile(m: map<string, FileStatus>, lines: seq<string>, unquote: Unquoter): map<string, FileStatus>
  {
    if lines == [] then m else FileLineUpdate(FoldFile(m, lines[..|lines| - 1], unquote), lines[|lines| - 1], unquote)
  }

  /** The paths the recognised lines name. */
  function IndexKeys(lines: seq<string>, unquote: Unquoter): set<string> {
    if lines == [] then {} else IndexKeys(lines[..|lines| - 1], unquote) + KeySet(IndexKey(lines[|lines| - 1], unquote))
  }

  function FileKeys(lines: seq<string>, unquote: Unquoter): set<string> {
    if lines == [] then {} else FileKeys(lines[..|lines| - 1], unquote) + KeySet(FileKey(lines[|lines| - 1], unquote))
  }

  /** The table holds exactly the paths some recognised line names. */
  lemma {:induction false} FoldIndexKeys(m: map<string, FileStatus>, lines: seq<string>, unquote: Unquoter)
    ensures FoldIndex(m, lines, unquote).Keys == m.Keys + IndexKeys(lines, unquote)
    decreases |lines|
  {
    if lines != [] {
      var init := lines[..|lines| - 1];
      FoldIndexKeys(m, init, unquote);
      IndexLineTouchesOne(FoldIndex(m, init, unquote), lines[|lines| - 1], unquote);
    }
  }

  lemma {:induction false} FoldFileKeys(m: map<string, FileStatus>, lines: seq<string>, unquote: Unquoter)
    ensures FoldFile(m, lines, unquote).Keys == m.Keys + FileKeys(lines, unquote)
    decreases |lines|
  {
    if lines != [] {
      var init := lines[..|lines| - 1];
      FoldFileKeys(m, init, unquote);
      FileLineTouchesOne(FoldFile(m, init, unquote), lines[|lines| - 1], unquote);
    }
  }

  /** Whether the listing keeps an entry under `filter`. */
  predicate Kept(filter: string, st: FileStatus) {
    !(filter == "index-only" && st.index == "unchanged") && !(filter == "file-only" && st.file == "nothing")
  }

  function KeptPaths(m: map<string, FileStatus>, filter: string): set<string> {
    set p | p in m && Kept(filter, m[p])
  }

  /**
    A listing of `m`: each kept path once, as its entry with `Path` set to
    the path, in some order (the order of a Go map iteration is unspecified).
   */
  predicate Listing(m: map<string, FileStatus>, filter: string, files: seq<FileStatus>) {
    && (forall i :: 0 <= i < |files| ==> files[i].path in KeptPaths(m, filter) && files[i] == m[files[i].path].(path := files[i].path))
    && (forall i, j :: 0 <= i < j < |files| ==> files[i].path != files[j].path)
    && (forall p :: p in KeptPaths(m, filter) ==> exists i :: 0 <= i < |files| && files[i].path == p)
  }

  /** The table the listing reads: `file-only` skips the index lines and `index-only` the file lines. */
  function Collected(filter: string, indexLines: seq<string>, fileLines: seq<string>, unquote: Unquoter): map<string, FileStatus> {
    var afterIndex := if filter != "file-only" then FoldIndex(map[], indexLines, unquote) else map[];
    if filter != "index-only" then FoldFile(afterIndex, fileLines, unquote) else afterIndex
  }

  /** Under `index-only` no `unchanged` index entry is listed, under `file-only` no `nothing` file entry. */
  lemma ListingFilters(m: map<string, FileStatus>, filter: string, files: seq<FileStatus>)
    requires Listing(m, filter, files)
    ensures filter == "index-only" ==> forall i :: 0 <= i < |files| ==> files[i].index != "unchanged"
    ensures filter == "file-only" ==> forall i :: 0 <= i < |files| ==> files[i].file != "nothing"
    ensures filter != "index-only" && filter != "file-only" ==> |files| == |m|
  {
    if filter != "index-only" && filter != "file-only" {
      assert KeptPaths(m, filter) == m.Keys;
      ListingSize(m, filter, files);
    }
  }

  /** A listing has one element per kept path. */
  lemma ListingSize(m: map<string, FileStatus>, filter: string, files: seq<FileStatus>)
    requires Listing(m, filter, files)
    ensures |files| == |KeptPaths(m, filter)|
  {
    var paths := seq(|files|, i requires 0 <= i < |files| => files[i].path);
    DistinctSize(paths);
    assert (set i | 0 <= i < |paths| :: paths[i]) == KeptPaths(m, filter) by {
      forall p | p in KeptPaths(m, filter)
        ensures p in (set i | 0 <= i < |paths| :: paths[i])
      {
        var i :| 0 <= i < |files| && files[i].path == p;
        assert paths[i] == p;
      }
    }
  }

  /** A sequence without repetitions has as many elements as its set of elements. */
  lemma {:induction false} DistinctSize(xs: seq<string>)
    requires forall i, j :: 0 <= i < j < |xs| ==> xs[i] != xs[j]
    ensures |set i | 0 <= i < |xs| :: xs[i]| == |xs|
    decreases |xs|
  {
    if xs != [] {
      var init := xs[..|xs| - 1];
      DistinctSize(init);
      var s, t := set i | 0 <= i < |init| :: init[i], set i | 0 <= i < |xs| :: xs[i];
      assert t == s + {xs[|xs| - 1]} by {
        forall x | x in t ensures x in s + {xs[|xs| - 1]} {
          var i :| 0 <= i < |xs| && xs[i] == x;
          if i < |xs| - 1 { assert init[i] == x; }
        }
        forall x | x in s ensures x in t {
          var i :| 0 <= i < |init| && init[i] == x;
          assert xs[i] == x;
        }
      }
      assert xs[|xs| - 1] !in s;
    }
  }

  /** The status table of one listing run. */
  class StatusTable {
    var entries: map<string, FileStatus>

    constructor ()
      ensures entries == map[]
    {
      entries := map[];
    }

    /** The `if status == nil` step: a path seen for the first time gets a fresh entry. */
    method Touch(file: string)
      modifies this
      ensures entries == old(entries)[file := Entry(old(entries), file)]
    {
      if file !in entries {
        entries := entries[file := Unseen];
      }
    }

    /** A numstat line for `file`: make sure it has an entry, then write the counts into `side`'s column. */
    method RecordCounts(side: Side, file: string, add: string, del: string)
      modifies this
      ensures entries == old(entries)[file := WithCounts(Entry(old(entries), file), side, add, del)]
    {
      Touch(file);
      var status := entries[file];
      if add == "-" && del == "-" {
        if side == IndexSide {
          status := status.(index := "binary", binary := true);
        } else {
          status := status.(file := "binary", binary := true);
        }
      } else {
        if side == IndexSide {
          status := status.(index := "+" + add + "/-" + del);
        } else {
          status := status.(file := "+" + add + "/-" + del);
        }
      }
      entries := entries[file := status];
    }

    /** A summary line for `file`: make sure it has an entry, then record the operation in `side`'s column. */
    method RecordAddDel(side: Side, file: string, op: string)
      modifies this
      ensures entries == old(entries)[file := WithAddDel(Entry(old(entries), file), side, op)]
    {
      Touch(file);
      if side == IndexSide {
        entries := entries[file := entries[file].(indexAddDel := op)];
      } else {
        entries := entries[file := entries[file].(fileAddDel := op)];
      }
    }

    /** A raw line for `file`: make sure it has an entry, and mark it unmerged for status `U`. */
    method RecordRawStatus(file: string, status: char)
      modifies this
      ensures entries == old(entries)[file := WithRawStatus(Entry(old(entries), file), status)]
    {
      Touch(file);
      if status == 'U' {
        entries := entries[file := entries[file].(unmerged := true)];
      }
    }

    /** `parseIndexLine`; it never fails. */
    method ParseIndexLine(line: string, unquote: Unquoter)
      modifies this
      ensures entries == IndexLineUpdate(old(entries), line, unquote)
    {
      var parts := SplitOn(line, '\t');
      if |parts| >= 3 {
        var add, del, file := parts[0], parts[1], parts[2];
        file := UnquotePath(unquote, file);
        RecordCounts(IndexSide, file, add, del);
        return;
      }
      var matches := ParseSummary(line);
      if matches.Some? {
        RecordAddDel(IndexSide, UnquotePath(unquote, matches.value.path), matches.value.op);
      }
    }

    /** `parseFileLine`; it never fails. */
    method ParseFileLine(line: string, unquote: Unquoter)
      modifies this
      ensures entries == FileLineUpdate(old(entries), line, unquote)
    {
      var parts := SplitOn(line, '\t');
      if |parts| >= 3 {
        var add, del, file := parts[0], parts[1], parts[2];
        file := UnquotePath(unquote, file);
        RecordCounts(FileSide, file, add, del);
        return;
      }
      var matches := ParseSummary(line);
      if matches.Some? {
        RecordAddDel(FileSide, UnquotePath(unquote, matches.value.path), matches.value.op);
        return;
      }
      var raw := ParseRaw(line);
      if raw.Some? {
        RecordRawStatus(UnquotePath(unquote, raw.value.path), raw.value.status);
      }
    }

    /** The listing loop: each kept entry, with its path filled in. */
    method List(filter: string) returns (files: seq<FileStatus>)
      ensures Listing(entries, filter, files)
    {
      var m := entries;
      var keys := m.Keys;
      files := [];
      while keys != {}
        invariant keys <= m.Keys
        invariant forall i :: 0 <= i < |files| ==> files[i].path in KeptPaths(m, filter) && files[i].path !in keys && files[i] == m[files[i].path].(path := files[i].path)
        invariant forall i, j :: 0 <= i < j < |files| ==> files[i].path != files[j].path
        invariant forall p :: p in KeptPaths(m, filter) && p !in keys ==> exists i :: 0 <= i < |files| && files[i].path == p
        decreases keys
      {
        var path :| path in keys;
        keys := keys - {path};
        var status := m[path];
        if filter == "index-only" && status.index == "unchanged" {
          assert path !in KeptPaths(m, filter);
          continue;
        }
        if filter == "file-only" && status.file == "nothing" {
          assert path !in KeptPaths(m, filter);
          continue;
        }
        ghost var before := files;
        files := files + [status.(path := path)];
        assert forall i :: 0 <= i < |before| ==> files[i] == before[i];
        assert files[|files| - 1].path == path;
      }
    }
  }

  /**
    The parsing and filtering of `ListModifiedWithRevisionAndPaths`, given
    the output lines of `diff-index` and `diff-files`.
   */
  method ListModified(filter: string, indexLines: seq<string>, fileLines: seq<string>, unquote: Unquoter)
    returns (files: seq<FileStatus>)
    ensures Listing(Collected(filter, indexLines, fileLines, unquote), filter, files)
  {
    var table := new StatusTable();
    if filter != "file-only" {
      for i := 0 to |indexLines|
        invariant table.entries == FoldIndex(map[], indexLines[..i], unquote)
      {
        assert indexLines[..i + 1][..i] == indexLines[..i];
        table.ParseIndexLine(indexLines[i], unquote);
      }
      assert indexLines[..|indexLines|] == indexLines;
    }
    if filter != "index-only" {
      ghost var start := table.entries;
      for i := 0 to |fileLines|
        invariant table.entries == FoldFile(start, fileLines[..i], unquote)
      {
        assert fileLines[..i + 1][..i] == fileLines[..i];
        table.ParseFileLine(fileLines[i], unquote);
      }
      assert fileLines[..|fileLines|] == fileLines;
    }
    files := table.List(filter);
  }

  /** The non-empty lines, in order. */
  function NonEmpty(lines: seq<string>): (r: seq<string>)
    ensures |r| <= |lines|
  {
    if lines == [] then []
    else NonEmpty(lines[..|lines| - 1]) + (if lines[|lines| - 1] != "" then [lines[|lines| - 1]] else [])
  }

  /** A line survives exactly when it is not empty. */
  lemma {:induction false} NonEmptyExactly(lines: seq<string>)
    ensures forall l :: l in NonEmpty(lines) <==> l in lines && l != ""
    decreases |lines|
  {
    if lines != [] {
      var init := lines[..|lines| - 1];
      NonEmptyExactly(init);
      assert lines == init + [lines[|lines| - 1]];
    }
  }

  /** `ListUntracked`'s line loop: the empty lines of `ls-files` are dropped, the others unquoted. */
  method ListUntracked(lines: seq<string>, unquote: Unquoter) returns (untracked: seq<string>)
    ensures |untracked| == |NonEmpty(lines)|
    ensures forall i :: 0 <= i < |untracked| ==> untracked[i] == UnquotePath(unquote, NonEmpty(lines)[i])
  {
    untracked := [];
    for i := 0 to |lines|
      invariant |untracked| == |NonEmpty(lines[..i])|
      invariant forall k :: 0 <= k < |untracked| ==> untracked[k] == UnquotePath(unquote, NonEmpty(lines[..i])[k])
    {
      assert lines[..i + 1][..i] == lines[..i];
      if lines[i] != "" {
        untracked := untracked + [UnquotePath(unquote, lines[i])];
      }
    }
    assert lines[..|lines|] == lines;
  }
}
