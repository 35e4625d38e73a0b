/**
  The parts of Go's `strings` and `strconv` packages the core relies on,
  over `string` = `seq<char>`. White space follows Unicode; case mapping is
  ASCII only.
 */
module Strs {
  import opened Wrappers

  /** `strings.HasPrefix` */
  predicate HasPrefix(s: string, prefix: string) {
    |prefix| <= |s| && s[..|prefix|] == prefix
  }

  /** `strings.HasSuffix` */
  predicate HasSuffix(s: string, suffix: string) {
    |suffix| <= |s| && s[|s| - |suffix|..] == suffix
  }

  /** The first character of `s` is `c`. */
  predicate StartsWith(s: string, c: char) {
    |s| > 0 && s[0] == c
  }

  /** A one-character prefix is a first character. */
  lemma HasPrefixChar(s: string, c: char)
    ensures HasPrefix(s, [c]) <==> StartsWith(s, c)
  {
    if |s| > 0 {
      assert s[..1] == [s[0]];
    }
  }

  lemma PrefixOfConcat(a: string, b: string, p: string)
    requires HasPrefix(a, p)
    ensures HasPrefix(a + b, p)
  {
    assert (a + b)[..|p|] == a[..|p|];
  }

  /** `strings.TrimSuffix` */
  function TrimSuffix(s: string, suffix: string): (r: string)
    ensures HasSuffix(s, suffix) ==> r + suffix == s
    ensures !HasSuffix(s, suffix) ==> r == s
  {
    if HasSuffix(s, suffix) then s[..|s| - |suffix|] else s
  }

  /**
    White space as `unicode.IsSpace` (and so `strings.TrimSpace`) sees it:
    tab, line feed, vertical tab, form feed, carriage return, space, U+0085
    and U+00A0, and above Latin-1 the rest of Unicode's White_Space property.
   */
  predicate IsSpace(c: char) {
    var n := c as int;
    || 9 <= n <= 13 || n == 0x20 || n == 0x85 || n == 0xA0
    || n == 0x1680 || 0x2000 <= n <= 0x200A || n == 0x2028 || n == 0x2029
    || n == 0x202F || n == 0x205F || n == 0x3000
  }

  /** Every character is white space (so `TrimSpace` leaves nothing). */
  predicate IsBlank(s: string) {
    forall i :: 0 <= i < |s| ==> IsSpace(s[i])
  }

  /** `strings.TrimSpace`: white space is dropped from both ends. */
  function TrimSpace(s: string): (r: string)
    ensures |r| <= |s|
  {
    if s != [] && IsSpace(s[0]) then TrimSpace(s[1..])
    else if s != [] && IsSpace(s[|s| - 1]) then TrimSpace(s[..|s| - 1])
    else s
  }

  /** `r` sits at `a` in `s` with only white space before and after it. */
  predicate TrimmedAt(s: string, r: string, a: int) {
    0 <= a <= |s| - |r| && s[a..a + |r|] == r && IsBlank(s[..a]) && IsBlank(s[a + |r|..])
  }

  lemma TrimmedAfterSpace(s: string, r: string, b: int)
    requires s != [] && IsSpace(s[0]) && TrimmedAt(s[1..], r, b)
    ensures TrimmedAt(s, r, b + 1)
  {
    var t := s[1..];
    assert s[b + 1..b + 1 + |r|] == t[b..b + |r|];
    assert s[..b + 1] == [s[0]] + t[..b];
    assert s[b + 1 + |r|..] == t[b + |r|..];
  }

  lemma TrimmedBeforeSpace(s: string, r: string, b: int)
    requires s != [] && IsSpace(s[|s| - 1]) && TrimmedAt(s[..|s| - 1], r, b)
    ensures TrimmedAt(s, r, b)
  {
    var t := s[..|s| - 1];
    assert s[b..b + |r|] == t[b..b + |r|];
    assert s[..b] == t[..b];
    assert s[b + |r|..] == t[b + |r|..] + [s[|s| - 1]];
  }

  /**
    `TrimSpace` leaves the infix of `s` that neither starts nor ends with
    white space, after a blank prefix and before a blank suffix.
   */
  lemma {:induction false} TrimSpaceMeans(s: string)
    ensures var r := TrimSpace(s);
      && (r == [] || (!IsSpace(r[0]) && !IsSpace(r[|r| - 1])))
      && exists a :: TrimmedAt(s, r, a)
    decreases |s|
  {
    var r := TrimSpace(s);
    if s != [] && IsSpace(s[0]) {
      TrimSpaceMeans(s[1..]);
      var b :| TrimmedAt(s[1..], r, b);
      TrimmedAfterSpace(s, r, b);
    } else if s != [] && IsSpace(s[|s| - 1]) {
      TrimSpaceMeans(s[..|s| - 1]);
      var b :| TrimmedAt(s[..|s| - 1], r, b);
      TrimmedBeforeSpace(s, r, b);
    } else {
      assert s[0..|s|] == s && s[..0] == [] && s[|s|..] == [];
      assert TrimmedAt(s, r, 0);
    }
  }

  /** `TrimSpace` leaves nothing exactly when the string is blank. */
  lemma TrimSpaceEmpty(s: string)
    ensures TrimSpace(s) == [] <==> IsBlank(s)
  {
    TrimSpaceMeans(s);
    var r := TrimSpace(s);
    var a :| TrimmedAt(s, r, a);
    if r == [] {
      assert forall i :: 0 <= i < |s| ==> IsSpace(s[i]) by {
        forall i | 0 <= i < |s| ensures IsSpace(s[i]) {
          if i < a { assert s[i] == s[..a][i]; } else { assert s[i] == s[a..][i - a]; }
        }
      }
    } else {
      assert s[a] == r[0];
    }
  }

  /** A string with no white space at either end is its own `TrimSpace`. */
  lemma TrimSpaceUnpadded(s: string)
    requires s == [] || (!IsSpace(s[0]) && !IsSpace(s[|s| - 1]))
    ensures TrimSpace(s) == s
  {
  }

  /** ASCII `unicode.ToLower` */
  function ToLowerChar(c: char): (r: char)
    ensures 'A' <= c <= 'Z' ==> 'a' <= r <= 'z' && r as int == c as int + 32
    ensures !('A' <= c <= 'Z') ==> r == c
  {
    if 'A' <= c <= 'Z' then (c as int + 32) as char else c
  }

  /** ASCII `unicode.ToUpper` */
  function ToUpperChar(c: char): (r: char)
    ensures 'a' <= c <= 'z' ==> 'A' <= r <= 'Z' && r as int == c as int - 32
    ensures !('a' <= c <= 'z') ==> r == c
  {
    if 'a' <= c <= 'z' then (c as int - 32) as char else c
  }

  /** `strings.ToLower` */
  function ToLower(s: string): (r: string)
    ensures |r| == |s| && forall i :: 0 <= i < |s| ==> r[i] == ToLowerChar(s[i])
  {
    seq(|s|, i requires 0 <= i < |s| => ToLowerChar(s[i]))
  }

  /** `strings.ToUpper` */
  function ToUpper(s: string): (r: string)
    ensures |r| == |s| && forall i :: 0 <= i < |s| ==> r[i] == ToUpperChar(s[i])
  {
    seq(|s|, i requires 0 <= i < |s| => ToUpperChar(s[i]))
  }

  /** `strings.Join` */
  function Join(parts: seq<string>, sep: string): string
  {
    if |parts| == 0 then []
    else if |parts| == 1 then parts[0]
    else parts[0] + sep + Join(parts[1..], sep)
  }

  /** `strings.Index` for a one-character needle: -1 when absent. */
  function IndexOf(s: string, c: char): (i: int)
    ensures -1 <= i < |s|
    ensures i == -1 ==> forall j :: 0 <= j < |s| ==> s[j] != c
    ensures 0 <= i ==> s[i] == c && forall j :: 0 <= j < i ==> s[j] != c
    decreases |s|
  {
    if s == [] then -1
    else if s[0] == c then 0
    else
      var j := IndexOf(s[1..], c);
      if j == -1 then -1 else j + 1
  }

  /** `strings.Split` with a one-character separator. */
  function SplitOn(s: string, sep: char): (parts: seq<string>)
    ensures |parts| >= 1
    ensures forall k, j :: 0 <= k < |parts| && 0 <= j < |parts[k]| ==> parts[k][j] != sep
    decreases |s|
  {
    var i := IndexOf(s, sep);
    if i < 0 then [s] else [s[..i]] + SplitOn(s[i + 1..], sep)
  }

  lemma JoinCons(x: string, tail: seq<string>, sep: string)
    requires |tail| >= 1
    ensures Join([x] + tail, sep) == x + sep + Join(tail, sep)
  {
    assert ([x] + tail)[1..] == tail;
  }

  /** A string is what lies before index `i`, the character at `i` and what follows. */
  lemma AroundIndex(s: string, i: nat)
    requires i < |s|
    ensures s == s[..i] + [s[i]] + s[i + 1..]
  {
  }

  /** Joining the pieces with the separator gives the string back. */
  lemma {:induction false} JoinSplit(s: string, sep: char)
    ensures Join(SplitOn(s, sep), [sep]) == s
    decreases |s|
  {
    var i := IndexOf(s, sep);
    if i >= 0 {
      var rest := s[i + 1..];
      JoinSplit(rest, sep);
      JoinCons(s[..i], SplitOn(rest, sep), [sep]);
      AroundIndex(s, i);
    }
  }

  /** Splitting a join of separator-free parts gives the parts back. */
  lemma {:induction false} SplitJoin(parts: seq<string>, sep: char)
    requires |parts| >= 1
    requires forall k, j :: 0 <= k < |parts| && 0 <= j < |parts[k]| ==> parts[k][j] != sep
    ensures SplitOn(Join(parts, [sep]), sep) == parts
    decreases |parts|
  {
    if |parts| > 1 {
      var s, rest := Join(parts, [sep]), Join(parts[1..], [sep]);
      var n := |parts[0]|;
      assert s == parts[0] + [sep] + rest;
      assert s[n] == sep;
      assert forall j :: 0 <= j < n ==> s[j] == parts[0][j];
      assert IndexOf(s, sep) == n;
      assert s[..n] == parts[0];
      assert s[n + 1..] == rest;
      SplitJoin(parts[1..], sep);
      assert parts == [parts[0]] + parts[1..];
    }
  }

  predicate IsDigit(c: char) {
    '0' <= c <= '9'
  }

  predicate AllDigits(s: string) {
    forall i :: 0 <= i < |s| ==> IsDigit(s[i])
  }

  function DigitValue(c: char): (d: nat)
    requires IsDigit(c)
    ensures d < 10
  {
    c as int - '0' as int
  }

  function DigitChar(d: nat): (c: char)
    requires d < 10
    ensures IsDigit(c) && DigitValue(c) == d
  {
    ('0' as int + d) as char
  }

  /** The value of a decimal numeral (the empty numeral is 0). */
  function DigitsValue(s: string): nat
    requires AllDigits(s)
  {
    if s == [] then 0 else DigitsValue(s[..|s| - 1]) * 10 + DigitValue(s[|s| - 1])
  }

  /** `strconv.Itoa` for naturals: decimal, no leading zeros. */
  function NatToString(n: nat): (s: string)
    ensures |s| > 0 && AllDigits(s)
    ensures |s| > 1 ==> s[0] != '0'
    decreases n
  {
    if n < 10 then [DigitChar(n)] else NatToString(n / 10) + [DigitChar(n % 10)]
  }

  lemma {:induction false} NatToStringValue(n: nat)
    ensures DigitsValue(NatToString(n)) == n
    decreases n
  {
    if n >= 10 {
      NatToStringValue(n / 10);
      var s := NatToString(n);
      assert s[..|s| - 1] == NatToString(n / 10);
    }
  }

  /**
    `strconv.Atoi`: an optional sign followed by at least one decimal digit and
    nothing else. Range errors of the 64-bit result are not modelled.
   */
  function Atoi(s: string): (r: Option<int>)
    ensures r.Some? ==> s != []
    ensures s != [] && AllDigits(s) ==> r == Some(DigitsValue(s))
  {
    if s == [] then None
    else if s[0] == '+' || s[0] == '-' then
      var ds := s[1..];
      if ds != [] && AllDigits(ds) then
        var v: int := if s[0] == '-' then -(DigitsValue(ds) as int) else DigitsValue(ds);
        Some(v)
      else None
    else if AllDigits(s) then Some(DigitsValue(s))
    else None
  }

  lemma AtoiNatToString(n: nat)
    ensures Atoi(NatToString(n)) == Some(n)
  {
    NatToStringValue(n);
  }
}
