/**
  The command line of main.go after the `flag` package has run: the value
  of `--patch` and the remaining arguments are inputs, and `processArgs`
  resolves them into a patch mode from the `PatchModes` table, a revision
  and the pathspecs.
 */
module Cli {
  import opened Wrappers
  import opened Strs
  import opened GitPatch

  /** What `processArgs` returns when it succeeds; an empty mode means the interactive menu. */
  datatype Invocation = Invocation(mode: string, revision: string, files: seq<string>)

  /** The first remaining argument is a revision rather than the `--` separator. */
  predicate RevisionGiven(args: seq<string>) {
    args != [] && args[0] != "--"
  }

  /** `parsePatchReset`: unstage against HEAD unless another revision comes first. */
  function ParsePatchReset(args: seq<string>): (r: (string, string))
    ensures r.0 == "reset_head" <==> !RevisionGiven(args) || args[0] == "HEAD"
    ensures r.0 != "reset_head" ==> r.0 == "reset_nothead"
    ensures r.1 == if RevisionGiven(args) then args[0] else "HEAD"
  {
    if |args| == 0 || args[0] == "--" then ("reset_head", "HEAD")
    else
      var revision := args[0];
      if revision == "HEAD" then ("reset_head", revision) else ("reset_nothead", revision)
  }

  /** `parsePatchCheckout`: discard against the index unless a revision comes first. */
  function ParsePatchCheckout(args: seq<string>): (r: (string, string))
    ensures !RevisionGiven(args) <==> r == ("checkout_index", "")
    ensures RevisionGiven(args) ==>
      && r.1 == args[0]
      && (r.0 == "checkout_head" <==> args[0] == "HEAD")
      && (r.0 != "checkout_head" ==> r.0 == "checkout_nothead")
  {
    if |args| == 0 || args[0] == "--" then ("checkout_index", "")
    else
      var revision := args[0];
      if revision == "HEAD" then ("checkout_head", revision) else ("checkout_nothead", revision)
  }

  /**
    `parsePatchWorktree`: like `parsePatchCheckout` with a revision, but without
    one it falls back to `checkout_index`, which is not a worktree mode.
   */
  function ParsePatchWorktree(args: seq<string>): (r: (string, string))
    ensures !RevisionGiven(args) <==> r == ("checkout_index", "")
    ensures RevisionGiven(args) ==>
      && r.1 == args[0]
      && (r.0 == "worktree_head" <==> args[0] == "HEAD")
      && (r.0 != "worktree_head" ==> r.0 == "worktree_nothead")
  {
    if |args| == 0 || args[0] == "--" then ("checkout_index", "")
    else
      var revision := args[0];
      if revision == "HEAD" then ("worktree_head", revision) else ("worktree_nothead", revision)
  }

  /** `skipRevisionAndSeparator`: drops the revision, and only the revision. */
  function SkipRevisionAndSeparator(args: seq<string>): (rest: seq<string>)
    ensures RevisionGiven(args) ==> rest == args[1..]
    ensures !RevisionGiven(args) ==> rest == args
  {
    if |args| == 0 then args
    else if args[0] != "--" && |args| > 0 then args[1..]
    else args
  }

  /**
    The revision the three parsers read is exactly the argument that
    `skipRevisionAndSeparator` drops; without one nothing is dropped.
   */
  lemma RevisionConsumed(args: seq<string>)
    ensures RevisionGiven(args) ==>
      && [ParsePatchReset(args).1] + SkipRevisionAndSeparator(args) == args
      && [ParsePatchCheckout(args).1] + SkipRevisionAndSeparator(args) == args
      && [ParsePatchWorktree(args).1] + SkipRevisionAndSeparator(args) == args
    ensures !RevisionGiven(args) ==> SkipRevisionAndSeparator(args) == args
  {
    if RevisionGiven(args) {
      assert [args[0]] + args[1..] == args;
    }
  }

  /** Naming HEAD is the same as naming no revision for `reset`, but not for `checkout`. */
  lemma HeadDefaults(rest: seq<string>)
    ensures ParsePatchReset(["HEAD"] + rest) == ParsePatchReset([])
    ensures ParsePatchCheckout(["HEAD"] + rest) != ParsePatchCheckout([])
    ensures ParsePatchWorktree([]).0 == "checkout_index"
  {
    assert (["HEAD"] + rest)[0] == "HEAD";
  }

  /** `arg` is the `--patch` option, bare or with a value. */
  predicate IsPatchOption(arg: string) {
    arg == "--patch" || HasPrefix(arg, "--patch=")
  }

  /** Some argument is the `--patch` option. */
  predicate PatchGiven(args: seq<string>) {
    exists i :: 0 <= i < |args| && IsPatchOption(args[i])
  }

  /** A bare `--patch` is followed by something other than `--`. */
  predicate BarePatchMisused(args: seq<string>) {
    exists i :: 0 <= i < |args| - 1 && args[i] == "--patch" && args[i + 1] != "--"
  }

  /** The arguments satisfy `validatePatchMode`'s separator rules for `mode`. */
  predicate SeparatorOk(mode: string, args: seq<string>) {
    && (mode == "" ==> "--" in args && !BarePatchMisused(args))
    && (mode == "reset" || mode == "checkout" ==> "--" in args)
  }

  /**
    `validatePatchMode`: the plain, `reset` and `checkout` modes need a `--`
    somewhere in the arguments, and a bare `--patch` must be followed by it;
    the error names the option as it was spelt.
   */
  method ValidatePatchMode(mode: string, originalArgs: seq<string>) returns (err: Option<string>)
    ensures err.None? <==> SeparatorOk(mode, originalArgs)
    ensures err.Some? ==> err.value == "expected '--' after --patch" + (if mode == "" then "" else "=" + mode)
  {
    var hasSeparator := false;
    for i := 0 to |originalArgs|
      invariant hasSeparator <==> "--" in originalArgs[..i]
    {
      assert originalArgs[..i + 1] == originalArgs[..i] + [originalArgs[i]];
      if originalArgs[i] == "--" {
        hasSeparator := true;
        break;
      }
    }
    assert hasSeparator <==> "--" in originalArgs by {
      if !hasSeparator { assert originalArgs[..|originalArgs|] == originalArgs; }
    }
    if mode == "" {
      if !hasSeparator {
        return Some("expected '--' after --patch");
      }
      for i := 0 to |originalArgs|
        invariant forall j :: 0 <= j < i && j < |originalArgs| - 1 ==> !(originalArgs[j] == "--patch" && originalArgs[j + 1] != "--")
      {
        if originalArgs[i] == "--patch" && i + 1 < |originalArgs| && originalArgs[i + 1] != "--" {
          return Some("expected '--' after --patch");
        }
      }
    } else if mode == "reset" {
      if !hasSeparator {
        return Some("expected '--' after --patch=reset");
      }
    } else if mode == "checkout" {
      if !hasSeparator {
        return Some("expected '--' after --patch=checkout");
      }
    }
    return None;
  }

  /** The `--patch` values `processArgs` knows. */
  predicate KnownFlag(flag: string) {
    flag == "" || flag == "stage" || flag == "stash" || flag == "reset" || flag == "checkout" || flag == "worktree"
  }

  /** One leading `--` separator is dropped from the pathspecs. */
  function DropSeparator(args: seq<string>): (rest: seq<string>)
    ensures args != [] && args[0] == "--" ==> rest == args[1..]
    ensures !(args != [] && args[0] == "--") ==> rest == args
  {
    if |args| > 0 && args[0] == "--" then args[1..] else args
  }

  /** The mode, revision and pathspecs a known `--patch` value resolves to. */
  function Resolved(flag: string, remaining: seq<string>): (inv: Invocation)
    requires KnownFlag(flag)
    ensures IsModeName(inv.mode)
    ensures |remaining| - 2 <= |inv.files| <= |remaining| && inv.files == remaining[|remaining| - |inv.files|..]
  {
    ResolvedModesKnown(remaining);
    if flag == "" || flag == "stage" then Invocation("stage", "", DropSeparator(remaining))
    else if flag == "stash" then Invocation("stash", "", DropSeparator(remaining))
    else
      var rest := DropSeparator(SkipRevisionAndSeparator(remaining));
      assert rest == remaining[|remaining| - |rest|..];
      if flag == "reset" then
        var (m, rev) := ParsePatchReset(remaining); Invocation(m, rev, rest)
      else if flag == "checkout" then
        var (m, rev) := ParsePatchCheckout(remaining); Invocation(m, rev, rest)
      else
        var (m, rev) := ParsePatchWorktree(remaining); Invocation(m, rev, rest)
  }

  /** Every mode the three parsers name is a key of `PatchModes`. */
  lemma ResolvedModesKnown(args: seq<string>)
    ensures IsModeName("stage") && IsModeName("stash")
    ensures IsModeName(ParsePatchReset(args).0)
    ensures IsModeName(ParsePatchCheckout(args).0)
    ensures IsModeName(ParsePatchWorktree(args).0)
  {
    var names := ModeNames();
    assert names[0] == "stage" && names[1] == "stash";
    assert names[2] == "reset_head" && names[3] == "reset_nothead";
    assert names[4] == "checkout_index" && names[5] == "checkout_head" && names[6] == "checkout_nothead";
    assert names[7] == "worktree_head" && names[8] == "worktree_nothead";
  }

  /**
    The part of `processArgs` after flag parsing. `patchFlag` is the value
    the `flag` package gave `--patch` and `remaining` its `Args()`.
   */
  method ProcessArgs(args: seq<string>, patchFlag: string, remaining: seq<string>) returns (r: Result<Invocation>)
    ensures !PatchGiven(args) ==> r == Success(
      if remaining == [] then Invocation("", "", [])
      else if remaining[0] == "--" then Invocation("", "", remaining[1..])
      else Invocation("stage", "", remaining))
    ensures PatchGiven(args) ==>
      var flag := if patchFlag == "--" then "" else patchFlag;
      && (!SeparatorOk(flag, args) ==> r.Failure?)
      && (SeparatorOk(flag, args) && !KnownFlag(flag) ==> r == Failure("unknown --patch mode: " + flag))
      && (SeparatorOk(flag, args) && KnownFlag(flag) ==> r == Success(Resolved(flag, remaining)))
    ensures r.Success? && r.value.mode != "" ==> IsModeName(r.value.mode)
  {
    var patchProvided := false;
    for i := 0 to |args|
      invariant patchProvided <==> exists j :: 0 <= j < i && IsPatchOption(args[j])
    {
      if args[i] == "--patch" || HasPrefix(args[i], "--patch=") {
        patchProvided := true;
        break;
      }
    }
    if !patchProvided && |remaining| > 0 {
      if remaining[0] == "--" {
        return Success(Invocation("", "", remaining[1..]));
      }
      ResolvedModesKnown(remaining);
      return Success(Invocation("stage", "", remaining));
    }
    if patchProvided {
      var flag := patchFlag;
      if flag == "--" {
        flag := "";
      }
      var err := ValidatePatchMode(flag, args);
      if err.Some? {
        return Failure(err.value);
      }
      if !KnownFlag(flag) {
        return Failure("unknown --patch mode: " + flag);
      }
      return Success(Resolved(flag, remaining));
    }
    return Success(Invocation("", "", []));
  }
}
