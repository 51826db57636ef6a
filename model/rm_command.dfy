/** The `rm` command: removes files, and directories under `-r`. */
module RmCommand {
  import opened Wrappers
  import opened CommandCore

  datatype RmOptions = RmOptions(recursive: bool, force: bool)

  /** One argument as the flag `match` reads it: the exact spellings first,
      then any other argument starting with `-` by the letters it holds. */
  function RmFlag(o: RmOptions, arg: string): RmOptions {
    if arg == "-r" || arg == "-R" || arg == "--recursive" then o.(recursive := true)
    else if arg == "-f" || arg == "--force" then o.(force := true)
    else if arg == "-rf" || arg == "-fr" then RmOptions(true, true)
    else if IsFlag(arg) then RmOptions(o.recursive || 'r' in arg || 'R' in arg, o.force || 'f' in arg)
    else o
  }

  /** The options after reading all the arguments. */
  function RmParse(args: seq<string>): RmOptions {
    if |args| == 0 then RmOptions(false, false)
    else RmFlag(RmParse(args[..|args| - 1]), args[|args| - 1])
  }

  /** A flag turns on recursion when it holds `r` or `R`, except `--force`. */
  predicate SetsRecursive(arg: string) {
    IsFlag(arg) && arg != "--force" && ('r' in arg || 'R' in arg)
  }

  /** A flag turns on force when it holds `f`. */
  predicate SetsForce(arg: string) {
    IsFlag(arg) && 'f' in arg
  }

  /** The `match` arms agree with the letter rule, apart from `--force`. */
  lemma RmFlagMeaning(o: RmOptions, arg: string)
    ensures RmFlag(o, arg) == RmOptions(o.recursive || SetsRecursive(arg), o.force || SetsForce(arg))
  {
    if arg == "--recursive" {
      assert arg[2] == 'r';
      assert 'f' !in arg;
    } else if arg == "--force" {
      assert arg[2] == 'f';
    } else if arg == "-rf" || arg == "-fr" {
      assert arg[1] == 'r' || arg[2] == 'r';
      assert arg[1] == 'f' || arg[2] == 'f';
    } else if arg == "-r" || arg == "-R" {
      assert arg[1] == 'r' || arg[1] == 'R';
      assert 'f' !in arg;
    } else if arg == "-f" {
      assert arg[1] == 'f';
      assert 'r' !in arg && 'R' !in arg;
    }
  }

  /** Either option, once set by any argument, stays set: flags may stand
      anywhere and never turn an option off. */
  lemma {:induction false} RmParseAnywhere(args: seq<string>)
    ensures RmParse(args).recursive <==> exists k :: 0 <= k < |args| && SetsRecursive(args[k])
    ensures RmParse(args).force <==> exists k :: 0 <= k < |args| && SetsForce(args[k])
    decreases |args|
  {
    if |args| > 0 {
      var init := args[..|args| - 1];
      RmParseAnywhere(init);
      RmFlagMeaning(RmParse(init), args[|args| - 1]);
      assert forall k :: 0 <= k < |init| ==> init[k] == args[k];
    }
  }

  /** `--force` only forces, `--verbose` turns on recursion by its `r`, and
      `-v` turns on nothing. */
  lemma RmFlagExamples()
    ensures RmParse(["--force"]) == RmOptions(false, true)
    ensures RmParse(["--verbose"]) == RmOptions(true, false)
    ensures RmParse(["-v"]) == RmOptions(false, false)
    ensures RmParse(["-Rf"]) == RmOptions(true, true)
  {
    assert ["--force"][..0] == [] && ["--verbose"][..0] == [] && ["-v"][..0] == [] && ["-Rf"][..0] == [];
    assert "--verbose"[4] == 'r' && 'f' !in "--verbose";
    assert 'r' !in "-v" && 'R' !in "-v" && 'f' !in "-v";
    assert "-Rf"[1] == 'R' && "-Rf"[2] == 'f';
  }

  /** One target: a path that cannot be examined is an error unless forced;
      a directory needs `-r`; a failed removal is an error unless forced. */
  function RmStep<F>(calls: FsCalls<F>, o: RmOptions, fs: F, target: string): (r: StepResult<F>)
    ensures calls.metadata(fs, target).Err? ==> r.fs == fs && (r.Halt? <==> !o.force)
    ensures calls.metadata(fs, target) == Ok(Directory) && !o.recursive ==>
      r == Halt(fs, "rm: cannot remove '" + target + "': Is a directory\n")
    ensures calls.metadata(fs, target) == Ok(Directory) && o.recursive ==>
      r.fs == calls.removeDirAll(fs, target).fs && (r.Halt? <==> calls.removeDirAll(fs, target).error.Some? && !o.force)
    ensures calls.metadata(fs, target) == Ok(RegularFile) ==>
      r.fs == calls.removeFile(fs, target).fs && (r.Halt? <==> calls.removeFile(fs, target).error.Some? && !o.force)
    ensures r.Next? ==> r.printed == ""
  {
    match calls.metadata(fs, target)
    case Err(e) =>
      if !o.force then Halt(fs, "rm: cannot remove '" + target + "': " + e + "\n") else Next(fs, "")
    case Ok(kind) =>
      if kind == Directory then
        if !o.recursive then Halt(fs, "rm: cannot remove '" + target + "': Is a directory\n")
        else
          var c := calls.removeDirAll(fs, target);
          if c.error.Some? && !o.force then Halt(c.fs, "rm: cannot remove '" + target + "': " + c.error.value + "\n")
          else Next(c.fs, "")
      else
        var c := calls.removeFile(fs, target);
        if c.error.Some? && !o.force then Halt(c.fs, "rm: cannot remove '" + target + "': " + c.error.value + "\n")
        else Next(c.fs, "")
  }

  /** `rm`. */
  function Rm<F>(calls: FsCalls<F>, args: seq<string>, cwd: string, fs: F): (r: Outcome<F>)
  {
    var operands := Operands(args);
    var targets := Targets(operands, cwd);
    if |targets| == 0 then Outcome("", "rm: missing operand\n", 1, fs)
    else Each((g, t) => RmStep(calls, RmParse(operands), g, t), fs, targets)
  }

  /** `Rm::run`: one loop reads the flags and the targets, a second one
      removes. */
  method RunRm<F>(calls: FsCalls<F>, args: seq<string>, cwd: string, fs: F) returns (out: Outcome<F>)
    ensures out == Rm(calls, args, cwd, fs)
  {
    var operands := Operands(args);
    var recursive, force := false, false;
    var targets: seq<string> := [];
    var i := 0;
    while i < |operands|
      invariant i <= |operands|
      invariant RmOptions(recursive, force) == RmParse(operands[..i])
      invariant targets == Targets(operands[..i], cwd)
    {
      assert operands[..i + 1][..i] == operands[..i];
      var arg := operands[i];
      if arg == "-r" || arg == "-R" || arg == "--recursive" {
        recursive := true;
      } else if arg == "-f" || arg == "--force" {
        force := true;
      } else if arg == "-rf" || arg == "-fr" {
        recursive, force := true, true;
      } else if |arg| >= 1 && arg[0] == '-' {
        if 'r' in arg || 'R' in arg {
          recursive := true;
        }
        if 'f' in arg {
          force := true;
        }
      } else {
        targets := targets + [Resolve(cwd, arg)];
      }
      i := i + 1;
    }
    assert operands[..i] == operands;
    if |targets| == 0 {
      return Outcome("", "rm: missing operand\n", 1, fs);
    }
    out := RunEach((g, t) => RmStep(calls, RmOptions(recursive, force), g, t), fs, targets);
  }

  /** Under `-rf` nothing fails: every error is ignored. */
  lemma ForcedRecursiveNeverFails<F>(calls: FsCalls<F>, args: seq<string>, cwd: string, fs: F)
    requires RmParse(Operands(args)) == RmOptions(true, true)
    requires |Targets(Operands(args), cwd)| > 0
    ensures Rm(calls, args, cwd, fs).exit == 0 && Rm(calls, args, cwd, fs).stderr == ""
  {
    var step := (g, t) => RmStep(calls, RmOptions(true, true), g, t);
    assert forall g: F, t: string :: step(g, t).Next?;
    EachNeverHalts(step, fs, Targets(Operands(args), cwd));
  }

  /** Force alone does not remove a directory: it still fails with "Is a
      directory", and the filesystem is left as the earlier targets left it. */
  lemma ForceStillNeedsRecursive<F>(calls: FsCalls<F>, fs: F, target: string)
    requires calls.metadata(fs, target) == Ok(Directory)
    ensures Each((g, t) => RmStep(calls, RmOptions(false, true), g, t), fs, [target]) ==
      Outcome("", "rm: cannot remove '" + target + "': Is a directory\n", 1, fs)
  {
    EachOne((g, t) => RmStep(calls, RmOptions(false, true), g, t), fs, target);
  }

  /** Without operands nothing is removed. */
  lemma RmNeedsTarget<F>(calls: FsCalls<F>, args: seq<string>, cwd: string, fs: F)
    requires forall k :: 1 <= k < |args| ==> IsFlag(args[k])
    ensures Rm(calls, args, cwd, fs) == Outcome("", "rm: missing operand\n", 1, fs)
  {
    OnlyFlags(Operands(args), cwd);
  }

  /** Targets are removed in order, and the first unforced error stops the
      command, keeping the removals before it. */
  lemma RmStopsAtFirstError<F>(calls: FsCalls<F>, o: RmOptions, fs: F, targets: seq<string>, k: nat)
    requires k < |targets|
    ensures var step := (g, t) => RmStep(calls, o, g, t);
      var before := Each(step, fs, targets[..k]);
      before.exit == 0 && step(before.fs, targets[k]).Halt? ==>
        Each(step, fs, targets) == Outcome("", step(before.fs, targets[k]).message, 1, step(before.fs, targets[k]).fs)
  {
    var step := (g, t) => RmStep(calls, o, g, t);
    var before := Each(step, fs, targets[..k]);
    if before.exit == 0 && step(before.fs, targets[k]).Halt? {
      EachStopsAtFirstHalt(step, fs, targets, k);
      SilentRemovals(calls, o, fs, targets[..k]);
    }
  }

  /** Removals print nothing. */
  lemma {:induction false} SilentRemovals<F>(calls: FsCalls<F>, o: RmOptions, fs: F, targets: seq<string>)
    ensures Each((g, t) => RmStep(calls, o, g, t), fs, targets).stdout == ""
    decreases |targets|
  {
    if |targets| > 0 {
      SilentRemovals(calls, o, RmStep(calls, o, fs, targets[0]).fs, targets[1..]);
    }
  }
}
