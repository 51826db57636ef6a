/** The `mkdir` command: creates each named directory, with its missing
    ancestors under `-p`. */
module MkdirCommand {
  import opened Wrappers
  import opened CommandCore

  predicate IsParentsFlag(arg: string) {
    arg == "-p" || arg == "--parents"
  }

  /** Whether `-p` or `--parents` appears among the arguments read so far. */
  function Parents(args: seq<string>): bool {
    if |args| == 0 then false
    else Parents(args[..|args| - 1]) || IsParentsFlag(args[|args| - 1])
  }

  /** `-p` anywhere applies to every target. */
  lemma {:induction false} ParentsAnywhere(args: seq<string>)
    ensures Parents(args) <==> exists k :: 0 <= k < |args| && IsParentsFlag(args[k])
    decreases |args|
  {
    if |args| > 0 {
      var init := args[..|args| - 1];
      ParentsAnywhere(init);
      if Parents(init) {
        var k :| 0 <= k < |init| && IsParentsFlag(init[k]);
        assert args[k] == init[k];
      }
      if exists k :: 0 <= k < |args| && IsParentsFlag(args[k]) {
        var k :| 0 <= k < |args| && IsParentsFlag(args[k]);
        if k < |init| {
          assert init[k] == args[k];
        }
      }
    }
  }

  /** One target: `create_dir_all` under `-p`, `create_dir` otherwise; a
      failure ends the command. */
  function MkdirStep<F>(calls: FsCalls<F>, parents: bool, fs: F, target: string): (r: StepResult<F>)
    ensures var c := if parents then calls.createDirAll(fs, target) else calls.createDir(fs, target);
      r.fs == c.fs && (r.Halt? <==> c.error.Some?) && (r.Next? ==> r.printed == "")
  {
    var c := if parents then calls.createDirAll(fs, target) else calls.createDir(fs, target);
    match c.error
    case Some(e) => Halt(c.fs, "mkdir: cannot create directory '" + target + "': " + e + "\n")
    case None => Next(c.fs, "")
  }

  /** `mkdir`. */
  function Mkdir<F>(calls: FsCalls<F>, args: seq<string>, cwd: string, fs: F): (r: Outcome<F>)
  {
    var operands := Operands(args);
    var targets := Targets(operands, cwd);
    if |targets| == 0 then Outcome("", "mkdir: missing operand\n", 1, fs)
    else Each((g, t) => MkdirStep(calls, Parents(operands), g, t), fs, targets)
  }

  /** `Mkdir::run`: one loop reads the flag and the targets. */
  method RunMkdir<F>(calls: FsCalls<F>, args: seq<string>, cwd: string, fs: F) returns (out: Outcome<F>)
    ensures out == Mkdir(calls, args, cwd, fs)
  {
    var operands := Operands(args);
    var parents := false;
    var targets: seq<string> := [];
    var i := 0;
    while i < |operands|
      invariant i <= |operands|
      invariant parents == Parents(operands[..i])
      invariant targets == Targets(operands[..i], cwd)
    {
      assert operands[..i + 1][..i] == operands[..i];
      var arg := operands[i];
      if arg == "-p" || arg == "--parents" {
        parents := true;
      } else if |arg| >= 1 && arg[0] == '-' {
      } else {
        targets := targets + [Resolve(cwd, arg)];
      }
      i := i + 1;
    }
    assert operands[..i] == operands;
    if |targets| == 0 {
      return Outcome("", "mkdir: missing operand\n", 1, fs);
    }
    out := RunEach((g, t) => MkdirStep(calls, parents, g, t), fs, targets);
  }

  /** A single directory is created with `create_dir` unless `-p` is given,
      before or after it. */
  lemma MkdirOne<F>(calls: FsCalls<F>, name: string, before: seq<string>, arg: string, after: seq<string>, cwd: string, fs: F)
    requires !IsFlag(arg)
    requires forall k :: 0 <= k < |before| ==> IsFlag(before[k])
    requires forall k :: 0 <= k < |after| ==> IsFlag(after[k])
    ensures var path := Resolve(cwd, arg);
      var parents := exists k :: 0 <= k < |before + after| && IsParentsFlag((before + after)[k]);
      var c := if parents then calls.createDirAll(fs, path) else calls.createDir(fs, path);
      Mkdir(calls, [name] + before + [arg] + after, cwd, fs) ==
        if c.error.None? then Outcome("", "", 0, c.fs)
        else Outcome("", "mkdir: cannot create directory '" + path + "': " + c.error.value + "\n", 1, c.fs)
  {
    hide Targets, Parents, Resolve;
    var operands := before + [arg] + after;
    assert Operands([name] + before + [arg] + after) == operands;
    OneTarget(before, arg, after, cwd);
    FlagsAround(before, arg, after);
    EachOne((g, t) => MkdirStep(calls, Parents(operands), g, t), fs, Resolve(cwd, arg));
  }

  lemma OneTarget(before: seq<string>, arg: string, after: seq<string>, cwd: string)
    requires !IsFlag(arg)
    requires forall k :: 0 <= k < |before| ==> IsFlag(before[k])
    requires forall k :: 0 <= k < |after| ==> IsFlag(after[k])
    ensures Targets(before + [arg] + after, cwd) == [Resolve(cwd, arg)]
  {
    TargetsAppend(before + [arg], after, cwd);
    TargetsAppend(before, [arg], cwd);
    OnlyFlags(before, cwd);
    OnlyFlags(after, cwd);
    TargetsOne(arg, cwd);
  }

  lemma FlagsAround(before: seq<string>, arg: string, after: seq<string>)
    requires !IsFlag(arg)
    ensures Parents(before + [arg] + after) <==> exists k :: 0 <= k < |before + after| && IsParentsFlag((before + after)[k])
  {
    var operands := before + [arg] + after;
    ParentsAnywhere(operands);
    if exists k :: 0 <= k < |before + after| && IsParentsFlag((before + after)[k]) {
      var k :| 0 <= k < |before + after| && IsParentsFlag((before + after)[k]);
      if k < |before| {
        assert operands[k] == (before + after)[k];
      } else {
        assert operands[k + 1] == (before + after)[k];
      }
    }
    if Parents(operands) {
      var k :| 0 <= k < |operands| && IsParentsFlag(operands[k]);
      assert k != |before|;
      if k < |before| {
        assert operands[k] == (before + after)[k];
      } else {
        assert operands[k] == (before + after)[k - 1];
      }
    }
  }

  /** Without a target nothing is created. */
  lemma MkdirNeedsTarget<F>(calls: FsCalls<F>, args: seq<string>, cwd: string, fs: F)
    requires forall k :: 1 <= k < |args| ==> IsFlag(args[k])
    ensures Mkdir(calls, args, cwd, fs) == Outcome("", "mkdir: missing operand\n", 1, fs)
  {
    OnlyFlags(Operands(args), cwd);
  }
}
