/** The `touch` command: creates each named file that does not exist yet, as
    an empty file. */
module TouchCommand {
  import opened Wrappers
  import opened CommandCore

  /** One target: one that exists is left as it is; a missing one is
      written empty, and a failed write ends the command. */
  function TouchStep<F>(calls: FsCalls<F>, fs: F, target: string): (r: StepResult<F>)
    ensures calls.metadata(fs, target).Ok? ==> r == Next(fs, "")
    ensures calls.metadata(fs, target).Err? ==> r.fs == calls.write(fs, target, "").fs
    ensures r.Halt? <==> calls.metadata(fs, target).Err? && calls.write(fs, target, "").error.Some?
    ensures r.Next? ==> r.printed == ""
  {
    if calls.metadata(fs, target).Ok? then Next(fs, "")
    else
      var c := calls.write(fs, target, "");
      match c.error
      case Some(e) => Halt(c.fs, "touch: cannot touch '" + target + "': " + e + "\n")
      case None => Next(c.fs, "")
  }

  /** `touch`: flags are skipped, and at least one target is needed. */
  function Touch<F>(calls: FsCalls<F>, args: seq<string>, cwd: string, fs: F): (r: Outcome<F>)
  {
    var targets := Targets(Operands(args), cwd);
    if |targets| == 0 then Outcome("", "touch: missing file operand\n", 1, fs)
    else Each((g, t) => TouchStep(calls, g, t), fs, targets)
  }

  /** `Touch::run`. */
  method RunTouch<F>(calls: FsCalls<F>, args: seq<string>, cwd: string, fs: F) returns (out: Outcome<F>)
    ensures out == Touch(calls, args, cwd, fs)
  {
    var targets := CollectTargets(Operands(args), cwd);
    if |targets| == 0 {
      return Outcome("", "touch: missing file operand\n", 1, fs);
    }
    out := RunEach((g, t) => TouchStep(calls, g, t), fs, targets);
  }

  /** Without a target nothing is touched. */
  lemma TouchNeedsTarget<F>(calls: FsCalls<F>, args: seq<string>, cwd: string, fs: F)
    requires forall k :: 1 <= k < |args| ==> IsFlag(args[k])
    ensures Touch(calls, args, cwd, fs) == Outcome("", "touch: missing file operand\n", 1, fs)
  {
    OnlyFlags(Operands(args), cwd);
  }

  /** Targets that all exist already are all left alone. */
  lemma {:induction false} ExistingUntouched<F>(calls: FsCalls<F>, fs: F, targets: seq<string>)
    requires forall k :: 0 <= k < |targets| ==> calls.metadata(fs, targets[k]).Ok?
    ensures Each((g, t) => TouchStep(calls, g, t), fs, targets) == Outcome("", "", 0, fs)
    decreases |targets|
  {
    if |targets| > 0 {
      ExistingUntouched(calls, fs, targets[1..]);
    }
  }

  /** Touching one missing file writes it empty; if the write fails, the
      command fails with the reason. */
  lemma TouchOne<F>(calls: FsCalls<F>, name: string, arg: string, cwd: string, fs: F)
    requires !IsFlag(arg) && calls.metadata(fs, Resolve(cwd, arg)).Err?
    ensures var path := Resolve(cwd, arg); var c := calls.write(fs, path, "");
      Touch(calls, [name, arg], cwd, fs) ==
        if c.error.None? then Outcome("", "", 0, c.fs)
        else Outcome("", "touch: cannot touch '" + path + "': " + c.error.value + "\n", 1, c.fs)
  {
    assert Operands([name, arg]) == [arg];
    TargetsOne(arg, cwd);
    EachOne((g, t) => TouchStep(calls, g, t), fs, Resolve(cwd, arg));
  }
}
