/** The `mv` command: renames one path to another, or moves several into a
    directory. */
module MvCommand {
  import opened Wrappers
  import opened Text
  import opened CommandCore

  /** Where a source goes: into a directory destination under its own last
      path component, otherwise to the destination itself. */
  function FinalDest(dest: string, destIsDir: bool, source: string): (r: string)
    ensures !destIsDir ==> r == dest
    ensures destIsDir ==> TrimEndChar(dest, '/') + "/" <= r && LastPiece(r, '/') == LastPiece(source, '/')
  {
    if destIsDir then
      ChildNamesEntry(dest, LastPiece(source, '/'));
      Child(dest, LastPiece(source, '/'))
    else dest
  }

  /** One source: renamed to its final destination; a failed rename ends
      the command. */
  function MvStep<F>(calls: FsCalls<F>, dest: string, destIsDir: bool, fs: F, source: string): (r: StepResult<F>)
    ensures var c := calls.rename(fs, source, FinalDest(dest, destIsDir, source));
      r.fs == c.fs && (r.Halt? <==> c.error.Some?) && (r.Next? ==> r.printed == "")
  {
    var finalDest := FinalDest(dest, destIsDir, source);
    var c := calls.rename(fs, source, finalDest);
    match c.error
    case Some(e) => Halt(c.fs, "mv: cannot move '" + source + "' to '" + finalDest + "': " + e + "\n")
    case None => Next(c.fs, "")
  }

  /** `mv`: the last target is the destination and the others are the
      sources. */
  function Mv<F>(calls: FsCalls<F>, args: seq<string>, cwd: string, fs: F): (r: Outcome<F>)
    ensures |Targets(Operands(args), cwd)| < 2 ==> r.exit == 1 && r.fs == fs
  {
    var targets := Targets(Operands(args), cwd);
    if |targets| < 2 then
      Outcome("", "mv: missing destination file operand after '" + (if |targets| == 0 then "" else targets[0]) + "'\n", 1, fs)
    else
      var dest := targets[|targets| - 1];
      var sources := targets[..|targets| - 1];
      var destIsDir := calls.metadata(fs, dest) == Ok(Directory);
      if |sources| > 1 && !destIsDir then Outcome("", "mv: target '" + dest + "' is not a directory\n", 1, fs)
      else Each((g, s) => MvStep(calls, dest, destIsDir, g, s), fs, sources)
  }

  /** `Mv::run`. */
  method RunMv<F>(calls: FsCalls<F>, args: seq<string>, cwd: string, fs: F) returns (out: Outcome<F>)
    ensures out == Mv(calls, args, cwd, fs)
  {
    var targets := CollectTargets(Operands(args), cwd);
    if |targets| < 2 {
      var first := if |targets| == 0 then "" else targets[0];
      return Outcome("", "mv: missing destination file operand after '" + first + "'\n", 1, fs);
    }
    var dest := targets[|targets| - 1];
    targets := targets[..|targets| - 1];
    var destIsDir := match calls.metadata(fs, dest) case Ok(kind) => kind == Directory case Err(_) => false;
    if |targets| > 1 && !destIsDir {
      return Outcome("", "mv: target '" + dest + "' is not a directory\n", 1, fs);
    }
    out := RunEach((g, s) => MvStep(calls, dest, destIsDir, g, s), fs, targets);
  }

  /** Two paths: a rename to the second, or a move into it when it is a
      directory. */
  lemma MvTwo<F>(calls: FsCalls<F>, name: string, a: string, b: string, cwd: string, fs: F)
    requires !IsFlag(a) && !IsFlag(b)
    ensures var source := Resolve(cwd, a); var dest := Resolve(cwd, b);
      var isDir := calls.metadata(fs, dest) == Ok(Directory);
      var to := if isDir then Child(dest, LastPiece(source, '/')) else dest;
      var c := calls.rename(fs, source, to);
      Mv(calls, [name, a, b], cwd, fs) ==
        if c.error.None? then Outcome("", "", 0, c.fs)
        else Outcome("", "mv: cannot move '" + source + "' to '" + to + "': " + c.error.value + "\n", 1, c.fs)
  {
    assert Operands([name, a, b]) == [a] + [b];
    TargetsAppend([a], [b], cwd);
    TargetsOne(a, cwd);
    TargetsOne(b, cwd);
    var dest := Resolve(cwd, b);
    var isDir := calls.metadata(fs, dest) == Ok(Directory);
    EachOne((g, s) => MvStep(calls, dest, isDir, g, s), fs, Resolve(cwd, a));
  }

  /** Several sources need a directory destination; otherwise nothing is
      moved. */
  lemma ManySourcesNeedDirectory<F>(calls: FsCalls<F>, args: seq<string>, cwd: string, fs: F)
    requires var targets := Targets(Operands(args), cwd);
      |targets| > 2 && calls.metadata(fs, targets[|targets| - 1]) != Ok(Directory)
    ensures var targets := Targets(Operands(args), cwd);
      Mv(calls, args, cwd, fs) == Outcome("", "mv: target '" + targets[|targets| - 1] + "' is not a directory\n", 1, fs)
  {
  }

  /** Into a directory, the moves happen in order and the first failure
      stops the rest, keeping the earlier ones. */
  lemma IntoDirectory<F>(calls: FsCalls<F>, dest: string, fs: F, sources: seq<string>, k: nat)
    requires k < |sources|
    ensures var step := (g, s) => MvStep(calls, dest, true, g, s);
      var before := Each(step, fs, sources[..k]);
      before.exit == 0 && step(before.fs, sources[k]).Halt? ==>
        Each(step, fs, sources) == Outcome("", step(before.fs, sources[k]).message, 1, step(before.fs, sources[k]).fs)
  {
    var step := (g, s) => MvStep(calls, dest, true, g, s);
    var before := Each(step, fs, sources[..k]);
    if before.exit == 0 && step(before.fs, sources[k]).Halt? {
      EachStopsAtFirstHalt(step, fs, sources, k);
      SilentSteps(calls, dest, true, fs, sources[..k]);
    }
  }

  /** Renames print nothing. */
  lemma {:induction false} SilentSteps<F>(calls: FsCalls<F>, dest: string, destIsDir: bool, fs: F, sources: seq<string>)
    ensures Each((g, s) => MvStep(calls, dest, destIsDir, g, s), fs, sources).stdout == ""
    decreases |sources|
  {
    if |sources| > 0 {
      SilentSteps(calls, dest, destIsDir, calls.rename(fs, sources[0], FinalDest(dest, destIsDir, sources[0])).fs, sources[1..]);
    }
  }
}
