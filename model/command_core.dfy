/** What the file commands (`rm`, `mv`, `mkdir`, `touch`, `cat`, `ls`) share:
    the `std::fs` calls they make, which reach the browser filesystem through
    a WASI shim that is not part of this model and so are taken as given
    functions of a filesystem state, and the way they read their operands. */
module CommandCore {
  import opened Wrappers
  import opened Text

  /** What `std::fs::metadata` reports about an existing path. */
  datatype Kind = RegularFile | Directory

  /** One `read_dir` entry that could be read: its name, whether its file
      type reads as a directory (an unreadable type reads as a file) and its
      size (an unreadable size reads as 0). */
  datatype DirEntry = DirEntry(name: string, isDir: bool, size: nat)

  /** The state after a filesystem call that may change it, and the error it
      reported, if any. A failing call may still have changed the state
      (`remove_dir_all` stops part way through). */
  datatype Change<F> = Change(fs: F, error: Option<string>)

  /** The `std::fs` calls, as functions of a filesystem state `F`. Every
      error is the message its `Display` prints. */
  datatype FsCalls<!F> = FsCalls(
    metadata: (F, string) -> Result<Kind, string>,
    readToString: (F, string) -> Result<string, string>,
    readDir: (F, string) -> Result<seq<DirEntry>, string>,
    write: (F, string, string) -> Change<F>,
    createDir: (F, string) -> Change<F>,
    createDirAll: (F, string) -> Change<F>,
    removeFile: (F, string) -> Change<F>,
    removeDirAll: (F, string) -> Change<F>,
    rename: (F, string, string) -> Change<F>)

  /** What a command leaves behind: its output streams, its exit code and
      the filesystem. */
  datatype Outcome<F> = Outcome(stdout: string, stderr: string, exit: int, fs: F)

  /** `input.args.iter().skip(1)`: the arguments after the command name. */
  function Operands(args: seq<string>): (r: seq<string>)
    ensures |args| >= 1 ==> r == args[1..]
    ensures |args| == 0 ==> r == []
  {
    if |args| == 0 then [] else args[1..]
  }

  predicate IsFlag(arg: string) {
    |arg| >= 1 && arg[0] == '-'
  }

  /** `format!("{}/{}", dir.trim_end_matches('/'), name)`: the path of
      `name` inside `dir`. */
  function Child(dir: string, name: string): (r: string)
    ensures |r| > |name| && r[|r| - |name|..] == name && r[|r| - |name| - 1] == '/' &&
      r[..|r| - |name| - 1] == TrimEndChar(dir, '/')
  {
    var r := TrimEndChar(dir, '/') + "/" + name;
    assert r[|r| - |name|..] == name;
    assert r[..|r| - |name| - 1] == TrimEndChar(dir, '/');
    r
  }

  /** A child's path ends with its name, and trailing slashes on the
      directory make no difference. */
  lemma ChildNamesEntry(dir: string, name: string)
    requires '/' !in name
    ensures LastPiece(Child(dir, name), '/') == name
    ensures Child(dir + "/", name) == Child(dir, name)
  {
    var p := Child(dir, name);
    var r := LastPiece(p, '/');
    if |r| > |name| {
      assert false;
    } else if |r| < |name| {
      assert false;
    }
    assert r == p[|p| - |r|..];
    assert TrimEndChar(dir + "/", '/') == TrimEndChar(dir, '/');
  }

  /** An argument resolved against the working directory: an absolute one
      as it is, a relative one as a child of the directory. */
  function Resolve(cwd: string, arg: string): (path: string)
    ensures |arg| >= 1 && arg[0] == '/' ==> path == arg
    ensures !(|arg| >= 1 && arg[0] == '/') ==> path == Child(cwd, arg)
    ensures |path| >= 1 && (path[0] == '/' <==> cwd == "" || cwd[0] == '/' || (|arg| >= 1 && arg[0] == '/'))
  {
    if |arg| >= 1 && arg[0] == '/' then arg
    else
      var base := TrimEndChar(cwd, '/');
      assert base == "" || base[0] == cwd[0];
      Child(cwd, arg)
  }

  /** The paths named by the arguments that are not flags, in order. */
  function Targets(args: seq<string>, cwd: string): (r: seq<string>)
    ensures |r| <= |args|
  {
    if |args| == 0 then []
    else
      var last := args[|args| - 1];
      Targets(args[..|args| - 1], cwd) + (if IsFlag(last) then [] else [Resolve(cwd, last)])
  }

  /** The argument loop that skips flags and collects resolved paths. */
  method CollectTargets(args: seq<string>, cwd: string) returns (targets: seq<string>)
    ensures targets == Targets(args, cwd)
  {
    targets := [];
    var i := 0;
    while i < |args|
      invariant i <= |args|
      invariant targets == Targets(args[..i], cwd)
    {
      assert args[..i + 1][..i] == args[..i];
      var arg := args[i];
      if !IsFlag(arg) {
        targets := targets + [Resolve(cwd, arg)];
      }
      i := i + 1;
    }
    assert args[..i] == args;
  }

  lemma {:induction false} TargetsAppend(a: seq<string>, b: seq<string>, cwd: string)
    ensures Targets(a + b, cwd) == Targets(a, cwd) + Targets(b, cwd)
    decreases |b|
  {
    if |b| == 0 {
      assert a + b == a;
    } else {
      var n := |b| - 1;
      assert (a + b)[..|a + b| - 1] == a + b[..n];
      TargetsAppend(a, b[..n], cwd);
    }
  }

  lemma TargetsOne(arg: string, cwd: string)
    ensures Targets([arg], cwd) == if IsFlag(arg) then [] else [Resolve(cwd, arg)]
  {
    assert [arg][..0] == [];
  }

  /** Flags are skipped wherever they stand: removing one leaves the targets
      as they were. */
  lemma FlagsIgnored(a: seq<string>, flag: string, b: seq<string>, cwd: string)
    requires IsFlag(flag)
    ensures Targets(a + [flag] + b, cwd) == Targets(a + b, cwd)
  {
    TargetsAppend(a + [flag], b, cwd);
    TargetsAppend(a, [flag], cwd);
    TargetsOne(flag, cwd);
    TargetsAppend(a, b, cwd);
  }

  /** Without flags every argument is a target, resolved, in order. */
  lemma {:induction false} TargetsWithoutFlags(args: seq<string>, cwd: string)
    requires forall k :: 0 <= k < |args| ==> !IsFlag(args[k])
    ensures |Targets(args, cwd)| == |args|
    ensures forall k :: 0 <= k < |args| ==> Targets(args, cwd)[k] == Resolve(cwd, args[k])
    decreases |args|
  {
    if |args| > 0 {
      TargetsWithoutFlags(args[..|args| - 1], cwd);
    }
  }

  /** Arguments that are all flags name no target. */
  lemma {:induction false} OnlyFlags(args: seq<string>, cwd: string)
    requires forall k :: 0 <= k < |args| ==> IsFlag(args[k])
    ensures Targets(args, cwd) == []
    decreases |args|
  {
    if |args| > 0 {
      OnlyFlags(args[..|args| - 1], cwd);
    }
  }

  /** A relative path under the root, and under a directory written with a
      trailing slash. */
  lemma ResolveExamples()
    ensures Resolve("/", "notes.txt") == "/notes.txt"
    ensures Resolve("/home/", "a") == "/home/a"
    ensures Resolve("/home", "a/b") == "/home/a/b"
    ensures Resolve("/home", "/etc") == "/etc"
  {
    assert TrimEndChar("/", '/') == "";
    assert TrimEndChar("/home/", '/') == "/home";
    assert TrimEndChar("/home", '/') == "/home";
  }

  /* ---------------- one target after another ---------------- */

  /** The decision for one target: go on with a new filesystem, having
      printed something, or stop with an error line. */
  datatype StepResult<F> = Next(fs: F, printed: string) | Halt(fs: F, message: string)

  /** The targets in order: each step runs on the filesystem the previous
      one left; the first step that stops ends the command with its message
      and exit code 1, keeping what earlier steps did. */
  function Each<F>(step: (F, string) -> StepResult<F>, fs: F, targets: seq<string>): (r: Outcome<F>)
    ensures r.exit == 0 || r.exit == 1
    ensures r.exit == 0 ==> r.stderr == ""
  {
    if |targets| == 0 then Outcome("", "", 0, fs)
    else match step(fs, targets[0])
      case Halt(fs', message) => Outcome("", message, 1, fs')
      case Next(fs', printed) =>
        var r := Each(step, fs', targets[1..]);
        r.(stdout := printed + r.stdout)
  }

  /** The loop over the targets. */
  method RunEach<F>(step: (F, string) -> StepResult<F>, fs: F, targets: seq<string>) returns (out: Outcome<F>)
    ensures out == Each(step, fs, targets)
  {
    var current := fs;
    var stdout := "";
    var i := 0;
    while i < |targets|
      invariant i <= |targets|
      invariant Each(step, fs, targets) == var r := Each(step, current, targets[i..]); r.(stdout := stdout + r.stdout)
    {
      assert targets[i..][1..] == targets[i + 1..];
      match step(current, targets[i]) {
        case Halt(fs', message) =>
          return Outcome(stdout, message, 1, fs');
        case Next(fs', printed) =>
          assert stdout + (printed + Each(step, fs', targets[i + 1..]).stdout) == (stdout + printed) + Each(step, fs', targets[i + 1..]).stdout;
          current, stdout := fs', stdout + printed;
      }
      i := i + 1;
    }
    return Outcome(stdout, "", 0, current);
  }

  /** Running `a` then `b` is running `a`, and then, only if `a` went
      through, `b` on the filesystem `a` left. */
  lemma {:induction false} EachAppend<F>(step: (F, string) -> StepResult<F>, fs: F, a: seq<string>, b: seq<string>)
    ensures Each(step, fs, a + b) ==
      var r := Each(step, fs, a);
      if r.exit != 0 then r
      else var s := Each(step, r.fs, b); s.(stdout := r.stdout + s.stdout)
    decreases |a|
  {
    if |a| == 0 {
      assert a + b == b;
    } else {
      assert (a + b)[0] == a[0] && (a + b)[1..] == a[1..] + b;
      match step(fs, a[0])
      case Halt(_, _) =>
      case Next(fs', printed) =>
        EachAppend(step, fs', a[1..], b);
        var r := Each(step, fs', a[1..]);
        if r.exit == 0 {
          var s := Each(step, r.fs, b);
          assert printed + (r.stdout + s.stdout) == (printed + r.stdout) + s.stdout;
        }
    }
  }

  /** One target. */
  lemma EachOne<F>(step: (F, string) -> StepResult<F>, fs: F, t: string)
    ensures Each(step, fs, [t]) == match step(fs, t)
      case Halt(fs', message) => Outcome("", message, 1, fs')
      case Next(fs', printed) => Outcome(printed, "", 0, fs')
  {
    assert [t][1..] == [];
  }

  /** A step that never stops lets every target through. */
  lemma {:induction false} EachNeverHalts<F>(step: (F, string) -> StepResult<F>, fs: F, targets: seq<string>)
    requires forall g: F, t: string :: step(g, t).Next?
    ensures Each(step, fs, targets).exit == 0 && Each(step, fs, targets).stderr == ""
    decreases |targets|
  {
    if |targets| > 0 {
      EachNeverHalts(step, step(fs, targets[0]).fs, targets[1..]);
    }
  }

  /** The command stops at the first target whose step stops: what the
      targets before it printed is kept, and the ones after it are not
      tried. */
  lemma EachStopsAtFirstHalt<F>(step: (F, string) -> StepResult<F>, fs: F, targets: seq<string>, k: nat)
    requires k < |targets|
    requires Each(step, fs, targets[..k]).exit == 0
    requires step(Each(step, fs, targets[..k]).fs, targets[k]).Halt?
    ensures var before := Each(step, fs, targets[..k]);
      var h := step(before.fs, targets[k]);
      Each(step, fs, targets) == Outcome(before.stdout, h.message, 1, h.fs)
  {
    hide Each;
    var rest := [targets[k]] + targets[k + 1..];
    assert targets == targets[..k] + rest;
    EachAppend(step, fs, targets[..k], rest);
    var before := Each(step, fs, targets[..k]);
    EachHaltsFirst(step, before.fs, rest);
    assert before.stdout + "" == before.stdout;
  }

  lemma EachHaltsFirst<F>(step: (F, string) -> StepResult<F>, fs: F, targets: seq<string>)
    requires |targets| > 0 && step(fs, targets[0]).Halt?
    ensures Each(step, fs, targets) == Outcome("", step(fs, targets[0]).message, 1, step(fs, targets[0]).fs)
  {
  }
}
