/** The built-in commands of the dispatcher (src/shell/dispatcher.ts,
    `builtinCommands`) as functions of the shell state and the argument
    list (`args[0]` is the command name). Each yields the command's output
    and the state after it. `sh` runs a script, which may never return,
    and `mv` of a directory into itself overflows the call stack and
    throws. */
module BuiltinSpec {
  import opened Wrappers
  import opened Text
  import opened OrderedMap
  import opened ShellTypes
  import V = VirtualFs
  import opened DispatchSpec

  /** The home directory `cd` goes to without an argument. */
  const Home := "/home/uzimaru0000"

  /** The names `builtinCommands` defines. */
  const BuiltinNames: set<string> := {"cd", "export", "pwd", "clear", "exit", "mkdir", "touch", "rm", "mv", "alias", "unalias", "sh"}

  // ---- cd, pwd, clear, exit ---------------------------------------------------

  function Cd(st: Snapshot, args: seq<string>): Run {
    var target := if |args| > 1 then args[1] else Home;
    var newPath := ResolvePath(st.cwd, target);
    if !Exists(st.root, newPath) then Done(Failure("cd: " + target + ": No such file or directory", 1), st)
    else if !IsDirAt(st.root, newPath) then Done(Failure("cd: " + target + ": Not a directory", 1), st)
    else Done(Success, st.(cwd := newPath))
  }

  /** `cd` either fails and changes nothing, or moves to a normalised path
      naming a directory; nothing but the working directory changes. */
  lemma CdLandsOnDirectory(st: Snapshot, args: seq<string>)
    ensures Cd(st, args).Done?
    ensures Cd(st, args).out.exitCode == 0 ==>
      var cwd := Cd(st, args).st.cwd;
      Cd(st, args).st == st.(cwd := cwd) && NormalizePath(cwd) == cwd &&
      V.Lookup(st.root, V.Normalized(cwd)).Some? && V.Lookup(st.root, V.Normalized(cwd)).value.kind == V.Directory
    ensures Cd(st, args).out.exitCode != 0 ==> Cd(st, args).st == st && Cd(st, args).out.exitCode == 1
  {
    var target := if |args| > 1 then args[1] else Home;
    var newPath := ResolvePath(st.cwd, target);
    if StartsWith(target, "/") {
      NormalizePathCanonical(target);
    } else {
      NormalizePathCanonical(st.cwd + "/" + target);
    }
    V.StatFacts(st.root, V.Normalized(newPath));
  }

  function Pwd(st: Snapshot): Run {
    Done(CommandOutput(st.cwd, "", 0), st)
  }

  /** The escape sequences the terminal reads as "clear the screen" and
      "close the session". */
  const ClearSequence := "\U{1B}[clear]"
  const ExitSequence := "\U{1B}[exit]"

  // ---- export ---------------------------------------------------------------------

  /** `key=value` lines for every variable, in insertion order. */
  function EnvListing(env: Entries<string, string>): (s: string)
    ensures |env| == 0 <==> s == ""
  {
    if |env| == 0 then "" else env[0].0 + "=" + env[0].1 + "\n" + EnvListing(env[1..])
  }

  function Export(st: Snapshot, args: seq<string>): Run {
    if |args| < 2 then Done(CommandOutput(EnvListing(st.env), "", 0), st)
    else match FindChar(args[1], '=')
      case None => Done(Failure("export: invalid argument", 1), st)
      case Some(eq) =>
        var key := args[1][..eq];
        var value := Join(NonEmpty([args[1][eq + 1..]] + args[2..]), " ");
        Done(Success, st.(env := Set(st.env, key, value)))
  }

  /** `export K=V a b` stores `V a b` under K, with empty pieces dropped,
      and changes no other variable; an argument without `=` is refused
      and changes nothing. */
  lemma ExportStores(st: Snapshot, key: string, v: string, rest: seq<string>)
    requires '=' !in key
    ensures var r := Export(st, ["export", key + "=" + v] + rest);
      r.Done? && r.out == Success &&
      Get(r.st.env, key) == Some(Join(NonEmpty([v] + rest), " ")) &&
      (forall k :: k != key ==> Get(r.st.env, k) == Get(st.env, k)) &&
      r.st.cwd == st.cwd && r.st.aliases == st.aliases && r.st.root == st.root
  {
    var args := ["export", key + "=" + v] + rest;
    var arg := key + "=" + v;
    assert args[1] == arg && args[2..] == rest;
    assert arg[|key|] == '=';
    assert '=' !in arg[..|key|] by { assert arg[..|key|] == key; }
    assert FindChar(arg, '=') == Some(|key|);
    assert arg[..|key|] == key && arg[|key| + 1..] == v;
  }

  /** `export A= x "" y` stores `x y`. */
  lemma ExportDropsEmpty(st: Snapshot)
    ensures Export(st, ["export", "A=", "x", "", "y"]).st.env == Set(st.env, "A", "x y")
  {
    var args := ["export", "A=", "x", "", "y"];
    var arg := "A=";
    assert args[1] == arg && args[2..] == ["x", "", "y"];
    assert arg[0] != '=' && arg[1] == '=';
    assert FindChar(arg, '=') == Some(1);
    assert arg[..1] == "A" && arg[2..] == "";
    assert [""] + ["x", "", "y"] == ["", "x", "", "y"];
    assert NonEmpty(["", "x", "", "y"]) == ["x", "y"] by {
      assert ["", "x", "", "y"][1..] == ["x", "", "y"];
      assert ["x", "", "y"][1..] == ["", "y"];
      assert ["", "y"][1..] == ["y"];
      assert ["y"][1..] == [];
    }
    assert Join(["x", "y"], " ") == "x y" by {
      assert ["x", "y"][1..] == ["y"];
    }
  }

  lemma ExportInvalid(st: Snapshot, arg: string, rest: seq<string>)
    requires '=' !in arg
    ensures Export(st, ["export", arg] + rest) == Done(Failure("export: invalid argument", 1), st)
  {
    assert (["export", arg] + rest)[1] == arg;
  }

  // ---- mkdir ---------------------------------------------------------------------

  /** An argument that does not start with `-` is none of the options. */
  lemma PlainArgument(arg: string)
    requires !StartsWith(arg, "-")
    ensures arg !in {"-p", "--parents", "-r", "-R", "--recursive", "-f", "--force", "-rf", "-fr"}
  {
  }

  /** A single plain argument is the only operand, with no option set. */
  lemma SingleOperand(name: string)
    requires !StartsWith(name, "-")
    ensures MkdirOptions([name]) == (false, [name])
    ensures RmFlags([name]) == RmOptions(false, false, [name])
    ensures RmFlags(["-f", name]) == RmOptions(false, true, [name])
    ensures Operands([name]) == [name]
  {
    assert [name][..0] == [];
    PlainArgument(name);
    assert MkdirOptions([name][..0]) == (false, []);
    assert [name][|[name]| - 1] == name;
    var m := MkdirOptions([name]);
    assert m.0 == false && m.1 == [name];
    assert RmFlags([name][..0]) == RmOptions(false, false, []);
    assert ["-f", name][..1] == ["-f"] && ["-f"][..0] == [];
    assert RmFlags(["-f"]) == RmOptions(false, true, []);
  }

  /** The `-p`/`--parents` flag and the operands among the arguments after
      the command name; other arguments starting with `-` are skipped. */
  function MkdirOptions(rest: seq<string>): (r: (bool, seq<string>))
    ensures r.0 <==> exists k :: 0 <= k < |rest| && rest[k] in {"-p", "--parents"}
    ensures forall t :: t in r.1 ==> t in rest && !StartsWith(t, "-")
  {
    if |rest| == 0 then (false, [])
    else
      var prev := MkdirOptions(rest[..|rest| - 1]);
      var arg := rest[|rest| - 1];
      assert forall k :: 0 <= k < |rest| - 1 ==> rest[..|rest| - 1][k] == rest[k];
      if arg == "-p" || arg == "--parents" then (true, prev.1)
      else if !StartsWith(arg, "-") then (prev.0, prev.1 + [arg])
      else prev
  }

  /** `mkdir -p`: create each missing directory along the path, from the
      root down; a directory that cannot be created ends the walk. The
      flag is whether every step succeeded, with the tree after the steps
      taken. */
  function MkdirChain(root: V.Node, current: string, parts: seq<string>): (bool, V.Node)
    decreases |parts|
  {
    if |parts| == 0 then (true, root)
    else
      var path := current + "/" + parts[0];
      if Exists(root, path) then MkdirChain(root, path, parts[1..])
      else match MkdirAt(root, path)
        case Err(_) => (false, root)
        case Ok(r) => MkdirChain(r, path, parts[1..])
  }

  /** The components `fullPath.split('/').filter(Boolean)` of a resolved path. */
  function PathParts(full: string): seq<string> {
    NonEmpty(Split(full, '/'))
  }

  /** `mkdir` on each operand in turn; the first failure ends the command
      with its message, keeping what was created before it. */
  function MkdirEach(root: V.Node, cwd: string, parents: bool, targets: seq<string>): (Option<string>, V.Node)
    decreases |targets|
  {
    if |targets| == 0 then (None, root)
    else
      var target := targets[0];
      var full := ResolvePath(cwd, target);
      if parents then
        var chain := MkdirChain(root, "", PathParts(full));
        if !chain.0 then (Some("mkdir: " + target + ": Operation failed"), chain.1)
        else MkdirEach(chain.1, cwd, parents, targets[1..])
      else match MkdirAt(root, full)
        case Ok(r) => MkdirEach(r, cwd, parents, targets[1..])
        case Err(e) =>
          var message := if e == V.NotFound then "No such file or directory"
            else if e == V.PermissionDenied then "File exists" else "Operation failed";
          (Some("mkdir: " + target + ": " + message), root)
  }

  function Mkdir(st: Snapshot, args: seq<string>): Run {
    if |args| < 2 then Done(Failure("mkdir: missing operand", 1), st)
    else
      var options := MkdirOptions(args[1..]);
      if |options.1| == 0 then Done(Failure("mkdir: missing operand", 1), st)
      else
        var r := MkdirEach(st.root, st.cwd, options.0, options.1);
        Done(if r.0.Some? then Failure(r.0.value, 1) else Success, st.(root := r.1))
  }

  /** `mkdir NAME` where NAME already exists, as a file or a directory,
      reports "File exists" and changes nothing. */
  lemma MkdirExisting(st: Snapshot, name: string)
    requires !StartsWith(name, "-")
    requires Exists(st.root, ResolvePath(st.cwd, name)) && V.Normalized(ResolvePath(st.cwd, name)) != []
    ensures Mkdir(st, ["mkdir", name]) == Done(Failure("mkdir: " + name + ": File exists", 1), st)
  {
    hide *;
    MkdirOneOperand(st, name);
    MkdirOverExisting(st.root, ResolvePath(st.cwd, name));
    MkdirEachRefused(st.root, st.cwd, name);
  }

  /** `mkdir NAME` is `mkdir` without `-p` on the one operand NAME. */
  lemma MkdirOneOperand(st: Snapshot, name: string)
    requires !StartsWith(name, "-")
    ensures var r := MkdirEach(st.root, st.cwd, false, [name]);
      Mkdir(st, ["mkdir", name]) == Done(if r.0.Some? then Failure(r.0.value, 1) else Success, st.(root := r.1))
  {
    hide MkdirEach;
    assert ["mkdir", name][1..] == [name];
    SingleOperand(name);
  }

  /** Creating a path that already resolves is refused with `permission-denied`. */
  lemma MkdirOverExisting(root: V.Node, path: string)
    requires Exists(root, path) && V.Normalized(path) != []
    ensures MkdirAt(root, path) == Err(V.PermissionDenied)
  {
    var parts := V.Normalized(path);
    assert parts == V.Init(parts) + [V.Last(parts)];
    if V.Lookup(root, V.Init(parts)).None? {
      V.LookupPrefixFails(root, V.Init(parts), [V.Last(parts)]);
    }
    V.LookupAppend(root, V.Init(parts), [V.Last(parts)]);
    V.MkdirErrors(root, parts);
  }

  /** A `permission-denied` refusal reads "File exists" and keeps the tree. */
  lemma MkdirEachRefused(root: V.Node, cwd: string, name: string)
    requires MkdirAt(root, ResolvePath(cwd, name)) == Err(V.PermissionDenied)
    ensures MkdirEach(root, cwd, false, [name]) == (Some("mkdir: " + name + ": File exists"), root)
  {
    hide MkdirAt;
    assert [name][0] == name;
    assert "mkdir: " + name + ": " + "File exists" == "mkdir: " + name + ": File exists";
  }

  /** After `mkdir -p` succeeds the whole path resolves (to a directory, or
      to a file that was already there: an existing entry is never
      examined). */
  lemma {:induction false} MkdirChainReaches(root: V.Node, current: string, parts: seq<string>)
    requires V.Canonical(parts)
    requires Exists(root, current)
    requires MkdirChain(root, current, parts).0
    ensures V.Lookup(MkdirChain(root, current, parts).1, V.Normalized(current) + parts).Some?
    decreases |parts|
  {
    if |parts| == 0 {
      assert V.Normalized(current) + parts == V.Normalized(current);
    } else {
      var next, path := MkdirChainStep(root, current, parts);
      hide *;
      MkdirChainReaches(next, path, parts[1..]);
    }
  }

  /** The first step of a successful `mkdir -p`: the rest of the walk
      starts one component further down, where the path now resolves. */
  lemma MkdirChainStep(root: V.Node, current: string, parts: seq<string>) returns (next: V.Node, path: string)
    requires V.Canonical(parts) && |parts| > 0
    requires MkdirChain(root, current, parts).0
    ensures V.Canonical(parts[1..])
    ensures Exists(next, path)
    ensures MkdirChain(next, path, parts[1..]) == MkdirChain(root, current, parts)
    ensures V.Normalized(path) + parts[1..] == V.Normalized(current) + parts
  {
    hide *;
    next, path := MkdirChainUnfold(root, current, parts);
    CanonicalFirst(parts);
    MkdirStepReaches(root, current, parts[0]);
  }

  /** A canonical path splits into a canonical first component and a canonical rest. */
  lemma CanonicalFirst(parts: seq<string>)
    requires V.Canonical(parts) && |parts| > 0
    ensures V.Canonical([parts[0]]) && V.Canonical(parts[1..])
    ensures parts == [parts[0]] + parts[1..]
  {
    assert [parts[0]][0] == parts[0];
  }

  /** One step of the `mkdir -p` walk, unfolded. */
  lemma MkdirChainUnfold(root: V.Node, current: string, parts: seq<string>) returns (next: V.Node, path: string)
    requires |parts| > 0 && MkdirChain(root, current, parts).0
    ensures path == current + "/" + parts[0]
    ensures !Exists(root, path) ==> MkdirAt(root, path).Ok? && next == MkdirAt(root, path).value
    ensures Exists(root, path) ==> next == root
    ensures MkdirChain(next, path, parts[1..]) == MkdirChain(root, current, parts)
  {
    hide V.Normalized, NormalizePath;
    path := current + "/" + parts[0];
    next := if Exists(root, path) then root else MkdirAt(root, path).value;
  }

  /** One step of `mkdir -p`: the next directory resolves afterwards. */
  lemma MkdirStepReaches(root: V.Node, current: string, part: string)
    requires V.Canonical([part])
    ensures V.Normalized(current + "/" + part) == V.Normalized(current) + [part]
    ensures var path := current + "/" + part;
      !Exists(root, path) && MkdirAt(root, path).Ok? ==> Exists(MkdirAt(root, path).value, path)
  {
    var path := current + "/" + part;
    NormalizedChild(current, part);
    if !Exists(root, path) && MkdirAt(root, path).Ok? {
      V.MkdirOnlyTarget(root, V.Normalized(path), V.Normalized(path));
    }
  }

  // ---- touch -----------------------------------------------------------------------

  /** `touch` on each argument after the name: options are skipped, a
      missing file is created empty, an existing entry is left alone. */
  function TouchEach(root: V.Node, cwd: string, rest: seq<string>): (Option<string>, V.Node)
    decreases |rest|
  {
    if |rest| == 0 then (None, root)
    else
      var arg := rest[0];
      var full := ResolvePath(cwd, arg);
      if StartsWith(arg, "-") || Exists(root, full) then TouchEach(root, cwd, rest[1..])
      else match WriteAt(root, full, [])
        case Err(_) => (Some("touch: " + arg + ": No such file or directory"), root)
        case Ok(r) => TouchEach(r, cwd, rest[1..])
  }

  function Touch(st: Snapshot, args: seq<string>): Run {
    if |args| < 2 then Done(Failure("touch: missing operand", 1), st)
    else
      var r := TouchEach(st.root, st.cwd, args[1..]);
      Done(if r.0.Some? then Failure(r.0.value, 1) else Success, st.(root := r.1))
  }

  /** Touching names that all exist changes nothing. */
  lemma {:induction false} TouchKeepsExisting(root: V.Node, cwd: string, rest: seq<string>)
    requires forall k :: 0 <= k < |rest| ==> Exists(root, ResolvePath(cwd, rest[k]))
    ensures TouchEach(root, cwd, rest) == (None, root)
    decreases |rest|
  {
    if |rest| > 0 {
      assert Exists(root, ResolvePath(cwd, rest[0]));
      TouchKeepsExisting(root, cwd, rest[1..]);
    }
  }

  /** Touching a missing name whose directory exists creates an empty file. */
  lemma TouchCreatesEmpty(st: Snapshot, name: string)
    requires !StartsWith(name, "-") && !Exists(st.root, ResolvePath(st.cwd, name))
    requires WriteAt(st.root, ResolvePath(st.cwd, name), []).Ok?
    ensures Touch(st, ["touch", name]).out == Success
    ensures ReadAt(Touch(st, ["touch", name]).st.root, ResolvePath(st.cwd, name)) == Ok([])
  {
    var full := ResolvePath(st.cwd, name);
    assert ["touch", name][1..] == [name];
    assert [name][1..] == [];
    var r := WriteAt(st.root, full, []).value;
    assert TouchEach(st.root, st.cwd, [name]) == TouchEach(r, st.cwd, []);
    V.ReadAfterWrite(st.root, V.Normalized(full), []);
  }

  // ---- rm ------------------------------------------------------------------------------

  /** The recursive and force flags and the operands. `-r`, `-R`,
      `--recursive`, `-f`, `--force`, `-rf`, `-fr` are recognised; any
      other argument starting with `-` sets recursive when it contains `r`
      or `R` and force when it contains `f`. */
  datatype RmOptions = RmOptions(recursive: bool, force: bool, targets: seq<string>)

  function RmFlags(rest: seq<string>): (r: RmOptions)
    ensures forall t :: t in r.targets ==> t in rest && !StartsWith(t, "-")
  {
    if |rest| == 0 then RmOptions(false, false, [])
    else
      var prev := RmFlags(rest[..|rest| - 1]);
      var arg := rest[|rest| - 1];
      assert forall t :: t in rest[..|rest| - 1] ==> t in rest;
      if StartsWith(arg, "-") then
        var flags := OptionFlags(arg);
        prev.(recursive := prev.recursive || flags.0, force := prev.force || flags.1)
      else prev.(targets := prev.targets + [arg])
  }

  /** The flags one option turns on, as (recursive, force): the exact
      options first, then the letters of any other. (Every exact option
      starts with `-`, so testing that first keeps the source's order.) */
  function OptionFlags(arg: string): (bool, bool) {
    if arg == "-r" || arg == "-R" || arg == "--recursive" then (true, false)
    else if arg == "-f" || arg == "--force" then (false, true)
    else if arg == "-rf" || arg == "-fr" then (true, true)
    else ('r' in arg || 'R' in arg, 'f' in arg)
  }

  /** Every option is detected by its letters, except that `--force` is
      matched exactly first: recursive is on exactly when some option other
      than `--force` contains `r` or `R`, and force exactly when some option
      contains `f`. */
  lemma {:induction false} RmFlagsByLetter(rest: seq<string>)
    ensures RmFlags(rest).recursive <==> exists k :: 0 <= k < |rest| && SetsRecursive(rest[k])
    ensures RmFlags(rest).force <==> exists k :: 0 <= k < |rest| && SetsForce(rest[k])
    decreases |rest|
  {
    if |rest| > 0 {
      var init := rest[..|rest| - 1];
      RmFlagsByLetter(init);
      RmFlagsLast(rest);
      assert forall k :: 0 <= k < |init| ==> init[k] == rest[k];
      if RmFlags(rest).recursive && !RmFlags(init).recursive {
        assert SetsRecursive(rest[|rest| - 1]);
      }
      if RmFlags(rest).force && !RmFlags(init).force {
        assert SetsForce(rest[|rest| - 1]);
      }
    }
  }

  /** An option other than `--force` containing `r` or `R`. */
  predicate SetsRecursive(arg: string) {
    StartsWith(arg, "-") && arg != "--force" && ('r' in arg || 'R' in arg)
  }

  /** An option containing `f`. */
  predicate SetsForce(arg: string) {
    StartsWith(arg, "-") && 'f' in arg
  }

  /** The last argument adds its own letters to the flags of those before it. */
  lemma RmFlagsLast(rest: seq<string>)
    requires |rest| > 0
    ensures var init := RmFlags(rest[..|rest| - 1]);
      RmFlags(rest).recursive == (init.recursive || SetsRecursive(rest[|rest| - 1])) &&
      RmFlags(rest).force == (init.force || SetsForce(rest[|rest| - 1]))
  {
    var arg := rest[|rest| - 1];
    if StartsWith(arg, "-") {
      OptionFlagsByLetter(arg);
    }
  }

  /** Every option's flags are those of its letters, `--force` aside. */
  lemma OptionFlagsByLetter(arg: string)
    requires StartsWith(arg, "-")
    ensures OptionFlags(arg) == (SetsRecursive(arg), SetsForce(arg))
  {
    if arg in {"-r", "-R", "-f", "-rf", "-fr"} {
      ShortOptions();
    } else if arg in {"--recursive", "--force"} {
      LongOptions();
    }
  }

  /** The letters of the exactly-matched short options. */
  lemma ShortOptions()
    ensures SetsRecursive("-r") && !SetsForce("-r") && SetsRecursive("-R") && !SetsForce("-R")
    ensures !SetsRecursive("-f") && SetsForce("-f")
    ensures SetsRecursive("-rf") && SetsForce("-rf") && SetsRecursive("-fr") && SetsForce("-fr")
  {
    assert "-r" == ['-', 'r'] && "-R" == ['-', 'R'] && "-f" == ['-', 'f'];
    assert "-rf"[1] == 'r' && "-rf"[2] == 'f' && "-fr"[1] == 'f' && "-fr"[2] == 'r';
  }

  /** The letters of the exactly-matched long options. */
  lemma LongOptions()
    ensures SetsRecursive("--recursive") && !SetsForce("--recursive")
    ensures !SetsRecursive("--force") && SetsForce("--force")
  {
    assert "--force"[2] == 'f';
    assert "--recursive" == ['-', '-', 'r', 'e', 'c', 'u', 'r', 's', 'i', 'v', 'e'];
  }

  /** `rm` on each operand in turn; the first error not excused by force
      ends the command, keeping the removals before it. */
  function RmEach(root: V.Node, cwd: string, recursive: bool, force: bool, targets: seq<string>): (Option<string>, V.Node)
    decreases |targets|
  {
    if |targets| == 0 then (None, root)
    else
      var target := targets[0];
      var full := ResolvePath(cwd, target);
      if !Exists(root, full) then
        if !force then (Some("rm: " + target + ": No such file or directory"), root)
        else RmEach(root, cwd, recursive, force, targets[1..])
      else if IsDirAt(root, full) && !recursive then (Some("rm: " + target + ": is a directory"), root)
      else match RemoveAt(root, full)
        case Err(_) =>
          if !force then (Some("rm: " + target + ": Operation failed"), root)
          else RmEach(root, cwd, recursive, force, targets[1..])
        case Ok(r) => RmEach(r, cwd, recursive, force, targets[1..])
  }

  function Rm(st: Snapshot, args: seq<string>): Run {
    var options := RmFlags(if |args| > 0 then args[1..] else []);
    if |options.targets| == 0 then Done(Failure("rm: missing operand", 1), st)
    else
      var r := RmEach(st.root, st.cwd, options.recursive, options.force, options.targets);
      Done(if r.0.Some? then Failure(r.0.value, 1) else Success, st.(root := r.1))
  }

  /** A successful `rm` leaves none of its operands behind, except the root
      directory, which cannot be removed and is silently kept under force. */
  lemma {:induction false} RmRemovesAll(root: V.Node, cwd: string, recursive: bool, force: bool, targets: seq<string>, k: nat)
    requires k < |targets| && RmEach(root, cwd, recursive, force, targets).0.None?
    requires V.Normalized(ResolvePath(cwd, targets[k])) != []
    ensures !Exists(RmEach(root, cwd, recursive, force, targets).1, ResolvePath(cwd, targets[k]))
    decreases k
  {
    hide *;
    var next := RmStep(root, cwd, recursive, force, targets);
    if k == 0 {
      RmRemovesFirst(root, cwd, recursive, force, targets, next);
    } else {
      assert targets[1..][k - 1] == targets[k];
      RmRemovesAll(next, cwd, recursive, force, targets[1..], k - 1);
    }
  }

  /** The first operand of a successful `rm` is gone after its own step and
      stays gone through the rest. */
  lemma RmRemovesFirst(root: V.Node, cwd: string, recursive: bool, force: bool, targets: seq<string>, next: V.Node)
    requires |targets| > 0 && RmEach(root, cwd, recursive, force, targets).0.None?
    requires V.Normalized(ResolvePath(cwd, targets[0])) != []
    requires var full := ResolvePath(cwd, targets[0]);
      next == if Exists(root, full) && RemoveAt(root, full).Ok? then RemoveAt(root, full).value else root
    requires RmEach(root, cwd, recursive, force, targets) == RmEach(next, cwd, recursive, force, targets[1..])
    ensures !Exists(RmEach(root, cwd, recursive, force, targets).1, ResolvePath(cwd, targets[0]))
  {
    hide RmEach, V.Normalized, NormalizePath;
    var full := ResolvePath(cwd, targets[0]);
    var parts := V.Normalized(full);
    V.RemoveErrors(root, parts);
    if Exists(root, full) {
      V.RemoveOnlyTarget(root, parts, parts);
    }
    RmKeepsGone(next, cwd, recursive, force, targets[1..], parts);
  }

  /** One operand of a successful `rm`: the rest of the command runs on the
      tree with that operand removed, or on the same tree when it was
      missing or could not be removed under force. */
  lemma RmStep(root: V.Node, cwd: string, recursive: bool, force: bool, targets: seq<string>) returns (next: V.Node)
    requires |targets| > 0 && RmEach(root, cwd, recursive, force, targets).0.None?
    ensures var full := ResolvePath(cwd, targets[0]);
      next == if Exists(root, full) && RemoveAt(root, full).Ok? then RemoveAt(root, full).value else root
    ensures RmEach(root, cwd, recursive, force, targets) == RmEach(next, cwd, recursive, force, targets[1..])
  {
    hide V.Normalized, NormalizePath;
    var full := ResolvePath(cwd, targets[0]);
    next := if Exists(root, full) && RemoveAt(root, full).Ok? then RemoveAt(root, full).value else root;
  }

  /** Removing never brings a path back. */
  lemma {:induction false} RmKeepsGone(root: V.Node, cwd: string, recursive: bool, force: bool, targets: seq<string>, q: seq<string>)
    requires V.Lookup(root, q).None?
    ensures V.Lookup(RmEach(root, cwd, recursive, force, targets).1, q).None?
    decreases |targets|
  {
    hide V.Normalized, NormalizePath;
    if |targets| > 0 {
      var full := ResolvePath(cwd, targets[0]);
      if Exists(root, full) && RemoveAt(root, full).Ok? {
        var parts := V.Normalized(full);
        V.RemoveOnlyTarget(root, parts, q);
        if q < parts {
          assert V.Header(V.Lookup(root, q)) == None;
        }
        RmKeepsGone(RemoveAt(root, full).value, cwd, recursive, force, targets[1..], q);
      } else {
        RmKeepsGone(root, cwd, recursive, force, targets[1..], q);
      }
    }
  }

  /** A missing operand is an error without force and skipped with it. */
  lemma RmMissing(st: Snapshot, name: string)
    requires !StartsWith(name, "-") && !Exists(st.root, ResolvePath(st.cwd, name))
    ensures Rm(st, ["rm", name]) == Done(Failure("rm: " + name + ": No such file or directory", 1), st)
    ensures Rm(st, ["rm", "-f", name]) == Done(Success, st)
  {
    hide *;
    SingleOperand(name);
    assert ["rm", name][1..] == [name];
    assert ["rm", "-f", name][1..] == ["-f", name];
    RmOneMissing(st.root, st.cwd, false, name);
    RmOneMissing(st.root, st.cwd, true, name);
    RmOfOne(st, ["rm", name], false, false, name);
    RmOfOne(st, ["rm", "-f", name], false, true, name);
  }

  /** `rm` with one operand is the removal of that operand alone. */
  lemma RmOfOne(st: Snapshot, args: seq<string>, recursive: bool, force: bool, name: string)
    requires |args| > 0 && RmFlags(args[1..]) == RmOptions(recursive, force, [name])
    ensures var r := RmEach(st.root, st.cwd, recursive, force, [name]);
      Rm(st, args) == Done(if r.0.Some? then Failure(r.0.value, 1) else Success, st.(root := r.1))
  {
    hide RmEach;
  }

  /** One missing operand: an error without force, nothing with it. */
  lemma RmOneMissing(root: V.Node, cwd: string, force: bool, name: string)
    requires !Exists(root, ResolvePath(cwd, name))
    ensures RmEach(root, cwd, false, force, [name]) ==
      if force then (None, root) else (Some("rm: " + name + ": No such file or directory"), root)
  {
    hide V.Normalized, NormalizePath, Exists;
    assert [name][1..] == [];
  }

  /** One directory operand without `-r` is refused. */
  lemma RmOneDirectory(root: V.Node, cwd: string, name: string)
    requires Exists(root, ResolvePath(cwd, name)) && IsDirAt(root, ResolvePath(cwd, name))
    ensures RmEach(root, cwd, false, false, [name]) == (Some("rm: " + name + ": is a directory"), root)
  {
    hide V.Normalized, NormalizePath, Exists, IsDirAt;
  }

  lemma DirectoryExists(root: V.Node, path: string)
    requires IsDirAt(root, path)
    ensures Exists(root, path)
  {
    V.StatFacts(root, V.Normalized(path));
  }

  /** A directory is refused without `-r` and left in place. */
  lemma RmDirectoryNeedsRecursive(st: Snapshot, name: string)
    requires !StartsWith(name, "-") && IsDirAt(st.root, ResolvePath(st.cwd, name))
    ensures Rm(st, ["rm", name]) == Done(Failure("rm: " + name + ": is a directory", 1), st)
  {
    hide *;
    DirectoryExists(st.root, ResolvePath(st.cwd, name));
    SingleOperand(name);
    assert ["rm", name][1..] == [name];
    RmOneDirectory(st.root, st.cwd, name);
    RmOfOne(st, ["rm", name], false, false, name);
  }

  /** `--verbose` contains an `r`, so it turns on recursive removal. */
  lemma RmVerboseIsRecursive()
    ensures RmFlags(["--verbose"]).recursive && !RmFlags(["--verbose"]).force
  {
    assert ["--verbose"][..0] == [];
    assert "--verbose"[4] == 'r';
    assert "--verbose" == ['-', '-', 'v', 'e', 'r', 'b', 'o', 's', 'e'];
  }

  // ---- mv -------------------------------------------------------------------------------

  /** The arguments after the name that do not start with `-`. */
  function Operands(rest: seq<string>): (r: seq<string>)
    ensures forall t :: t in r <==> t in rest && !StartsWith(t, "-")
    ensures |r| <= |rest|
  {
    if |rest| == 0 then []
    else
      var prev := Operands(rest[..|rest| - 1]);
      var arg := rest[|rest| - 1];
      assert rest == rest[..|rest| - 1] + [arg];
      if StartsWith(arg, "-") then prev else prev + [arg]
  }

  /** What a directory move ends in: the tree and the error message, if
      any, or Exhausted when the moves nest deeper than the engine's
      recursion limit, with the tree as it was when the call stack
      overflowed (nothing undoes the moves made so far). */
  datatype MoveOutcome = Moved(root: V.Node, error: Option<string>) | Exhausted(root: V.Node)

  /** `moveDirectory`: create the destination, move every entry of the
      source into it (directories by the same procedure, files by
      copying), then remove the source. */
  function MoveDirectory(root: V.Node, src: string, dst: string, fuel: nat): MoveOutcome
    decreases fuel, 0, 0
  {
    if fuel == 0 then Exhausted(root)
    else match MkdirAt(root, dst)
      case Err(_) => Moved(root, Some("Cannot create destination directory"))
      case Ok(r1) => MoveContents(r1, src, dst, fuel - 1)
  }

  /** The rest of `moveDirectory` once the destination exists: list the
      source, move its entries, then remove it. */
  function MoveContents(root: V.Node, src: string, dst: string, fuel: nat): MoveOutcome
    decreases fuel, 2, 0
  {
    match ListAt(root, src)
    case Err(_) => Moved(root, Some("Cannot read source directory"))
    case Ok(entries) => RemoveSource(MoveEntries(root, src, dst, entries, fuel), src)
  }

  /** The source directory is removed once all its entries have moved. */
  function RemoveSource(m: MoveOutcome, src: string): MoveOutcome {
    if m.Moved? && m.error.None? then Moved(After(RemoveAt(m.root, src), m.root), None) else m
  }

  function MoveEntries(root: V.Node, src: string, dst: string, entries: seq<V.FileEntry>, fuel: nat): MoveOutcome
    decreases fuel, 1, |entries|
  {
    if |entries| == 0 then Moved(root, None)
    else
      var entry := entries[0];
      var srcEntry := src + "/" + entry.name;
      var dstEntry := dst + "/" + entry.name;
      if entry.isDir then
        match MoveDirectory(root, srcEntry, dstEntry, fuel)
        case Exhausted(r) => Exhausted(r)
        case Moved(r, Some(e)) => Moved(r, Some(e))
        case Moved(r, None) => MoveEntries(r, src, dst, entries[1..], fuel)
      else match ReadAt(root, srcEntry)
        case Err(_) => Moved(root, Some("Cannot read file: " + entry.name))
        case Ok(content) =>
          match WriteAt(root, dstEntry, content)
          case Err(_) => Moved(root, Some("Cannot write file: " + entry.name))
          case Ok(r) => MoveEntries(r, src, dst, entries[1..], fuel)
  }

  /** `source.split('/').pop()` */
  function BaseName(source: string): string {
    LastPiece(source, '/')
  }

  /** How one source of `mv` ends: the tree for the next source, or the
      command's result. */
  datatype MvStep = Next(root: V.Node) | Stop(r: Run)

  /** One source: a missing one ends the command; a directory is moved
      with `moveDirectory`; a file is read, written to the destination and
      then removed. */
  function MvOne(h: Host, st: Snapshot, source: string, destPath: string, destIsDir: bool): MvStep {
    var sourcePath := ResolvePath(st.cwd, source);
    if !Exists(st.root, sourcePath) then Stop(Done(Failure("mv: " + source + ": No such file or directory", 1), st))
    else
      var finalDest := if destIsDir then destPath + "/" + BaseName(source) else destPath;
      if IsDirAt(st.root, sourcePath) then MvDirectory(h, st, source, sourcePath, finalDest)
      else MvFile(st, source, sourcePath, finalDest)
  }

  /** A directory source of `mv`, moved by `moveDirectory`. A move that
      overflows the call stack throws out of `mv` (nothing in the dispatcher
      catches it), leaving the tree as the overflow found it. */
  function MvDirectory(h: Host, st: Snapshot, source: string, sourcePath: string, finalDest: string): MvStep {
    match MoveDirectory(st.root, sourcePath, finalDest, h.moveDepth)
    case Exhausted(r) => Stop(Throws(StackOverflow, st.(root := r)))
    case Moved(r, Some(e)) =>
      Stop(Done(Failure("mv: cannot move '" + source + "' to '" + finalDest + "': " + e, 1), st.(root := r)))
    case Moved(r, None) => Next(r)
  }

  /** A file source of `mv`: read, written to the destination, then removed,
      whether or not the removal succeeds. */
  function MvFile(st: Snapshot, source: string, sourcePath: string, finalDest: string): MvStep {
    match ReadAt(st.root, sourcePath)
    case Err(_) => Stop(Done(Failure("mv: cannot read '" + source + "'", 1), st))
    case Ok(content) =>
      match WriteAt(st.root, finalDest, content)
      case Err(_) => Stop(Done(Failure("mv: cannot write to '" + finalDest + "'", 1), st))
      case Ok(r) => Next(After(RemoveAt(r, sourcePath), r))
  }

  /** Each source in turn, until one ends the command. */
  function MvEach(h: Host, st: Snapshot, sources: seq<string>, destPath: string, destIsDir: bool): Run
    decreases |sources|
  {
    if |sources| == 0 then Done(Success, st)
    else match MvOne(h, st, sources[0], destPath, destIsDir)
      case Stop(r) => r
      case Next(root) => MvEach(h, st.(root := root), sources[1..], destPath, destIsDir)
  }

  function Mv(h: Host, st: Snapshot, args: seq<string>): Run {
    var targets := Operands(if |args| > 0 then args[1..] else []);
    if |targets| < 2 then
      Done(Failure("mv: missing destination file operand after '" + (if |targets| > 0 then targets[0] else "") + "'", 1), st)
    else
      var dest := targets[|targets| - 1];
      var destPath := ResolvePath(st.cwd, dest);
      var destIsDir := IsDirAt(st.root, destPath);
      if |targets| > 2 && !destIsDir then Done(Failure("mv: target '" + dest + "' is not a directory", 1), st)
      else MvEach(h, st, targets[..|targets| - 1], destPath, destIsDir)
  }

  /** Several sources need a directory as destination. */
  lemma MvSeveralSources(h: Host, st: Snapshot, a: string, b: string, dest: string)
    requires !StartsWith(a, "-") && !StartsWith(b, "-") && !StartsWith(dest, "-")
    requires !IsDirAt(st.root, ResolvePath(st.cwd, dest))
    ensures Mv(h, st, ["mv", a, b, dest]) == Done(Failure("mv: target '" + dest + "' is not a directory", 1), st)
  {
    var rest := ["mv", a, b, dest][1..];
    assert rest == [a, b, dest];
    OperandsAll(rest);
    hide Operands, MvEach, ResolvePath, IsDirAt;
  }

  /** Without options every argument is an operand, in order. */
  lemma {:induction false} OperandsAll(rest: seq<string>)
    requires forall k :: 0 <= k < |rest| ==> !StartsWith(rest[k], "-")
    ensures Operands(rest) == rest
    decreases |rest|
  {
    if |rest| > 0 {
      OperandsAll(rest[..|rest| - 1]);
      assert rest == rest[..|rest| - 1] + [rest[|rest| - 1]];
    }
  }

  /** `/name` written `k` times: where `mv d d` has got to after `k` levels. */
  function Nested(name: string, k: nat): string {
    if k == 0 then "" else "/" + name + Nested(name, k - 1)
  }

  /** Moving a directory into itself overflows the call stack: with the
      destination inside the source, every level creates the next one and
      recurses into it, whatever the recursion limit. What was done stays:
      every path that existed still exists (the source is never removed),
      and the copies `src/name`, `src/name/name`, ... are nested one per
      level reached. */
  lemma {:induction false} MoveIntoItselfThrows(root: V.Node, src: string, name: string, fuel: nat)
    requires V.Canonical([name])
    requires ListAt(root, src) == Ok([])
    ensures MoveDirectory(root, src, src + "/" + name, fuel).Exhausted?
    ensures var r := MoveDirectory(root, src, src + "/" + name, fuel).root;
      forall p :: Exists(root, p) ==> Exists(r, p)
    ensures var r := MoveDirectory(root, src, src + "/" + name, fuel).root;
      forall k :: 0 <= k <= fuel ==> Exists(r, src + Nested(name, k))
    decreases fuel
  {
    hide *;
    ListedExists(root, src);
    if fuel == 0 {
      NoNestingLeft(root, src, src + "/" + name);
      NestedZero(name);
      assert src + Nested(name, 0) == src;
    } else {
      var dst := src + "/" + name;
      var r1 := MkdirInEmpty(root, src, name);
      MkdirKeepsPaths(root, dst, r1);
      MoveIntoItselfThrows(r1, dst, name, fuel - 1);
      var r := MoveDirectory(r1, dst, dst + "/" + name, fuel - 1).root;
      SingleDirectoryEntry(r1, src, dst, name, fuel - 1);
      ContentsExhausted(r1, src, dst, [V.FileEntry(name, true)], fuel - 1);
      DirectoryStep(root, r1, src, dst, fuel);
      assert MoveDirectory(root, src, dst, fuel) == Exhausted(r);
      forall k | 0 <= k <= fuel
        ensures Exists(r, src + Nested(name, k))
      {
        if k == 0 {
          NestedZero(name);
          assert src + Nested(name, k) == src;
        } else {
          NestedStep(src, name, k);
          assert Exists(r, dst + Nested(name, k - 1));
        }
      }
    }
  }

  lemma NestedZero(name: string)
    ensures Nested(name, 0) == ""
  {
  }

  /** One level further down is one more `/name`. */
  lemma NestedStep(src: string, name: string, k: nat)
    requires k > 0
    ensures (src + "/" + name) + Nested(name, k - 1) == src + Nested(name, k)
  {
  }

  /** A path that can be listed exists. */
  lemma ListedExists(root: V.Node, path: string)
    requires ListAt(root, path).Ok?
    ensures Exists(root, path)
  {
    V.ReadAndListErrors(root, V.Normalized(path));
  }

  /** Creating a directory keeps every path that existed. */
  lemma MkdirKeepsPaths(root: V.Node, path: string, r1: V.Node)
    requires MkdirAt(root, path) == Ok(r1)
    ensures forall p :: Exists(root, p) ==> Exists(r1, p)
  {
    forall p | Exists(root, p)
      ensures Exists(r1, p)
    {
      MkdirKeepsNode(root, V.Normalized(path), V.Normalized(p));
    }
  }

  /** A node found before a successful mkdir is still found after it. */
  lemma MkdirKeepsNode(root: V.Node, parts: seq<string>, q: seq<string>)
    requires V.MkdirTree(root, parts).Ok? && V.Lookup(root, q).Some?
    ensures V.Lookup(V.MkdirTree(root, parts).value, q).Some?
  {
    V.MkdirErrors(root, parts);
    V.MkdirOnlyTarget(root, parts, q);
    hide V.MkdirTree, V.Lookup;
    if parts <= q {
      assert q == parts + q[|parts|..];
      V.LookupPrefixFails(root, parts, q[|parts|..]);
      assert false;
    }
  }

  /** With no nesting left, the call stack overflows at once. */
  lemma NoNestingLeft(root: V.Node, src: string, dst: string)
    ensures MoveDirectory(root, src, dst, 0) == Exhausted(root)
  {
    hide MkdirAt, ListAt, ReadAt, WriteAt, RemoveAt;
  }

  /** A listing holding one directory moves that directory and nothing else. */
  lemma SingleDirectoryEntry(root: V.Node, src: string, dst: string, name: string, fuel: nat)
    requires MoveDirectory(root, src + "/" + name, dst + "/" + name, fuel).Exhausted?
    ensures MoveEntries(root, src, dst, [V.FileEntry(name, true)], fuel) == MoveDirectory(root, src + "/" + name, dst + "/" + name, fuel)
  {
    hide MkdirAt, ListAt, ReadAt, WriteAt, RemoveAt;
    var e := V.FileEntry(name, true);
    assert [e][0] == e;
  }

  /** An overflow while moving the entries is an overflow of the whole
      move: the source is not removed. */
  lemma ContentsExhausted(root: V.Node, src: string, dst: string, entries: seq<V.FileEntry>, fuel: nat)
    requires ListAt(root, src) == Ok(entries)
    requires MoveEntries(root, src, dst, entries, fuel).Exhausted?
    ensures MoveContents(root, src, dst, fuel) == MoveEntries(root, src, dst, entries, fuel)
  {
    hide MkdirAt, ListAt, ReadAt, WriteAt, RemoveAt;
  }

  /** Once the destination is created, moving a directory is moving its contents. */
  lemma DirectoryStep(root: V.Node, r1: V.Node, src: string, dst: string, fuel: nat)
    requires fuel > 0 && MkdirAt(root, dst) == Ok(r1)
    ensures MoveDirectory(root, src, dst, fuel) == MoveContents(r1, src, dst, fuel - 1)
  {
    hide MkdirAt, ListAt, ReadAt, WriteAt, RemoveAt;
  }

  /** Creating `name` in an empty directory: the directory then lists just
      the new, empty, directory. */
  lemma MkdirInEmpty(root: V.Node, src: string, name: string) returns (r1: V.Node)
    requires V.Canonical([name])
    requires ListAt(root, src) == Ok([])
    ensures MkdirAt(root, src + "/" + name) == Ok(r1)
    ensures ListAt(r1, src) == Ok([V.FileEntry(name, true)])
    ensures ListAt(r1, src + "/" + name) == Ok([])
  {
    var s := V.Normalized(src);
    var dst := src + "/" + name;
    NormalizedChild(src, name);
    var parent := V.Lookup(root, s).value;
    assert parent.children == [];
    assert V.Init(s + [name]) == s && V.Last(s + [name]) == name;
    var d := V.CreateDirectory(name);
    r1 := V.SetEntry(root, s, name, Some(d));
    assert MkdirAt(root, dst) == Ok(r1);
    V.SetEntryHere(root, s, name, Some(d));
    assert V.Lookup(r1, s).value.children == [(name, d)];
    assert V.Lookup(r1, s).value.kind == V.Directory;
    assert V.EntriesOf([(name, d)]) == [V.FileEntry(name, true)];
    V.MkdirOnlyTarget(root, s + [name], s + [name]);
  }

  /** `mv d d` on an empty directory `d` in the working directory throws
      the stack-overflow `RangeError` out of the command. The session is
      unchanged; the filesystem keeps every path it had, `d` included, and
      the copies `d/d`, `d/d/d`, ... down to the recursion limit. */
  lemma MvDirectoryIntoItself(h: Host, st: Snapshot, name: string)
    requires V.Canonical([name]) && !StartsWith(name, "-") && !StartsWith(name, "/")
    requires ListAt(st.root, ResolvePath(st.cwd, name)) == Ok([])
    ensures Mv(h, st, ["mv", name, name]).Throws?
    ensures Mv(h, st, ["mv", name, name]).message == StackOverflow
    ensures var after := Mv(h, st, ["mv", name, name]).st;
      after.cwd == st.cwd && after.env == st.env && after.aliases == st.aliases
    ensures var after := Mv(h, st, ["mv", name, name]).st;
      forall p :: Exists(st.root, p) ==> Exists(after.root, p)
    ensures var after := Mv(h, st, ["mv", name, name]).st;
      forall k :: 0 <= k <= h.moveDepth ==> Exists(after.root, ResolvePath(st.cwd, name) + Nested(name, k))
  {
    hide *;
    var path := ResolvePath(st.cwd, name);
    EmptyDirectoryFacts(st, name);
    MvOntoItself(h, st, name);
    MoveIntoItselfThrows(st.root, path, name, h.moveDepth);
    MvOneDirectory(h, st, name, path);
  }

  /** A listable path is an existing directory, and a name without a slash
      is its own base name. */
  lemma EmptyDirectoryFacts(st: Snapshot, name: string)
    requires V.Canonical([name])
    requires ListAt(st.root, ResolvePath(st.cwd, name)) == Ok([])
    ensures var path := ResolvePath(st.cwd, name);
      Exists(st.root, path) && IsDirAt(st.root, path) && BaseName(name) == name
  {
    hide NormalizePath;
    var path := ResolvePath(st.cwd, name);
    assert '/' !in name by { assert [name][0] == name; }
    SplitWithoutSeparator(name, '/');
    V.StatFacts(st.root, V.Normalized(path));
  }

  /** `mv A A` is the move of the one source `A` onto its own path. */
  lemma MvOntoItself(h: Host, st: Snapshot, name: string)
    requires !StartsWith(name, "-")
    ensures var path := ResolvePath(st.cwd, name);
      Mv(h, st, ["mv", name, name]) == MvEach(h, st, [name], path, IsDirAt(st.root, path))
  {
    hide V.Normalized, NormalizePath, MvEach;
    assert ["mv", name, name][1..] == [name, name];
    assert [name, name][..1] == [name] && [name][..0] == [];
    assert Operands([name, name]) == [name, name];
  }

  /** Moving one existing directory throws exactly when `moveDirectory`
      overflows the call stack, and leaves the tree the overflow found. */
  lemma MvOneDirectory(h: Host, st: Snapshot, name: string, path: string)
    requires path == ResolvePath(st.cwd, name) && Exists(st.root, path) && IsDirAt(st.root, path)
    requires MoveDirectory(st.root, path, path + "/" + BaseName(name), h.moveDepth).Exhausted?
    ensures MvEach(h, st, [name], path, true) ==
      Throws(StackOverflow, st.(root := MoveDirectory(st.root, path, path + "/" + BaseName(name), h.moveDepth).root))
  {
    hide V.Normalized, NormalizePath, MoveDirectory;
  }

  /** `mv f f` on a file reads it, writes it back in place, then removes
      it: the file is gone afterwards. */
  lemma MvFileOntoItself(h: Host, st: Snapshot, name: string)
    requires !StartsWith(name, "-")
    requires V.Normalized(ResolvePath(st.cwd, name)) != []
    requires ReadAt(st.root, ResolvePath(st.cwd, name)).Ok?
    ensures Mv(h, st, ["mv", name, name]).Done?
    ensures Mv(h, st, ["mv", name, name]).out == Success
    ensures !Exists(Mv(h, st, ["mv", name, name]).st.root, ResolvePath(st.cwd, name))
  {
    var path := ResolvePath(st.cwd, name);
    MvOntoItself(h, st, name);
    var r := CopyOverItself(st.root, path);
    MvOneFile(h, st, name, path, r);
  }

  /** Moving one readable file whose write and removal succeed. */
  lemma MvOneFile(h: Host, st: Snapshot, name: string, path: string, r: V.Node)
    requires path == ResolvePath(st.cwd, name) && Exists(st.root, path) && !IsDirAt(st.root, path)
    requires ReadAt(st.root, path).Ok? && WriteAt(st.root, path, ReadAt(st.root, path).value) == Ok(r)
    requires RemoveAt(r, path).Ok?
    ensures MvEach(h, st, [name], path, false) == Done(Success, st.(root := RemoveAt(r, path).value))
  {
    hide V.Normalized, NormalizePath, ReadAt, WriteAt, RemoveAt, Exists, IsDirAt;
    assert [name][1..] == [];
  }

  /** A file written over itself and then removed is gone. */
  lemma CopyOverItself(root: V.Node, path: string) returns (r: V.Node)
    requires V.Normalized(path) != [] && ReadAt(root, path).Ok?
    ensures Exists(root, path) && !IsDirAt(root, path)
    ensures WriteAt(root, path, ReadAt(root, path).value) == Ok(r)
    ensures RemoveAt(r, path).Ok? && !Exists(RemoveAt(r, path).value, path)
  {
    var parts := V.Normalized(path);
    V.StatFacts(root, parts);
    V.ReadAndListErrors(root, parts);
    V.WriteFileOverFile(root, parts, ReadAt(root, path).value);
    r := WriteAt(root, path, ReadAt(root, path).value).value;
    V.WriteFileOnlyTarget(root, parts, ReadAt(root, path).value, parts);
    V.RemoveErrors(r, parts);
    V.RemoveOnlyTarget(r, parts, parts);
  }

  // ---- alias, unalias ------------------------------------------------------------------

  /** `alias NAME='VALUE'` lines for every alias, in insertion order. */
  function AliasListing(aliases: Entries<string, string>): (s: string)
    ensures |aliases| == 0 <==> s == ""
  {
    if |aliases| == 0 then "" else "alias " + aliases[0].0 + "='" + aliases[0].1 + "'\n" + AliasListing(aliases[1..])
  }

  /** One pair of matching outer quotes is removed (`value.slice(1, -1)`,
      so a lone quote becomes empty). */
  function StripQuotes(value: string): (r: string)
    ensures |value| >= 2 && value[0] == value[|value| - 1] && value[0] in {'\'', '"'} ==> r == value[1..|value| - 1]
    ensures |value| == 1 && value[0] in {'\'', '"'} ==> r == ""
    ensures (|value| == 0 || value[0] !in {'\'', '"'} || value[|value| - 1] != value[0]) ==> r == value
  {
    if |value| > 0 && (value[0] == '\'' || value[0] == '"') && value[|value| - 1] == value[0] then
      if |value| >= 2 then value[1..|value| - 1] else ""
    else value
  }

  function Alias(st: Snapshot, args: seq<string>): Run {
    if |args| < 2 then Done(CommandOutput(AliasListing(st.aliases), "", 0), st)
    else
      var definition := Join(args[1..], " ");
      match FindChar(definition, '=')
      case None =>
        var name := Trim(definition);
        var value := Get(st.aliases, name);
        if value.Some? && value.value != "" then Done(CommandOutput("alias " + name + "='" + value.value + "'\n", "", 0), st)
        else Done(Failure("alias: " + name + ": not found", 1), st)
      case Some(eq) =>
        var name := Trim(definition[..eq]);
        var value := StripQuotes(Trim(definition[eq + 1..]));
        Done(Success, st.(aliases := Set(st.aliases, name, value)))
  }

  /** Defining an alias and then asking for it shows the definition. */
  lemma AliasDefineThenShow(st: Snapshot, name: string, value: string)
    requires |name| > 0 && !IsSpace(name[0]) && !IsSpace(name[|name| - 1]) && '=' !in name
    requires |value| > 0 && !IsSpace(value[0]) && !IsSpace(value[|value| - 1])
    requires value[0] !in {'\'', '"'}
    ensures var defined := Alias(st, ["alias", name + "=" + value]).st;
      Get(defined.aliases, name) == Some(value) &&
      Alias(defined, ["alias", name]) == Done(CommandOutput("alias " + name + "='" + value + "'\n", "", 0), defined)
  {
    AliasDefines(st, name, value);
    var defined := st.(aliases := Set(st.aliases, name, value));
    AliasShows(defined, name);
  }

  /** `alias name=value` stores the trimmed value under the trimmed name. */
  lemma AliasDefines(st: Snapshot, name: string, value: string)
    requires |name| > 0 && !IsSpace(name[0]) && !IsSpace(name[|name| - 1]) && '=' !in name
    requires |value| > 0 && !IsSpace(value[0]) && !IsSpace(value[|value| - 1])
    requires value[0] !in {'\'', '"'}
    ensures Alias(st, ["alias", name + "=" + value]) == Done(Success, st.(aliases := Set(st.aliases, name, value)))
  {
    var def := name + "=" + value;
    assert ["alias", def][1..] == [def];
    assert Join([def], " ") == def;
    assert def[|name|] == '=';
    assert def[..|name|] == name && def[|name| + 1..] == value;
    assert FindChar(def, '=') == Some(|name|);
    TrimPlain(name);
    TrimPlain(value);
  }

  /** `alias name` shows a defined, non-empty alias. */
  lemma AliasShows(st: Snapshot, name: string)
    requires |name| > 0 && !IsSpace(name[0]) && !IsSpace(name[|name| - 1]) && '=' !in name
    requires Get(st.aliases, name).Some? && Get(st.aliases, name).value != ""
    ensures Alias(st, ["alias", name]) == Done(CommandOutput("alias " + name + "='" + Get(st.aliases, name).value + "'\n", "", 0), st)
  {
    TrimPlain(name);
    assert ["alias", name][1..] == [name];
    assert Join([name], " ") == name;
  }

  /** Remove the names in order; the first one that is not an alias ends
      the command, the ones before it stay removed. */
  function UnaliasEach(aliases: Entries<string, string>, names: seq<string>): (Option<string>, Entries<string, string>)
    decreases |names|
  {
    if |names| == 0 then (None, aliases)
    else if !Has(aliases, names[0]) then (Some(names[0]), aliases)
    else UnaliasEach(Delete(aliases, names[0]), names[1..])
  }

  function Unalias(st: Snapshot, args: seq<string>): Run {
    if |args| < 2 then Done(Failure("unalias: usage: unalias name [name ...]", 1), st)
    else
      var r := UnaliasEach(st.aliases, args[1..]);
      Done(if r.0.Some? then Failure("unalias: " + r.0.value + ": not found", 1) else Success, st.(aliases := r.1))
  }

  /** After a successful `unalias`, none of the names is an alias and every
      other alias is as before. */
  lemma {:induction false} UnaliasRemoves(aliases: Entries<string, string>, names: seq<string>)
    requires UnaliasEach(aliases, names).0.None?
    ensures forall k :: 0 <= k < |names| ==> !Has(UnaliasEach(aliases, names).1, names[k])
    ensures forall n :: n !in names ==> Get(UnaliasEach(aliases, names).1, n) == Get(aliases, n)
    decreases |names|
  {
    if |names| > 0 {
      var next := Delete(aliases, names[0]);
      UnaliasRemoves(next, names[1..]);
      UnaliasKeepsGone(next, names[1..], names[0]);
      forall k | 1 <= k < |names| ensures names[k] == names[1..][k - 1] { }
    }
  }

  lemma {:induction false} UnaliasKeepsGone(aliases: Entries<string, string>, names: seq<string>, n: string)
    requires !Has(aliases, n)
    ensures !Has(UnaliasEach(aliases, names).1, n)
    decreases |names|
  {
    if |names| > 0 && Has(aliases, names[0]) {
      assert Get(Delete(aliases, names[0]), n) == Get(aliases, n);
      UnaliasKeepsGone(Delete(aliases, names[0]), names[1..], n);
    }
  }

  // ---- sh --------------------------------------------------------------------------------

  function Sh(h: Host, st: Snapshot, args: seq<string>): Run {
    if |args| < 2 then Done(Failure("sh: missing script file operand", 1), st)
    else
      var full := ResolvePath(st.cwd, args[1]);
      if !Exists(st.root, full) then Done(Failure("sh: " + args[1] + ": No such file or directory", 127), st)
      else match ReadAt(st.root, full)
        case Err(_) => Done(Failure("sh: " + args[1] + ": Cannot read file", 1), st)
        case Ok(bytes) => ExecuteScript(h, st, h.decode(bytes))
  }

  /** `sh DIR` on a directory cannot read it. */
  lemma ShDirectory(h: Host, st: Snapshot, path: string)
    requires IsDirAt(st.root, ResolvePath(st.cwd, path))
    ensures Sh(h, st, ["sh", path]) == Done(Failure("sh: " + path + ": Cannot read file", 1), st)
  {
    V.StatFacts(st.root, V.Normalized(ResolvePath(st.cwd, path)));
  }

  // ---- Dispatch ----------------------------------------------------------------------------

  /** `builtinCommands[name](state, args)` */
  function Builtin(h: Host, st: Snapshot, name: string, args: seq<string>): Run
    requires name in BuiltinNames
  {
    match name
    case "cd" => Cd(st, args)
    case "export" => Export(st, args)
    case "pwd" => Pwd(st)
    case "clear" => Done(CommandOutput(ClearSequence, "", 0), st)
    case "exit" => Done(CommandOutput(ExitSequence, "", 0), st)
    case "mkdir" => Mkdir(st, args)
    case "touch" => Touch(st, args)
    case "rm" => Rm(st, args)
    case "mv" => Mv(h, st, args)
    case "alias" => Alias(st, args)
    case "unalias" => Unalias(st, args)
    case "sh" => Sh(h, st, args)
  }
}
