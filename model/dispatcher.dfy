/** The dispatcher as the shell runs it (src/shell/dispatcher.ts): a
    session object whose working directory, environment and aliases the
    built-in commands update in place, working on the filesystem object,
    and whose pipeline and `&&`/`||` loops carry the piped input, the exit
    code and the collected output from one step to the next. Every method
    is proved to do what the functions of DispatchSpec, BuiltinSpec and
    ExecSpec say of the state it starts from. */
module Dispatcher {
  import opened Wrappers
  import opened Text
  import opened OrderedMap
  import opened ShellAst
  import opened ShellTypes
  import V = VirtualFs
  import W = WordExpansion
  import opened DispatchSpec
  import opened BuiltinSpec
  import opened ExecSpec
  import ShellInvariant
  import Terminal

  /** How a method of the session ends: it returns its output, it throws
      an exception with a message, or it never returns. */
  datatype Reply = Returned(value: CommandOutput) | Raised(message: string) | Diverged

  /** What a method's reply and the state after it amount to, as a Run. */
  function Outcome(out: Reply, st: Snapshot): Run {
    match out
    case Returned(value) => Done(value, st)
    case Raised(message) => Throws(message, st)
    case Diverged => Hangs
  }

  /** What `executeCommand` in the terminal receives from `execute`: the
      output of a run that returns, or, in its `catch`, the message of the
      exception thrown; a run that never returns delivers nothing. */
  function Received(r: Run): (o: Option<Terminal.Outcome>)
    ensures o.None? <==> r.Hangs?
    ensures r.Done? ==> o == Some(Terminal.Completed(r.out.stdout, r.out.stderr))
    ensures r.Throws? ==> o == Some(Terminal.Failed(r.message))
  {
    match r
    case Done(out, _) => Some(Terminal.Completed(out.stdout, out.stderr))
    case Throws(message, _) => Some(Terminal.Failed(message))
    case Hangs => None
  }

  /** `mv d d` typed at the terminal, for an empty directory `d` of the
      working directory: the stack overflow reaches the terminal, which
      writes it in red as an error followed by the prompt, and stays open. */
  lemma MvIntoItselfShown(h: Host, st: Snapshot, input: string, name: string, prompt: string)
    requires Trim(input) != "" && h.parse(Trim(input)) == Ok(SingleResult(Command(["mv", name, name])))
    requires !Has(st.aliases, "mv")
    requires V.Canonical([name]) && !StartsWith(name, "-") && !StartsWith(name, "/") && !StartsWith(name, "~")
    requires ListAt(st.root, ResolvePath(st.cwd, name)) == Ok([])
    ensures Received(ExecuteInput(h, st, input)) == Some(Terminal.Failed(StackOverflow))
    ensures var (ops, closes) := Terminal.Completion(Received(ExecuteInput(h, st, input)).value, prompt);
      Terminal.Written(ops) == Terminal.RedOn + "Error: " + StackOverflow + Terminal.ColorOff + "\n" + prompt && !closes
  {
    MvIntoItselfInput(h, st, input, name);
    hide *;
    Terminal.WrittenThen(Terminal.RedOn + "Error: " + StackOverflow + Terminal.ColorOff + "\n", [Terminal.Write(prompt)], prompt);
  }

  /** One level of `moveDirectory`: the destination is created first. */
  lemma MoveDirectoryUnfold(root: V.Node, src: string, dst: string, fuel: nat)
    ensures fuel == 0 ==> MoveDirectory(root, src, dst, fuel) == Exhausted(root)
    ensures fuel > 0 && MkdirAt(root, dst).Err? ==> MoveDirectory(root, src, dst, fuel) == Moved(root, Some("Cannot create destination directory"))
    ensures fuel > 0 && MkdirAt(root, dst).Ok? ==> MoveDirectory(root, src, dst, fuel) == MoveContents(MkdirAt(root, dst).value, src, dst, fuel - 1)
  {
  }

  /** Then the source is listed, its entries moved, and it is removed. */
  lemma MoveContentsUnfold(root: V.Node, src: string, dst: string, fuel: nat)
    ensures ListAt(root, src).Err? ==> MoveContents(root, src, dst, fuel) == Moved(root, Some("Cannot read source directory"))
    ensures ListAt(root, src).Ok? ==> MoveContents(root, src, dst, fuel) == RemoveSource(MoveEntries(root, src, dst, ListAt(root, src).value, fuel), src)
  {
  }

  /** One entry of `moveDirectory`'s loop: a directory is moved by the
      same procedure, a file is read and written; the first failure ends
      the loop. */
  lemma MoveEntriesUnfold(root: V.Node, src: string, dst: string, entries: seq<V.FileEntry>, fuel: nat)
    ensures |entries| == 0 ==> MoveEntries(root, src, dst, entries, fuel) == Moved(root, None)
    ensures |entries| > 0 && entries[0].isDir && MoveDirectory(root, src + "/" + entries[0].name, dst + "/" + entries[0].name, fuel).Exhausted? ==>
      MoveEntries(root, src, dst, entries, fuel) == MoveDirectory(root, src + "/" + entries[0].name, dst + "/" + entries[0].name, fuel)
    ensures |entries| > 0 && entries[0].isDir && MoveDirectory(root, src + "/" + entries[0].name, dst + "/" + entries[0].name, fuel).Moved? ==>
      var m := MoveDirectory(root, src + "/" + entries[0].name, dst + "/" + entries[0].name, fuel);
      MoveEntries(root, src, dst, entries, fuel) == if m.error.Some? then m else MoveEntries(m.root, src, dst, entries[1..], fuel)
    ensures |entries| > 0 && !entries[0].isDir && ReadAt(root, src + "/" + entries[0].name).Err? ==>
      MoveEntries(root, src, dst, entries, fuel) == Moved(root, Some("Cannot read file: " + entries[0].name))
    ensures |entries| > 0 && !entries[0].isDir && ReadAt(root, src + "/" + entries[0].name).Ok? ==>
      var w := WriteAt(root, dst + "/" + entries[0].name, ReadAt(root, src + "/" + entries[0].name).value);
      MoveEntries(root, src, dst, entries, fuel) ==
        if w.Err? then Moved(root, Some("Cannot write file: " + entries[0].name)) else MoveEntries(w.value, src, dst, entries[1..], fuel)
  {
  }

  /** Each source of `mv` in turn. */
  lemma MvEachUnfold(h: Host, st: Snapshot, sources: seq<string>, destPath: string, destIsDir: bool)
    ensures |sources| == 0 ==> MvEach(h, st, sources, destPath, destIsDir) == Done(Success, st)
    ensures |sources| > 0 && MvOne(h, st, sources[0], destPath, destIsDir).Stop? ==>
      MvEach(h, st, sources, destPath, destIsDir) == MvOne(h, st, sources[0], destPath, destIsDir).r
    ensures |sources| > 0 && MvOne(h, st, sources[0], destPath, destIsDir).Next? ==>
      MvEach(h, st, sources, destPath, destIsDir) ==
      MvEach(h, st.(root := MvOne(h, st, sources[0], destPath, destIsDir).root), sources[1..], destPath, destIsDir)
  {
  }

  /** `execute` on a session: the first call runs `initialize` first. */
  function Execute(h: Host, st: Snapshot, initialized: bool, input: string): Run {
    if initialized then ExecuteInput(h, st, input)
    else match Initialize(h, st)
      case Hangs => Hangs
      case Throws(m, st1) => Throws(m, st1)
      case Done(_, st1) => ExecuteInput(h, st1, input)
  }

  /** One stage of a pipeline: the first command runs; a throw or a run
      that never returns ends the pipeline, as do a failure and the last
      stage; otherwise the rest reads its output. */
  lemma StagesUnfold(h: Host, st: Snapshot, cmds: seq<SimpleCommand>, subs: map<nat, string>, stdin: string, stderr: string)
    requires |cmds| > 0
    ensures var first := RunSimple(h, st, cmds[0], subs, Some(stdin));
      Stages(h, st, cmds, subs, stdin, stderr) ==
        if !first.Done? then first
        else if |cmds| == 1 || first.out.exitCode != 0 then Done(CommandOutput(first.out.stdout, stderr + first.out.stderr, first.out.exitCode), first.st)
        else Stages(h, first.st, cmds[1..], subs, first.out.stdout, stderr + first.out.stderr)
  {
    hide RunSimple;
  }

  /** The session `createShell` returns: `ShellState` (working directory,
      environment, aliases), the `initialized` flag, and the filesystem
      object and host it works with. */
  class Shell {
    var cwd: string
    var env: Entries<string, string>
    var aliases: Entries<string, string>
    var initialized: bool
    const fs: V.VirtualFileSystem
    const h: Host

    ghost predicate Valid()
      reads this, fs
    {
      fs.Valid() && Sound(h)
    }

    /** The state the specification functions take. */
    function State(): Snapshot
      reads this, fs
    {
      Snapshot(cwd, env, aliases, fs.root)
    }

    /** `createShell` */
    constructor (fs: V.VirtualFileSystem, h: Host)
      requires fs.Valid() && Sound(h)
      ensures Valid() && this.fs == fs && this.h == h
      ensures State() == InitialState(fs.root) && !initialized
    {
      this.cwd := Home;
      this.env := [("USER", "uzimaru0000"), ("HOME", Home), ("PATH", "/bin")];
      this.aliases := [];
      this.initialized := false;
      this.fs := fs;
      this.h := h;
    }

    /** `getCwd` */
    function GetCwd(): (r: string)
      reads this
      ensures r == State().cwd
    {
      cwd
    }

    /** Takes on the state a step described by the specification leaves
        behind (a script, a WebAssembly command or a directory move, which
        run outside the dispatcher's own code). */
    method Adopt(r: Run) returns (out: Reply)
      requires Valid()
      requires !r.Hangs? ==> IsTree(r.st.root)
      modifies this, fs
      ensures Valid() && initialized == old(initialized)
      ensures r == Outcome(out, State())
    {
      if r.Hangs? {
        return Diverged;
      }
      cwd, env, aliases := r.st.cwd, r.st.env, r.st.aliases;
      fs.root := r.st.root;
      out := if r.Done? then Returned(r.out) else Raised(r.message);
    }

    // ---- Built-ins that change the session ----------------------------------------

    /** `cd` */
    method Cd(args: seq<string>) returns (out: CommandOutput)
      modifies this
      ensures initialized == old(initialized)
      ensures Done(out, State()) == BuiltinSpec.Cd(old(State()), args)
    {
      var target := if |args| > 1 then args[1] else Home;
      var newPath := ResolvePath(cwd, target);
      var found := fs.Exists(newPath);
      if !found {
        return Failure("cd: " + target + ": No such file or directory", 1);
      }
      var stat := fs.Stat(newPath);
      if stat.Ok? && !stat.value.isDir {
        return Failure("cd: " + target + ": Not a directory", 1);
      }
      cwd := newPath;
      out := Success;
    }

    /** `export`: the listing is built line by line; a definition updates
        the environment. */
    method Export(args: seq<string>) returns (out: CommandOutput)
      modifies this
      ensures initialized == old(initialized)
      ensures Done(out, State()) == BuiltinSpec.Export(old(State()), args)
    {
      if |args| < 2 {
        var output := "";
        var i := 0;
        while i < |env|
          invariant 0 <= i <= |env|
          invariant output + EnvListing(env[i..]) == EnvListing(env)
        {
          assert env[i..][1..] == env[i + 1..];
          output := output + (env[i].0 + "=" + env[i].1 + "\n");
          i := i + 1;
        }
        return CommandOutput(output, "", 0);
      }
      var eq := FindChar(args[1], '=');
      if eq.None? {
        return Failure("export: invalid argument", 1);
      }
      var key := args[1][..eq.value];
      var value := Join(NonEmpty([args[1][eq.value + 1..]] + args[2..]), " ");
      env := Set(env, key, value);
      out := Success;
    }

    /** `alias`: the listing line by line, one alias shown, or one defined. */
    method Alias(args: seq<string>) returns (out: CommandOutput)
      modifies this
      ensures initialized == old(initialized)
      ensures Done(out, State()) == BuiltinSpec.Alias(old(State()), args)
    {
      if |args| < 2 {
        var output := "";
        var i := 0;
        while i < |aliases|
          invariant 0 <= i <= |aliases|
          invariant output + AliasListing(aliases[i..]) == AliasListing(aliases)
        {
          assert aliases[i..][1..] == aliases[i + 1..];
          output := output + ("alias " + aliases[i].0 + "='" + aliases[i].1 + "'\n");
          i := i + 1;
        }
        return CommandOutput(output, "", 0);
      }
      var definition := Join(args[1..], " ");
      var eq := FindChar(definition, '=');
      if eq.None? {
        var name := Trim(definition);
        var value := Get(aliases, name);
        if value.Some? && value.value != "" {
          return CommandOutput("alias " + name + "='" + value.value + "'\n", "", 0);
        }
        return Failure("alias: " + name + ": not found", 1);
      }
      var name := Trim(definition[..eq.value]);
      var value := StripQuotes(Trim(definition[eq.value + 1..]));
      aliases := Set(aliases, name, value);
      out := Success;
    }

    /** `unalias`: the names are removed one by one; the first that is not
        an alias ends the command, keeping the removals before it. */
    method Unalias(args: seq<string>) returns (out: CommandOutput)
      modifies this
      ensures initialized == old(initialized)
      ensures Done(out, State()) == BuiltinSpec.Unalias(old(State()), args)
    {
      if |args| < 2 {
        return Failure("unalias: usage: unalias name [name ...]", 1);
      }
      var i := 1;
      while i < |args|
        invariant 1 <= i <= |args|
        invariant UnaliasEach(old(aliases), args[1..]) == UnaliasEach(aliases, args[i..])
        invariant cwd == old(cwd) && env == old(env) && initialized == old(initialized)
      {
        assert args[i..][1..] == args[i + 1..];
        var name := args[i];
        if !Has(aliases, name) {
          return Failure("unalias: " + name + ": not found", 1);
        }
        aliases := Delete(aliases, name);
        i := i + 1;
      }
      out := Success;
    }

    // ---- Built-ins that change the filesystem ----------------------------------------

    /** `touch`: each operand that does not exist is created empty; the
        first that cannot be created ends the command. */
    method Touch(args: seq<string>) returns (out: CommandOutput)
      requires Valid()
      modifies fs
      ensures Valid()
      ensures Done(out, State()) == BuiltinSpec.Touch(old(State()), args)
    {
      if |args| < 2 {
        return Failure("touch: missing operand", 1);
      }
      var error := TouchOperands(args[1..]);
      out := if error.Some? then Failure(error.value, 1) else Success;
    }

    /** The operands of `touch` in turn: an option is skipped, a missing
        name becomes an empty file, and a failed write ends the loop. */
    method TouchOperands(rest: seq<string>) returns (error: Option<string>)
      requires fs.Valid()
      modifies fs
      ensures fs.Valid()
      ensures TouchEach(old(fs.root), cwd, rest) == (error, fs.root)
    {
      hide V.Lookup, V.Normalized, V.WellFormed, V.WriteFileTree;
      var i := 0;
      while i < |rest|
        invariant 0 <= i <= |rest| && fs.Valid()
        invariant TouchEach(old(fs.root), cwd, rest) == TouchEach(fs.root, cwd, rest[i..])
      {
        assert rest[i..][1..] == rest[i + 1..];
        var arg := rest[i];
        if !StartsWith(arg, "-") {
          var full := ResolvePath(cwd, arg);
          var found := fs.Exists(full);
          if !found {
            var result := fs.WriteFile(full, []);
            if result.Err? {
              return Some("touch: " + arg + ": No such file or directory");
            }
          }
        }
        i := i + 1;
      }
      error := None;
    }

    /** `rm`: the options are read first, then each operand is removed;
        the first failure ends the command unless forced. */
    method Rm(args: seq<string>) returns (out: CommandOutput)
      requires Valid()
      modifies fs
      ensures Valid()
      ensures Done(out, State()) == BuiltinSpec.Rm(old(State()), args)
    {
      var options := ReadRmFlags(if |args| > 0 then args[1..] else []);
      if |options.targets| == 0 {
        return Failure("rm: missing operand", 1);
      }
      var error := RemoveTargets(options.recursive, options.force, options.targets);
      out := if error.Some? then Failure(error.value, 1) else Success;
    }

    /** The options of `rm`: `-r`, `-f` and their spellings, any other
        dash argument contributing the letters it holds; the rest are
        operands, in order. */
    static method ReadRmFlags(rest: seq<string>) returns (options: RmOptions)
      ensures options == RmFlags(rest)
    {
      var recursive, force, targets := false, false, [];
      var i := 0;
      while i < |rest|
        invariant 0 <= i <= |rest|
        invariant RmFlags(rest[..i]) == RmOptions(recursive, force, targets)
      {
        assert rest[..i + 1][..i] == rest[..i];
        var arg := rest[i];
        if arg == "-r" || arg == "-R" || arg == "--recursive" {
          recursive := true;
        } else if arg == "-f" || arg == "--force" {
          force := true;
        } else if arg == "-rf" || arg == "-fr" {
          recursive, force := true, true;
        } else if StartsWith(arg, "-") {
          if 'r' in arg || 'R' in arg {
            recursive := true;
          }
          if 'f' in arg {
            force := true;
          }
        } else {
          targets := targets + [arg];
        }
        i := i + 1;
      }
      assert rest[..i] == rest;
      options := RmOptions(recursive, force, targets);
    }

    /** The operands of `rm` in turn; the first failure ends the loop
        unless forced. */
    method RemoveTargets(recursive: bool, force: bool, targets: seq<string>) returns (error: Option<string>)
      requires fs.Valid()
      modifies fs
      ensures fs.Valid()
      ensures RmEach(old(fs.root), cwd, recursive, force, targets) == (error, fs.root)
    {
      hide V.Lookup, V.Normalized, V.WellFormed, V.RemoveTree;
      var k := 0;
      while k < |targets|
        invariant 0 <= k <= |targets| && fs.Valid()
        invariant RmEach(old(fs.root), cwd, recursive, force, targets) == RmEach(fs.root, cwd, recursive, force, targets[k..])
      {
        assert targets[k..][1..] == targets[k + 1..];
        var target := targets[k];
        var full := ResolvePath(cwd, target);
        var found := fs.Exists(full);
        if !found {
          if !force {
            return Some("rm: " + target + ": No such file or directory");
          }
          k := k + 1;
          continue;
        }
        var stat := fs.Stat(full);
        if stat.Ok? && stat.value.isDir && !recursive {
          return Some("rm: " + target + ": is a directory");
        }
        var result := fs.Remove(full);
        if result.Err? && !force {
          return Some("rm: " + target + ": Operation failed");
        }
        k := k + 1;
      }
      error := None;
    }

    /** `mkdir`: the options are read first, then each operand is created,
        with `-p` every missing directory along its path from the root
        down; the first failure ends the command. */
    method Mkdir(args: seq<string>) returns (out: CommandOutput)
      requires Valid()
      modifies fs
      ensures Valid()
      ensures Done(out, State()) == BuiltinSpec.Mkdir(old(State()), args)
    {
      if |args| < 2 {
        return Failure("mkdir: missing operand", 1);
      }
      var parents, targets := ReadMkdirOptions(args[1..]);
      if |targets| == 0 {
        return Failure("mkdir: missing operand", 1);
      }
      var error := MakeDirectories(parents, targets);
      out := if error.Some? then Failure(error.value, 1) else Success;
    }

    /** The options of `mkdir`: whether `-p` appears, and the operands in
        order. */
    static method ReadMkdirOptions(rest: seq<string>) returns (parents: bool, targets: seq<string>)
      ensures MkdirOptions(rest) == (parents, targets)
    {
      parents, targets := false, [];
      var i := 0;
      while i < |rest|
        invariant 0 <= i <= |rest|
        invariant MkdirOptions(rest[..i]) == (parents, targets)
      {
        assert rest[..i + 1][..i] == rest[..i];
        var arg := rest[i];
        if arg == "-p" || arg == "--parents" {
          parents := true;
        } else if !StartsWith(arg, "-") {
          targets := targets + [arg];
        }
        i := i + 1;
      }
      assert rest[..i] == rest;
    }

    /** The operands of `mkdir` in turn; the first failure ends the loop. */
    method MakeDirectories(parents: bool, targets: seq<string>) returns (error: Option<string>)
      requires fs.Valid()
      modifies fs
      ensures fs.Valid()
      ensures MkdirEach(old(fs.root), cwd, parents, targets) == (error, fs.root)
    {
      hide MkdirChain, V.Lookup, V.Normalized, V.WellFormed, V.MkdirTree;
      var k := 0;
      while k < |targets|
        invariant 0 <= k <= |targets| && fs.Valid()
        invariant MkdirEach(old(fs.root), cwd, parents, targets) == MkdirEach(fs.root, cwd, parents, targets[k..])
      {
        assert targets[k..][1..] == targets[k + 1..];
        var target := targets[k];
        var full := ResolvePath(cwd, target);
        if parents {
          var made := MakeChain(PathParts(full));
          if !made {
            return Some("mkdir: " + target + ": Operation failed");
          }
        } else {
          var result := fs.Mkdir(full);
          if result.Err? {
            var message := if result.error == V.NotFound then "No such file or directory"
              else if result.error == V.PermissionDenied then "File exists" else "Operation failed";
            return Some("mkdir: " + target + ": " + message);
          }
        }
        k := k + 1;
      }
      error := None;
    }

    /** `mkdir -p` on one operand: each missing directory along the path
        is created, from the root down; a failure ends the walk. */
    method MakeChain(parts: seq<string>) returns (made: bool)
      requires fs.Valid()
      modifies fs
      ensures fs.Valid()
      ensures MkdirChain(old(fs.root), "", parts) == (made, fs.root)
    {
      hide V.Lookup, V.Normalized, V.WellFormed, V.MkdirTree;
      var currentPath := "";
      var m := 0;
      while m < |parts|
        invariant 0 <= m <= |parts| && fs.Valid()
        invariant MkdirChain(old(fs.root), "", parts) == MkdirChain(fs.root, currentPath, parts[m..])
      {
        assert parts[m..][1..] == parts[m + 1..];
        currentPath := currentPath + "/" + parts[m];
        var found := fs.Exists(currentPath);
        if !found {
          var result := fs.Mkdir(currentPath);
          if result.Err? {
            return false;
          }
        }
        m := m + 1;
      }
      made := true;
    }

    /** `mv`: the operands are collected, the last is the destination;
        each source in turn is moved, a directory with `moveDirectory`, a
        file by reading, writing and removing it. */
    method Mv(args: seq<string>) returns (out: Reply)
      requires Valid()
      modifies fs
      ensures Valid()
      ensures BuiltinSpec.Mv(h, old(State()), args) == Outcome(out, State())
    {
      hide MvEach, MvOne, V.Lookup, V.Normalized, V.WellFormed;
      var targets := CollectOperands(if |args| > 0 then args[1..] else []);
      if |targets| < 2 {
        return Returned(Failure("mv: missing destination file operand after '" + (if |targets| > 0 then targets[0] else "") + "'", 1));
      }
      var dest := targets[|targets| - 1];
      var sources := targets[..|targets| - 1];
      var destPath := ResolvePath(cwd, dest);
      var destStat := fs.Stat(destPath);
      var destIsDir := destStat.Ok? && destStat.value.isDir;
      if |sources| > 1 && !destIsDir {
        return Returned(Failure("mv: target '" + dest + "' is not a directory", 1));
      }
      var k := 0;
      while k < |sources|
        invariant 0 <= k <= |sources| && Valid()
        invariant BuiltinSpec.Mv(h, old(State()), args) == MvEach(h, State(), sources[k..], destPath, destIsDir)
      {
        assert sources[k..][1..] == sources[k + 1..];
        MvEachUnfold(h, State(), sources[k..], destPath, destIsDir);
        var stop, result := MoveOne(sources[k], destPath, destIsDir);
        if stop {
          return result;
        }
        k := k + 1;
      }
      MvEachUnfold(h, State(), sources[k..], destPath, destIsDir);
      out := Returned(Success);
    }

    /** The arguments of `mv` that do not start with `-`, in order. */
    static method CollectOperands(rest: seq<string>) returns (targets: seq<string>)
      ensures targets == Operands(rest)
    {
      targets := [];
      var i := 0;
      while i < |rest|
        invariant 0 <= i <= |rest|
        invariant Operands(rest[..i]) == targets
      {
        assert rest[..i + 1][..i] == rest[..i];
        if !StartsWith(rest[i], "-") {
          targets := targets + [rest[i]];
        }
        i := i + 1;
      }
      assert rest[..i] == rest;
    }

    /** One source of `mv`: moved, or the command ends here. */
    method MoveOne(source: string, destPath: string, destIsDir: bool) returns (stop: bool, out: Reply)
      requires fs.Valid()
      modifies fs
      ensures fs.Valid()
      ensures MvOne(h, old(State()), source, destPath, destIsDir) == if stop then Stop(Outcome(out, State())) else Next(fs.root)
    {
      hide MvFile, MvDirectory, ResolvePath, BaseName, MoveDirectory, MoveContents, MoveEntries, V.Lookup, V.Normalized, V.WriteFileTree, V.RemoveTree, V.WellFormed, V.ReadFileOf;
      var sourcePath := ResolvePath(cwd, source);
      var found := fs.Exists(sourcePath);
      if !found {
        return true, Returned(Failure("mv: " + source + ": No such file or directory", 1));
      }
      var finalDest := if destIsDir then destPath + "/" + BaseName(source) else destPath;
      var sourceStat := fs.Stat(sourcePath);
      if sourceStat.Ok? && sourceStat.value.isDir {
        stop, out := MoveDirectorySource(source, sourcePath, finalDest);
      } else {
        stop, out := MoveFile(source, sourcePath, finalDest);
      }
    }

    /** A directory source of `mv`: moved by `moveDirectory`, whose failure
        ends the command. */
    method MoveDirectorySource(source: string, sourcePath: string, finalDest: string) returns (stop: bool, out: Reply)
      requires fs.Valid()
      modifies fs
      ensures fs.Valid()
      ensures MvDirectory(h, old(State()), source, sourcePath, finalDest) == if stop then Stop(Outcome(out, State())) else Next(fs.root)
    {
      hide MoveDirectory, V.Lookup, V.Normalized, V.WellFormed;
      var moved, error := MoveDir(sourcePath, finalDest, h.moveDepth);
      if !moved {
        return true, Raised(StackOverflow);
      }
      if error.Some? {
        return true, Returned(Failure("mv: cannot move '" + source + "' to '" + finalDest + "': " + error.value, 1));
      }
      return false, Returned(Success);
    }

    /** A file source of `mv`: read, written to the destination, then
        removed; a failed read or write ends the command. */
    method MoveFile(source: string, sourcePath: string, finalDest: string) returns (stop: bool, out: Reply)
      requires fs.Valid()
      modifies fs
      ensures fs.Valid()
      ensures MvFile(old(State()), source, sourcePath, finalDest) == if stop then Stop(Outcome(out, State())) else Next(fs.root)
    {
      hide V.Lookup, V.Normalized, V.WriteFileTree, V.RemoveTree, V.WellFormed;
      var content := fs.ReadFile(sourcePath);
      if content.Err? {
        return true, Returned(Failure("mv: cannot read '" + source + "'", 1));
      }
      var written := fs.WriteFile(finalDest, content.value);
      if written.Err? {
        return true, Returned(Failure("mv: cannot write to '" + finalDest + "'", 1));
      }
      var removed := fs.Remove(sourcePath);
      stop, out := false, Returned(Success);
    }

    /** `moveDirectory`: create the destination, move each entry of the
        source, then remove the source. `moved` is false when the moves
        nest deeper than `fuel`. */
    method MoveDir(src: string, dst: string, fuel: nat) returns (moved: bool, error: Option<string>)
      requires fs.Valid()
      modifies fs
      ensures fs.Valid()
      ensures MoveDirectory(old(fs.root), src, dst, fuel) == if moved then Moved(fs.root, error) else Exhausted(fs.root)
      decreases fuel, 1
    {
      hide MoveDirectory, MoveContents, MoveEntries, V.MkdirTree, V.RemoveTree, V.ListDirOf, V.Lookup, V.Normalized, V.WellFormed;
      if fuel == 0 {
        MoveDirectoryUnfold(old(fs.root), src, dst, fuel);
        return false, None;
      }
      MoveDirectoryUnfold(fs.root, src, dst, fuel);
      var made := fs.Mkdir(dst);
      if made.Err? {
        return true, Some("Cannot create destination directory");
      }
      MoveContentsUnfold(fs.root, src, dst, fuel - 1);
      var list := fs.ListDir(src);
      if list.Err? {
        return true, Some("Cannot read source directory");
      }
      moved, error := MoveEntryList(src, dst, list.value, fuel - 1);
      if moved && error.None? {
        var removed := fs.Remove(src);
      }
    }

    /** The loop of `moveDirectory` over the source's entries: directories
        by `moveDirectory`, files by reading and writing; the first failure
        ends it. */
    method MoveEntryList(src: string, dst: string, entries: seq<V.FileEntry>, fuel: nat) returns (moved: bool, error: Option<string>)
      requires fs.Valid()
      modifies fs
      ensures fs.Valid()
      ensures MoveEntries(old(fs.root), src, dst, entries, fuel) == if moved then Moved(fs.root, error) else Exhausted(fs.root)
      decreases fuel, 2
    {
      hide MoveEntries, MoveDirectory, MoveContents, V.Lookup, V.Normalized, V.WellFormed, V.WriteFileTree;
      var i := 0;
      while i < |entries|
        invariant 0 <= i <= |entries| && fs.Valid()
        invariant MoveEntries(old(fs.root), src, dst, entries, fuel) == MoveEntries(fs.root, src, dst, entries[i..], fuel)
      {
        assert entries[i..][1..] == entries[i + 1..];
        MoveEntriesUnfold(fs.root, src, dst, entries[i..], fuel);
        var entry := entries[i];
        var srcEntry := src + "/" + entry.name;
        var dstEntry := dst + "/" + entry.name;
        if entry.isDir {
          var m, e := MoveDir(srcEntry, dstEntry, fuel);
          if !m {
            return false, None;
          }
          if e.Some? {
            return true, e;
          }
        } else {
          var content := fs.ReadFile(srcEntry);
          if content.Err? {
            return true, Some("Cannot read file: " + entry.name);
          }
          var written := fs.WriteFile(dstEntry, content.value);
          if written.Err? {
            return true, Some("Cannot write file: " + entry.name);
          }
        }
        i := i + 1;
      }
      MoveEntriesUnfold(fs.root, src, dst, entries[i..], fuel);
      moved, error := true, None;
    }

    // ---- The other built-ins and the dispatch table ---------------------------------

    /** `sh FILE`: the file is read and run as a script. */
    method Sh(args: seq<string>) returns (out: Reply)
      requires Valid()
      modifies this, fs
      ensures Valid() && initialized == old(initialized)
      ensures BuiltinSpec.Sh(h, old(State()), args) == Outcome(out, State())
    {
      if |args| < 2 {
        return Returned(Failure("sh: missing script file operand", 1));
      }
      var scriptPath := args[1];
      var fullPath := ResolvePath(cwd, scriptPath);
      var found := fs.Exists(fullPath);
      if !found {
        return Returned(Failure("sh: " + scriptPath + ": No such file or directory", 127));
      }
      var read := fs.ReadFile(fullPath);
      if read.Err? {
        return Returned(Failure("sh: " + scriptPath + ": Cannot read file", 1));
      }
      out := RunScript(h.decode(read.value));
    }

    /** `builtinCommands[name](state, args)` */
    method RunBuiltin(name: string, args: seq<string>) returns (out: Reply)
      requires Valid() && name in BuiltinNames
      modifies this, fs
      ensures Valid() && initialized == old(initialized)
      ensures Builtin(h, old(State()), name, args) == Outcome(out, State())
    {
      var r: CommandOutput;
      match name {
      case "cd" => r := Cd(args);
      case "export" => r := Export(args);
      case "pwd" => r := CommandOutput(cwd, "", 0);
      case "clear" => r := CommandOutput(ClearSequence, "", 0);
      case "exit" => r := CommandOutput(ExitSequence, "", 0);
      case "mkdir" => r := Mkdir(args);
      case "touch" => r := Touch(args);
      case "rm" => r := Rm(args);
      case "alias" => r := Alias(args);
      case "unalias" => r := Unalias(args);
      case "mv" =>
        out := Mv(args);
        return;
      case "sh" =>
        out := Sh(args);
        return;
      }
      out := Returned(r);
    }

    // ---- Scripts, executables and PATH ------------------------------------------------

    /** `executeScript`: comment lines blanked, the whole script parsed
        once and run as a nested input. */
    method RunScript(content: string) returns (out: Reply)
      requires Valid()
      modifies this, fs
      ensures Valid() && initialized == old(initialized)
      ensures ExecuteScript(h, old(State()), content) == Outcome(out, State())
    {
      var parsed := h.parse(ScriptText(content));
      if parsed.Err? {
        return Returned(Failure("parse error: " + parsed.error.message, 1));
      }
      ShellInvariant.ScriptKeepsTree(h, State(), content);
      out := Adopt(h.nested(parsed.value, State()));
    }

    /** `executeSourceCommand` */
    method Source(filePath: string) returns (out: Reply)
      requires Valid()
      modifies this, fs
      ensures Valid() && initialized == old(initialized)
      ensures ExecuteSource(h, old(State()), filePath) == Outcome(out, State())
    {
      var read := fs.ReadFile(ResolvePath(cwd, filePath));
      if read.Err? {
        return Returned(Failure("source: " + filePath + ": No such file or directory", 1));
      }
      out := RunScript(h.decode(read.value));
    }

    /** `executeExecutableFile`: a script without an interpreter line or
        with a `sh` one runs; any other interpreter is refused with 126. */
    method RunExecutable(cmdPath: string) returns (out: Reply)
      requires Valid()
      modifies this, fs
      ensures Valid() && initialized == old(initialized)
      ensures ExecuteExecutable(h, old(State()), cmdPath) == Outcome(out, State())
    {
      var read := fs.ReadFile(cmdPath);
      if read.Err? {
        return Returned(Failure(cmdPath + ": No such file or directory", 127));
      }
      var content := h.decode(read.value);
      var interpreter := DetectShebang(content);
      if RunsAsScript(interpreter) {
        out := RunScript(content);
      } else {
        out := Returned(Failure(cmdPath + ": unsupported interpreter: " + interpreter.value, 126));
      }
    }

    /** `findWasmInPath` and `findScriptInPath`: the directories in order,
        the first readable `dir/file` wins. */
    method FindInPath(dirs: seq<string>, file: string) returns (r: Option<(string, Bytes)>)
      ensures r == SearchPath(fs.root, dirs, file)
    {
      var i := 0;
      while i < |dirs|
        invariant 0 <= i <= |dirs|
        invariant SearchPath(fs.root, dirs, file) == SearchPath(fs.root, dirs[i..], file)
      {
        assert dirs[i..][1..] == dirs[i + 1..];
        var path := dirs[i] + "/" + file;
        var read := fs.ReadFile(path);
        if read.Ok? {
          return Some((path, read.value));
        }
        i := i + 1;
      }
      r := None;
    }

    /** `dispatchExternalCommand` */
    method RunExternal(cmd: string, args: seq<string>, stdin: Option<string>) returns (out: Reply)
      requires Valid()
      modifies this, fs
      ensures Valid() && initialized == old(initialized)
      ensures External(h, old(State()), cmd, args, stdin) == Outcome(out, State())
    {
      var dirs := PathDirs(env);
      var binary := FindInPath(dirs, cmd + ".wasm");
      if binary.Some? {
        return Returned(h.wasm(binary.value.1, cmd, CommandInput(args, env, cwd, stdin), stdin.None?));
      }
      var script := FindInPath(dirs, cmd + ".sh");
      if script.Some? {
        out := RunScript(h.decode(script.value.1));
        return;
      }
      out := Returned(Failure(cmd + ": command not found", 127));
    }

    // ---- Simple commands, pipelines, lists ----------------------------------------------

    /** `executeSimpleCommand` */
    method RunSimpleCommand(cmd: SimpleCommand, subs: map<nat, string>, stdin: Option<string>) returns (out: Reply)
      requires Valid()
      modifies this, fs
      ensures Valid() && initialized == old(initialized)
      ensures RunSimple(h, old(State()), cmd, subs, stdin) == Outcome(out, State())
    {
      var args := ExpandAll(cmd.args, env, subs);
      if |args| == 0 {
        return Returned(Success);
      }
      if args[0] == "source" || args[0] == "." {
        if |args| < 2 {
          return Returned(Failure(args[0] + ": filename argument required", 1));
        }
        out := Source(args[1]);
        return;
      }
      var words := args;
      match ExpandAlias(args[0], aliases, {}) {
      case Circular(message) =>
        return Returned(Failure(message, 1));
      case NotAlias =>
      case Expanded(value) =>
        words := SplitSpaces(value) + args[1..];
      }
      out := RunResolved(cmd, subs, stdin, words);
    }

    /** The rest of `executeSimpleCommand`: the redirections in order, the
        command, then its output written to the redirection's file. */
    method RunResolved(cmd: SimpleCommand, subs: map<nat, string>, stdin: Option<string>, words: seq<string>) returns (out: Reply)
      requires Valid() && |words| > 0
      modifies this, fs
      ensures Valid() && initialized == old(initialized)
      ensures Resolved(h, old(State()), cmd, subs, stdin, words) == Outcome(out, State())
    {
      hide Redirects, WriteOutput;
      var name := words[0];
      var rd := ReadRedirects(name, cmd.redirects, subs, stdin);
      if rd.Err? {
        return Returned(rd.error);
      }
      var result := RunCommand(name, words, rd.value.stdin);
      if !result.Returned? {
        return result;
      }
      ShellInvariant.WriteOutputKeepsTree(h, result.value, State(), rd.value);
      var written := WriteStdout(result.value, rd.value);
      out := Returned(written);
    }

    /** The redirections of a command, in order, before it runs. */
    method ReadRedirects(name: string, rs: seq<Redirect>, subs: map<nat, string>, stdin: Option<string>) returns (r: Result<Redirection, CommandOutput>)
      ensures r == Redirects(h, State(), name, rs, subs, Redirection(stdin, None, false))
    {
      hide V.Lookup, V.Normalized, V.WellFormed;
      var finalStdin, stdoutFile, append := stdin, None, false;
      var i := 0;
      while i < |rs|
        invariant 0 <= i <= |rs|
        invariant Redirects(h, State(), name, rs, subs, Redirection(stdin, None, false)) ==
          Redirects(h, State(), name, rs[i..], subs, Redirection(finalStdin, stdoutFile, append))
      {
        assert rs[i..][1..] == rs[i + 1..];
        var target := W.ExpandWord(rs[i].target, env, subs);
        match rs[i].kind {
        case StdinFrom =>
          var read := fs.ReadFile(ResolvePath(cwd, target));
          if read.Err? {
            return Err(Failure(name + ": " + target + ": No such file or directory", 1));
          }
          finalStdin := Some(h.decode(read.value));
        case StdoutTo =>
          stdoutFile, append := Some(target), false;
        case StdoutAppend =>
          stdoutFile, append := Some(target), true;
        }
        i := i + 1;
      }
      r := Ok(Redirection(finalStdin, stdoutFile, append));
    }

    /** A command's output sent to its `>` or `>>` file, appended to what
        the file held for `>>`; the output shown is then empty. */
    method WriteStdout(result: CommandOutput, rd: Redirection) returns (out: CommandOutput)
      requires fs.Valid()
      modifies fs
      ensures fs.Valid()
      ensures WriteOutput(h, result, old(State()), rd) == Done(out, State())
    {
      hide V.Lookup, V.Normalized, V.WellFormed, V.WriteFileTree;
      out := result;
      if rd.stdoutFile.Some? && rd.stdoutFile.value != "" {
        var path := ResolvePath(cwd, rd.stdoutFile.value);
        var content := h.encode(result.stdout);
        var written;
        if rd.append {
          var existing := fs.ReadFile(path);
          if existing.Ok? {
            written := fs.WriteFile(path, existing.value + content);
          } else {
            written := fs.WriteFile(path, content);
          }
        } else {
          written := fs.WriteFile(path, content);
        }
        out := result.(stdout := "");
      }
    }

    /** A built-in, then a path run as an executable file, then PATH. */
    method RunCommand(name: string, args: seq<string>, stdin: Option<string>) returns (out: Reply)
      requires Valid()
      modifies this, fs
      ensures Valid() && initialized == old(initialized)
      ensures Invoke(h, old(State()), name, args, stdin) == Outcome(out, State())
    {
      if name in BuiltinNames {
        out := RunBuiltin(name, args);
      } else if StartsWith(name, "./") || StartsWith(name, "/") {
        out := RunExecutable(ResolvePath(cwd, name));
      } else {
        out := RunExternal(name, args, stdin);
      }
    }

    /** `executePipeline`: the stages in order, each reading the output of
        the one before; a failing stage that is not the last ends it. */
    method RunPipelineCommands(p: Pipeline, subs: map<nat, string>) returns (out: Reply)
      requires Valid()
      modifies this, fs
      ensures Valid() && initialized == old(initialized)
      ensures RunPipeline(h, old(State()), p, subs) == Outcome(out, State())
    {
      hide Stages, RunSimple;
      var commands := p.commands;
      if |commands| == 0 {
        return Returned(Success);
      }
      if |commands| == 1 {
        out := RunSimpleCommand(commands[0], subs, None);
        return;
      }
      var stdin := "";
      var stderr := "";
      var i := 0;
      while true
        invariant 0 <= i < |commands| && Valid() && initialized == old(initialized)
        invariant RunPipeline(h, old(State()), p, subs) == Stages(h, State(), commands[i..], subs, stdin, stderr)
        decreases |commands| - i
      {
        assert commands[i..][0] == commands[i] && commands[i..][1..] == commands[i + 1..];
        StagesUnfold(h, State(), commands[i..], subs, stdin, stderr);
        var last := RunSimpleCommand(commands[i], subs, Some(stdin));
        if !last.Returned? {
          return last;
        }
        stderr := stderr + last.value.stderr;
        if i == |commands| - 1 || last.value.exitCode != 0 {
          return Returned(CommandOutput(last.value.stdout, stderr, last.value.exitCode));
        }
        stdin := last.value.stdout;
        i := i + 1;
      }
    }

    /** `executeInput` for a command substitution: trimmed, parsed and run
        as a nested input. */
    method RunNestedInput(input: string) returns (out: Reply)
      requires Valid()
      modifies this, fs
      ensures Valid() && initialized == old(initialized)
      ensures RunNested(h, old(State()), input) == Outcome(out, State())
    {
      var trimmed := Trim(input);
      if trimmed == "" {
        return Returned(Success);
      }
      var parsed := h.parse(trimmed);
      if parsed.Err? {
        return Returned(Failure("parse error: " + parsed.error.message, 1));
      }
      assert IsTree(State().root);
      out := Adopt(h.nested(parsed.value, State()));
    }

    /** `executeParseResult`: every substitution first, its output with
        trailing white space removed; then the `&&`/`||` list, skipping
        elements by the last exit code and collecting the output. */
    method RunParseResult(pr: ParseResult) returns (out: Reply)
      requires Valid()
      modifies this, fs
      ensures Valid() && initialized == old(initialized)
      ensures ExecuteParseResult(h, old(State()), pr) == Outcome(out, State())
    {
      var substitutions: map<nat, string> := map[];
      var subst := pr.substitutions;
      var i := 0;
      while i < |subst|
        invariant 0 <= i <= |subst| && Valid() && initialized == old(initialized)
        invariant Substitutions(h, old(State()), subst, map[]) == Substitutions(h, State(), subst[i..], substitutions)
      {
        assert subst[i..][1..] == subst[i + 1..];
        var result := RunNestedInput(subst[i].input);
        if !result.Returned? {
          return result;
        }
        substitutions := substitutions[subst[i].id := TrimEnd(result.value.stdout)];
        i := i + 1;
      }
      var els := pr.elements;
      var lastExitCode := 0;
      var stdout, stderr := "", "";
      var k := 0;
      while k < |els|
        invariant 0 <= k <= |els| && Valid() && initialized == old(initialized)
        invariant ExecuteParseResult(h, old(State()), pr) == Elements(h, State(), els[k..], substitutions, lastExitCode, stdout, stderr)
      {
        assert els[k..][1..] == els[k + 1..];
        if Skipped(els[k].connector, lastExitCode) {
          k := k + 1;
          continue;
        }
        var result := RunPipelineCommands(els[k].pipeline, substitutions);
        if !result.Returned? {
          return result;
        }
        lastExitCode := result.value.exitCode;
        stdout, stderr := stdout + result.value.stdout, stderr + result.value.stderr;
        k := k + 1;
      }
      out := Returned(CommandOutput(stdout, stderr, lastExitCode));
    }

    /** `executeInput` */
    method RunInput(input: string) returns (out: Reply)
      requires Valid()
      modifies this, fs
      ensures Valid() && initialized == old(initialized)
      ensures ExecuteInput(h, old(State()), input) == Outcome(out, State())
    {
      var trimmed := Trim(input);
      if trimmed == "" {
        return Returned(Success);
      }
      var parsed := h.parse(trimmed);
      if parsed.Err? {
        return Returned(Failure("parse error: " + parsed.error.message, 1));
      }
      out := RunParseResult(parsed.value);
    }

    /** `initialize`: only the first call sources `~/.shellrc`, when it
        exists; later calls succeed and change nothing. */
    method Init() returns (out: Reply)
      requires Valid()
      modifies this, fs
      ensures Valid() && initialized
      ensures old(initialized) ==> out == Returned(Success) && State() == old(State())
      ensures !old(initialized) ==> Initialize(h, old(State())) == Outcome(out, State())
    {
      if initialized {
        return Returned(Success);
      }
      initialized := true;
      var found := fs.Exists(ShellrcPath);
      if found {
        out := Source(ShellrcPath);
      } else {
        out := Returned(Success);
      }
    }

    /** `execute`: initialise on the first call, then run the input. */
    method Run(input: string) returns (out: Reply)
      requires Valid()
      modifies this, fs
      ensures Valid() && initialized
      ensures Execute(h, old(State()), old(initialized), input) == Outcome(out, State())
    {
      if !initialized {
        var started := Init();
        if !started.Returned? {
          return started;
        }
      }
      out := RunInput(input);
    }
  }
}
