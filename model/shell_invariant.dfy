/** The filesystem stays a tree rooted at a directory through everything
    the dispatcher does: every built-in, every simple command, pipeline,
    list, substitution and whole input, given that nested runs keep it too
    (`Sound`). */
module ShellInvariant {
  import opened Wrappers
  import opened Text
  import opened ShellAst
  import opened ShellTypes
  import V = VirtualFs
  import opened DispatchSpec
  import opened BuiltinSpec
  import opened ExecSpec

  /** `writeFile`, `mkdir` and `remove` keep the tree, failed or not. */
  lemma OperationsKeepTree(root: V.Node, path: string, data: Bytes)
    requires IsTree(root)
    ensures IsTree(After(WriteAt(root, path, data), root))
    ensures IsTree(After(MkdirAt(root, path), root))
    ensures IsTree(After(RemoveAt(root, path), root))
    ensures WriteAt(root, path, data).Ok? ==> IsTree(WriteAt(root, path, data).value)
    ensures MkdirAt(root, path).Ok? ==> IsTree(MkdirAt(root, path).value)
    ensures RemoveAt(root, path).Ok? ==> IsTree(RemoveAt(root, path).value)
  {
    V.OperationsKeepWellFormed(root, V.Normalized(path), data);
  }

  lemma MkdirKeepsTreeAt(root: V.Node, path: string)
    requires IsTree(root)
    ensures MkdirAt(root, path).Ok? ==> IsTree(MkdirAt(root, path).value)
  {
    V.OperationsKeepWellFormed(root, V.Normalized(path), []);
  }

  lemma RemoveKeepsTreeAt(root: V.Node, path: string)
    requires IsTree(root)
    ensures IsTree(After(RemoveAt(root, path), root))
  {
    V.OperationsKeepWellFormed(root, V.Normalized(path), []);
  }

  lemma {:induction false} MkdirChainKeepsTree(root: V.Node, current: string, parts: seq<string>)
    requires IsTree(root)
    ensures IsTree(MkdirChain(root, current, parts).1)
    decreases |parts|
  {
    hide IsTree, V.Normalized, NormalizePath;
    if |parts| > 0 {
      var path := current + "/" + parts[0];
      OperationsKeepTree(root, path, []);
      if Exists(root, path) {
        MkdirChainKeepsTree(root, path, parts[1..]);
      } else if MkdirAt(root, path).Ok? {
        MkdirChainKeepsTree(MkdirAt(root, path).value, path, parts[1..]);
      }
    }
  }

  lemma {:induction false} MkdirEachKeepsTree(root: V.Node, cwd: string, parents: bool, targets: seq<string>)
    requires IsTree(root)
    ensures IsTree(MkdirEach(root, cwd, parents, targets).1)
    decreases |targets|
  {
    hide IsTree, V.Normalized, NormalizePath;
    if |targets| > 0 {
      var full := ResolvePath(cwd, targets[0]);
      if parents {
        var chain := MkdirChain(root, "", PathParts(full));
        MkdirChainKeepsTree(root, "", PathParts(full));
        if chain.0 {
          MkdirEachKeepsTree(chain.1, cwd, parents, targets[1..]);
        }
      } else {
        OperationsKeepTree(root, full, []);
        if MkdirAt(root, full).Ok? {
          MkdirEachKeepsTree(MkdirAt(root, full).value, cwd, parents, targets[1..]);
        }
      }
    }
  }

  lemma {:induction false} TouchEachKeepsTree(root: V.Node, cwd: string, rest: seq<string>)
    requires IsTree(root)
    ensures IsTree(TouchEach(root, cwd, rest).1)
    decreases |rest|
  {
    hide IsTree, V.Normalized, NormalizePath;
    if |rest| > 0 {
      var full := ResolvePath(cwd, rest[0]);
      if StartsWith(rest[0], "-") || Exists(root, full) {
        TouchEachKeepsTree(root, cwd, rest[1..]);
      } else {
        OperationsKeepTree(root, full, []);
        if WriteAt(root, full, []).Ok? {
          TouchEachKeepsTree(WriteAt(root, full, []).value, cwd, rest[1..]);
        }
      }
    }
  }

  lemma {:induction false} RmEachKeepsTree(root: V.Node, cwd: string, recursive: bool, force: bool, targets: seq<string>)
    requires IsTree(root)
    ensures IsTree(RmEach(root, cwd, recursive, force, targets).1)
    decreases |targets|
  {
    hide IsTree, V.Normalized, NormalizePath;
    if |targets| > 0 {
      var full := ResolvePath(cwd, targets[0]);
      OperationsKeepTree(root, full, []);
      RmEachKeepsTree(root, cwd, recursive, force, targets[1..]);
      if RemoveAt(root, full).Ok? {
        RmEachKeepsTree(RemoveAt(root, full).value, cwd, recursive, force, targets[1..]);
      }
    }
  }

  /** A move, whether it returns or overflows the call stack, leaves a tree. */
  ghost predicate TreeKept(m: MoveOutcome) {
    IsTree(m.root)
  }

  lemma {:induction false} MoveDirectoryKeepsTree(root: V.Node, src: string, dst: string, fuel: nat)
    requires IsTree(root)
    ensures TreeKept(MoveDirectory(root, src, dst, fuel))
    decreases fuel, 0, 0
  {
    hide IsTree, V.Normalized, NormalizePath;
    var r1, ok := MoveDirectoryStep(root, src, dst, fuel);
    if ok {
      ContentsKeepTree(root, src, dst, fuel, r1);
    }
  }

  lemma {:induction false} ContentsKeepTree(root: V.Node, src: string, dst: string, fuel: nat, r1: V.Node)
    requires IsTree(r1) && fuel > 0
    requires MoveDirectory(root, src, dst, fuel) == MoveContents(r1, src, dst, fuel - 1)
    ensures TreeKept(MoveDirectory(root, src, dst, fuel))
    decreases fuel - 1, 3, 0
  {
    hide *;
    MoveContentsKeepsTree(r1, src, dst, fuel - 1);
  }

  /** One level of `moveDirectory`: the destination is created, and the
      rest happens in the new tree. */
  lemma MoveDirectoryStep(root: V.Node, src: string, dst: string, fuel: nat) returns (r1: V.Node, created: bool)
    requires IsTree(root)
    ensures IsTree(r1)
    ensures created ==> fuel > 0 && MoveDirectory(root, src, dst, fuel) == MoveContents(r1, src, dst, fuel - 1)
    ensures !created ==> TreeKept(MoveDirectory(root, src, dst, fuel))
  {
    hide IsTree, V.Normalized, NormalizePath;
    r1, created := root, false;
    if fuel > 0 && MkdirAt(root, dst).Ok? {
      r1, created := MkdirAt(root, dst).value, true;
      MkdirKeepsTreeAt(root, dst);
    }
  }

  lemma {:induction false} MoveContentsKeepsTree(root: V.Node, src: string, dst: string, fuel: nat)
    requires IsTree(root)
    ensures TreeKept(MoveContents(root, src, dst, fuel))
    decreases fuel, 2, 0
  {
    hide IsTree, V.Normalized, NormalizePath;
    if ListAt(root, src).Ok? {
      var m := MoveEntries(root, src, dst, ListAt(root, src).value, fuel);
      MoveEntriesKeepsTree(root, src, dst, ListAt(root, src).value, fuel);
      if m.Moved? {
        RemoveKeepsTreeAt(m.root, src);
      }
    }
  }

  lemma {:induction false} MoveEntriesKeepsTree(root: V.Node, src: string, dst: string, entries: seq<V.FileEntry>, fuel: nat)
    requires IsTree(root)
    ensures TreeKept(MoveEntries(root, src, dst, entries, fuel))
    decreases fuel, 1, |entries|
  {
    hide IsTree, V.Normalized, NormalizePath;
    if |entries| > 0 {
      var srcEntry := src + "/" + entries[0].name;
      var dstEntry := dst + "/" + entries[0].name;
      if entries[0].isDir {
        MoveDirectoryKeepsTree(root, srcEntry, dstEntry, fuel);
        var m := MoveDirectory(root, srcEntry, dstEntry, fuel);
        if m.Moved? && m.error.None? {
          MoveEntriesKeepsTree(m.root, src, dst, entries[1..], fuel);
        }
      } else if ReadAt(root, srcEntry).Ok? {
        var content := ReadAt(root, srcEntry).value;
        OperationsKeepTree(root, dstEntry, content);
        if WriteAt(root, dstEntry, content).Ok? {
          MoveEntriesKeepsTree(WriteAt(root, dstEntry, content).value, src, dst, entries[1..], fuel);
        }
      }
    }
  }

  /** A script run by the dispatcher keeps the tree. */
  lemma ScriptKeepsTree(h: Host, st: Snapshot, content: string)
    requires Sound(h) && IsTree(st.root)
    ensures !ExecuteScript(h, st, content).Hangs? ==> IsTree(ExecuteScript(h, st, content).st.root)
  {
    hide IsTree, V.Normalized, NormalizePath;
  }

  lemma {:induction false} MvEachKeepsTree(h: Host, st: Snapshot, sources: seq<string>, destPath: string, destIsDir: bool)
    requires IsTree(st.root)
    ensures !MvEach(h, st, sources, destPath, destIsDir).Hangs? ==> IsTree(MvEach(h, st, sources, destPath, destIsDir).st.root)
    decreases |sources|
  {
    hide IsTree, V.Normalized, NormalizePath;
    if |sources| > 0 {
      var source := sources[0];
      var sourcePath := ResolvePath(st.cwd, source);
      var finalDest := if destIsDir then destPath + "/" + BaseName(source) else destPath;
      if Exists(st.root, sourcePath) {
        if IsDirAt(st.root, sourcePath) {
          MoveDirectoryKeepsTree(st.root, sourcePath, finalDest, h.moveDepth);
          var m := MoveDirectory(st.root, sourcePath, finalDest, h.moveDepth);
          if m.Moved? && m.error.None? {
            MvEachKeepsTree(h, st.(root := m.root), sources[1..], destPath, destIsDir);
          }
        } else if ReadAt(st.root, sourcePath).Ok? {
          var content := ReadAt(st.root, sourcePath).value;
          OperationsKeepTree(st.root, finalDest, content);
          if WriteAt(st.root, finalDest, content).Ok? {
            var r := WriteAt(st.root, finalDest, content).value;
            OperationsKeepTree(r, sourcePath, []);
            MvEachKeepsTree(h, st.(root := After(RemoveAt(r, sourcePath), r)), sources[1..], destPath, destIsDir);
          }
        }
      }
    }
  }

  lemma MkdirKeepsTree(st: Snapshot, args: seq<string>)
    requires IsTree(st.root)
    ensures IsTree(Mkdir(st, args).st.root)
  {
    hide IsTree, V.Normalized, NormalizePath;
    if |args| >= 2 {
      var options := MkdirOptions(args[1..]);
      MkdirEachKeepsTree(st.root, st.cwd, options.0, options.1);
    }
  }

  lemma TouchKeepsTree(st: Snapshot, args: seq<string>)
    requires IsTree(st.root)
    ensures IsTree(Touch(st, args).st.root)
  {
    hide IsTree, V.Normalized, NormalizePath;
    if |args| >= 2 {
      TouchEachKeepsTree(st.root, st.cwd, args[1..]);
    }
  }

  lemma RmKeepsTree(st: Snapshot, args: seq<string>)
    requires IsTree(st.root)
    ensures IsTree(Rm(st, args).st.root)
  {
    hide IsTree, V.Normalized, NormalizePath;
    var options := RmFlags(if |args| > 0 then args[1..] else []);
    RmEachKeepsTree(st.root, st.cwd, options.recursive, options.force, options.targets);
  }

  lemma MvKeepsTree(h: Host, st: Snapshot, args: seq<string>)
    requires IsTree(st.root)
    ensures !Mv(h, st, args).Hangs? ==> IsTree(Mv(h, st, args).st.root)
  {
    hide IsTree, V.Normalized, NormalizePath;
    var targets := Operands(if |args| > 0 then args[1..] else []);
    if |targets| >= 2 {
      var destPath := ResolvePath(st.cwd, targets[|targets| - 1]);
      MvEachKeepsTree(h, st, targets[..|targets| - 1], destPath, IsDirAt(st.root, destPath));
    }
  }

  lemma ShKeepsTree(h: Host, st: Snapshot, args: seq<string>)
    requires Sound(h) && IsTree(st.root)
    ensures !Sh(h, st, args).Hangs? ==> IsTree(Sh(h, st, args).st.root)
  {
    hide IsTree, V.Normalized, NormalizePath;
    if |args| >= 2 && ReadAt(st.root, ResolvePath(st.cwd, args[1])).Ok? {
      ScriptKeepsTree(h, st, h.decode(ReadAt(st.root, ResolvePath(st.cwd, args[1])).value));
    }
  }

  /** Every built-in keeps the tree. */
  lemma BuiltinKeepsTree(h: Host, st: Snapshot, name: string, args: seq<string>)
    requires name in BuiltinNames
    requires Sound(h) && IsTree(st.root)
    ensures !Builtin(h, st, name, args).Hangs? ==> IsTree(Builtin(h, st, name, args).st.root)
  {
    hide *;
    BuiltinDispatch(h, st, name, args);
    if name == "mkdir" {
      MkdirKeepsTree(st, args);
    } else if name == "touch" {
      TouchKeepsTree(st, args);
    } else if name == "rm" {
      RmKeepsTree(st, args);
    } else if name == "mv" {
      MvKeepsTree(h, st, args);
    } else if name == "sh" {
      ShKeepsTree(h, st, args);
    } else {
      SettingsKeepRoot(st, args);
    }
  }

  /** Which function runs each built-in; those that only change settings
      (directory, variables, aliases) or print leave the tree alone. */
  lemma BuiltinDispatch(h: Host, st: Snapshot, name: string, args: seq<string>)
    requires name in BuiltinNames
    ensures name == "mkdir" ==> Builtin(h, st, name, args) == Mkdir(st, args)
    ensures name == "touch" ==> Builtin(h, st, name, args) == Touch(st, args)
    ensures name == "rm" ==> Builtin(h, st, name, args) == Rm(st, args)
    ensures name == "mv" ==> Builtin(h, st, name, args) == Mv(h, st, args)
    ensures name == "sh" ==> Builtin(h, st, name, args) == Sh(h, st, args)
    ensures name in {"cd", "export", "pwd", "clear", "exit", "alias", "unalias"} ==>
      Builtin(h, st, name, args) in {Cd(st, args), Export(st, args), Alias(st, args), Unalias(st, args),
        Pwd(st), Done(CommandOutput(ClearSequence, "", 0), st), Done(CommandOutput(ExitSequence, "", 0), st)}
    ensures name !in {"cd", "export", "pwd", "clear", "exit", "alias", "unalias"} ==> name in {"mkdir", "touch", "rm", "mv", "sh"}
  {
    hide Cd, Export, Pwd, Mkdir, Touch, Rm, Mv, Alias, Unalias, Sh;
  }

  /** `cd`, `export`, `alias`, `unalias`, `pwd`, `clear` and `exit` keep the tree as it was. */
  lemma SettingsKeepRoot(st: Snapshot, args: seq<string>)
    ensures Cd(st, args).st.root == st.root
    ensures Export(st, args).st.root == st.root
    ensures Alias(st, args).st.root == st.root
    ensures Unalias(st, args).st.root == st.root
    ensures Pwd(st).st.root == st.root
  {
    hide V.Normalized, NormalizePath, EnvListing, AliasListing, UnaliasEach, StripQuotes;
  }

  /** A simple command keeps the tree, whatever it resolves to. */
  lemma SimpleKeepsTree(h: Host, st: Snapshot, cmd: SimpleCommand, subs: map<nat, string>, stdin: Option<string>)
    requires Sound(h) && IsTree(st.root)
    ensures !RunSimple(h, st, cmd, subs, stdin).Hangs? ==> IsTree(RunSimple(h, st, cmd, subs, stdin).st.root)
  {
    hide IsTree, Sound, Resolved, ExecuteSource, ExpandAll, ExpandAlias, SplitSpaces;
    var args := ExpandAll(cmd.args, st.env, subs);
    if |args| > 0 && (args[0] == "source" || args[0] == ".") {
      if |args| >= 2 {
        SourceKeepsTree(h, st, args[1]);
      }
    } else if |args| > 0 {
      match ExpandAlias(args[0], st.aliases, {})
      case Circular(_) =>
      case NotAlias => ResolvedKeepsTree(h, st, cmd, subs, stdin, args);
      case Expanded(value) => ResolvedKeepsTree(h, st, cmd, subs, stdin, SplitSpaces(value) + args[1..]);
    }
  }

  lemma ResolvedKeepsTree(h: Host, st: Snapshot, cmd: SimpleCommand, subs: map<nat, string>, stdin: Option<string>, words: seq<string>)
    requires |words| > 0
    requires Sound(h) && IsTree(st.root)
    ensures !Resolved(h, st, cmd, subs, stdin, words).Hangs? ==> IsTree(Resolved(h, st, cmd, subs, stdin, words).st.root)
  {
    hide IsTree, Sound, Redirects, Invoke, WriteOutput;
    var rd := Redirects(h, st, words[0], cmd.redirects, subs, Redirection(stdin, None, false));
    if rd.Ok? {
      InvokeKeepsTree(h, st, words[0], words, rd.value.stdin);
      var run := Invoke(h, st, words[0], words, rd.value.stdin);
      if run.Done? {
        WriteOutputKeepsTree(h, run.out, run.st, rd.value);
      }
    }
  }

  /** Whatever a command name resolves to keeps the tree. */
  lemma InvokeKeepsTree(h: Host, st: Snapshot, name: string, args: seq<string>, stdin: Option<string>)
    requires Sound(h) && IsTree(st.root)
    ensures !Invoke(h, st, name, args, stdin).Hangs? ==> IsTree(Invoke(h, st, name, args, stdin).st.root)
  {
    hide IsTree, Sound, Builtin, ExecuteExecutable, External, NormalizePath;
    if name in BuiltinNames {
      BuiltinKeepsTree(h, st, name, args);
    } else if StartsWith(name, "./") || StartsWith(name, "/") {
      ExecutableKeepsTree(h, st, ResolvePath(st.cwd, name));
    } else {
      ExternalKeepsTree(h, st, name, args, stdin);
    }
  }

  /** A redirection of standard output writes one file, which keeps the tree. */
  lemma WriteOutputKeepsTree(h: Host, out: CommandOutput, st: Snapshot, rd: Redirection)
    requires IsTree(st.root)
    ensures IsTree(WriteOutput(h, out, st, rd).st.root)
  {
    hide IsTree, NormalizePath, ReadAt, WriteAt;
    if rd.stdoutFile.Some? && rd.stdoutFile.value != "" {
      var path := ResolvePath(st.cwd, rd.stdoutFile.value);
      var content := h.encode(out.stdout);
      var existing := ReadAt(st.root, path);
      var data := if rd.append && existing.Ok? then existing.value + content else content;
      OperationsKeepTree(st.root, path, data);
    }
  }

  lemma SourceKeepsTree(h: Host, st: Snapshot, file: string)
    requires Sound(h) && IsTree(st.root)
    ensures !ExecuteSource(h, st, file).Hangs? ==> IsTree(ExecuteSource(h, st, file).st.root)
  {
    hide IsTree, Sound, ExecuteScript, ReadAt, NormalizePath;
    var bytes := ReadAt(st.root, ResolvePath(st.cwd, file));
    if bytes.Ok? {
      ScriptKeepsTree(h, st, h.decode(bytes.value));
    }
  }

  lemma ExecutableKeepsTree(h: Host, st: Snapshot, path: string)
    requires Sound(h) && IsTree(st.root)
    ensures !ExecuteExecutable(h, st, path).Hangs? ==> IsTree(ExecuteExecutable(h, st, path).st.root)
  {
    hide IsTree, Sound, ExecuteScript, ReadAt, DetectShebang;
    var bytes := ReadAt(st.root, path);
    if bytes.Ok? {
      ScriptKeepsTree(h, st, h.decode(bytes.value));
    }
  }

  lemma ExternalKeepsTree(h: Host, st: Snapshot, cmd: string, args: seq<string>, stdin: Option<string>)
    requires Sound(h) && IsTree(st.root)
    ensures !External(h, st, cmd, args, stdin).Hangs? ==> IsTree(External(h, st, cmd, args, stdin).st.root)
  {
    hide IsTree, Sound, ExecuteScript, SearchPath, PathDirs;
    var found := SearchPath(st.root, PathDirs(st.env), cmd + ".sh");
    if found.Some? {
      ScriptKeepsTree(h, st, h.decode(found.value.1));
    }
  }

  lemma {:induction false} StagesKeepTree(h: Host, st: Snapshot, cmds: seq<SimpleCommand>, subs: map<nat, string>, stdin: string, stderr: string)
    requires |cmds| > 0
    requires Sound(h) && IsTree(st.root)
    ensures !Stages(h, st, cmds, subs, stdin, stderr).Hangs? ==> IsTree(Stages(h, st, cmds, subs, stdin, stderr).st.root)
    decreases |cmds|
  {
    hide IsTree, V.Normalized, NormalizePath;
    SimpleKeepsTree(h, st, cmds[0], subs, Some(stdin));
    var first := RunSimple(h, st, cmds[0], subs, Some(stdin));
    if first.Done? && |cmds| > 1 && first.out.exitCode == 0 {
      StagesKeepTree(h, first.st, cmds[1..], subs, first.out.stdout, stderr + first.out.stderr);
    }
  }

  lemma PipelineKeepsTree(h: Host, st: Snapshot, p: Pipeline, subs: map<nat, string>)
    requires Sound(h) && IsTree(st.root)
    ensures !RunPipeline(h, st, p, subs).Hangs? ==> IsTree(RunPipeline(h, st, p, subs).st.root)
  {
    hide IsTree, V.Normalized, NormalizePath;
    if |p.commands| == 1 {
      SimpleKeepsTree(h, st, p.commands[0], subs, None);
    } else if |p.commands| > 1 {
      StagesKeepTree(h, st, p.commands, subs, "", "");
    }
  }

  lemma {:induction false} ElementsKeepTree(h: Host, st: Snapshot, els: seq<ConditionalElement>, subs: map<nat, string>, last: int, stdout: string, stderr: string)
    requires Sound(h) && IsTree(st.root)
    ensures !Elements(h, st, els, subs, last, stdout, stderr).Hangs? ==> IsTree(Elements(h, st, els, subs, last, stdout, stderr).st.root)
    decreases |els|
  {
    hide IsTree, V.Normalized, NormalizePath;
    if |els| > 0 {
      if Skipped(els[0].connector, last) {
        ElementsKeepTree(h, st, els[1..], subs, last, stdout, stderr);
      } else {
        PipelineKeepsTree(h, st, els[0].pipeline, subs);
        var r := RunPipeline(h, st, els[0].pipeline, subs);
        if r.Done? {
          ElementsKeepTree(h, r.st, els[1..], subs, r.out.exitCode, stdout + r.out.stdout, stderr + r.out.stderr);
        }
      }
    }
  }

  lemma {:induction false} SubstitutionsKeepTree(h: Host, st: Snapshot, subs: seq<CommandSubstitution>, acc: map<nat, string>)
    requires Sound(h) && IsTree(st.root)
    ensures Substitutions(h, st, subs, acc).Ok? ==> IsTree(Substitutions(h, st, subs, acc).value.1.root)
    ensures Substitutions(h, st, subs, acc).Err? && !Substitutions(h, st, subs, acc).error.Hangs? ==>
      IsTree(Substitutions(h, st, subs, acc).error.st.root)
    decreases |subs|
  {
    hide IsTree, V.Normalized, NormalizePath;
    if |subs| > 0 {
      var r := RunNested(h, st, subs[0].input);
      if r.Done? {
        SubstitutionsKeepTree(h, r.st, subs[1..], acc[subs[0].id := TrimEnd(r.out.stdout)]);
      }
    }
  }

  /** A whole input keeps the tree. */
  lemma InputKeepsTree(h: Host, st: Snapshot, input: string)
    requires Sound(h) && IsTree(st.root)
    ensures !ExecuteInput(h, st, input).Hangs? ==> IsTree(ExecuteInput(h, st, input).st.root)
  {
    hide IsTree, V.Normalized, NormalizePath;
    var trimmed := Trim(input);
    if trimmed != "" && h.parse(trimmed).Ok? {
      ParseResultKeepsTree(h, st, h.parse(trimmed).value);
    }
  }

  lemma ParseResultKeepsTree(h: Host, st: Snapshot, pr: ParseResult)
    requires Sound(h) && IsTree(st.root)
    ensures !ExecuteParseResult(h, st, pr).Hangs? ==> IsTree(ExecuteParseResult(h, st, pr).st.root)
  {
    hide IsTree, V.Normalized, NormalizePath;
    SubstitutionsKeepTree(h, st, pr.substitutions, map[]);
    var s := Substitutions(h, st, pr.substitutions, map[]);
    if s.Ok? {
      ElementsKeepTree(h, s.value.1, pr.elements, s.value.0, 0, "", "");
    }
  }

  lemma InitializeKeepsTree(h: Host, st: Snapshot)
    requires Sound(h) && IsTree(st.root)
    ensures !Initialize(h, st).Hangs? ==> IsTree(Initialize(h, st).st.root)
  {
    hide IsTree, V.Normalized, NormalizePath;
  }
}
