/** How the dispatcher runs a parse result (src/shell/dispatcher.ts,
    `executeSimpleCommand`, `executePipeline`, `executeParseResult`,
    `executeInput`, `createShell`), as functions of the shell state: the
    command substitutions first, then the `&&`/`||` list of pipelines, each
    pipeline stage by stage, each simple command through word expansion,
    `source`, alias expansion, redirections and command resolution. */
module ExecSpec {
  import opened Wrappers
  import opened Text
  import opened OrderedMap
  import opened ShellAst
  import opened ShellTypes
  import V = VirtualFs
  import W = WordExpansion
  import opened DispatchSpec
  import opened BuiltinSpec

  // ---- Simple commands -------------------------------------------------------

  /** The words of a command after expansion. */
  function ExpandAll(words: seq<ParsedWord>, env: Entries<string, string>, subs: map<nat, string>): (r: seq<string>)
    ensures |r| == |words|
    ensures forall k :: 0 <= k < |r| ==> r[k] == W.ExpandWord(words[k], env, subs)
  {
    if |words| == 0 then [] else [W.ExpandWord(words[0], env, subs)] + ExpandAll(words[1..], env, subs)
  }

  /** Where a command reads from and writes to: its stdin (None when it
      reads from the terminal), and the file its output goes to, if any. */
  datatype Redirection = Redirection(stdin: Option<string>, stdoutFile: Option<string>, append: bool)

  /** The redirections in order: `<` replaces stdin with the decoded file
      (a file that cannot be read ends the command before it runs), `>`
      and `>>` set the output file, the last one winning. */
  function Redirects(h: Host, st: Snapshot, cmdName: string, rs: seq<Redirect>, subs: map<nat, string>, acc: Redirection): Result<Redirection, CommandOutput>
    decreases |rs|
  {
    if |rs| == 0 then Ok(acc)
    else
      var target := W.ExpandWord(rs[0].target, st.env, subs);
      match rs[0].kind
      case StdinFrom =>
        (match ReadAt(st.root, ResolvePath(st.cwd, target))
         case Ok(bytes) => Redirects(h, st, cmdName, rs[1..], subs, acc.(stdin := Some(h.decode(bytes))))
         case Err(_) => Err(Failure(cmdName + ": " + target + ": No such file or directory", 1)))
      case StdoutTo => Redirects(h, st, cmdName, rs[1..], subs, acc.(stdoutFile := Some(target), append := false))
      case StdoutAppend => Redirects(h, st, cmdName, rs[1..], subs, acc.(stdoutFile := Some(target), append := true))
  }

  /** The command itself: a built-in, then a path (`./x` or `/x`) run as
      an executable file, then a command found on PATH. */
  function Invoke(h: Host, st: Snapshot, name: string, args: seq<string>, stdin: Option<string>): Run {
    if name in BuiltinNames then Builtin(h, st, name, args)
    else if StartsWith(name, "./") || StartsWith(name, "/") then ExecuteExecutable(h, st, ResolvePath(st.cwd, name))
    else External(h, st, name, args, stdin)
  }

  /** The output file, when there is one (an empty name counts as none),
      receives the encoded output, after the existing content when
      appending; the output itself then becomes empty. A write that fails
      is ignored. The path is resolved from the working directory as it is
      after the command. */
  function WriteOutput(h: Host, out: CommandOutput, st: Snapshot, rd: Redirection): Run {
    if rd.stdoutFile.None? || rd.stdoutFile.value == "" then Done(out, st)
    else
      var path := ResolvePath(st.cwd, rd.stdoutFile.value);
      var content := h.encode(out.stdout);
      var existing := ReadAt(st.root, path);
      var data := if rd.append && existing.Ok? then existing.value + content else content;
      Done(out.(stdout := ""), st.(root := After(WriteAt(st.root, path, data), st.root)))
  }

  /** `executeSimpleCommand` */
  function RunSimple(h: Host, st: Snapshot, cmd: SimpleCommand, subs: map<nat, string>, stdin: Option<string>): Run {
    var args := ExpandAll(cmd.args, st.env, subs);
    if |args| == 0 then Done(Success, st)
    else if args[0] == "source" || args[0] == "." then
      if |args| < 2 then Done(Failure(args[0] + ": filename argument required", 1), st)
      else ExecuteSource(h, st, args[1])
    else match ExpandAlias(args[0], st.aliases, {})
      case Circular(message) => Done(Failure(message, 1), st)
      case NotAlias => Resolved(h, st, cmd, subs, stdin, args)
      case Expanded(value) => Resolved(h, st, cmd, subs, stdin, SplitSpaces(value) + args[1..])
  }

  /** The rest of `executeSimpleCommand` once the command word is final:
      redirections, the command, then its output file. */
  function Resolved(h: Host, st: Snapshot, cmd: SimpleCommand, subs: map<nat, string>, stdin: Option<string>, words: seq<string>): Run
    requires |words| > 0
  {
    match Redirects(h, st, words[0], cmd.redirects, subs, Redirection(stdin, None, false))
    case Err(out) => Done(out, st)
    case Ok(rd) =>
      match Invoke(h, st, words[0], words, rd.stdin)
      case Hangs => Hangs
      case Throws(m, st2) => Throws(m, st2)
      case Done(out, st2) => WriteOutput(h, out, st2, rd)
  }

  // ---- Pipelines ---------------------------------------------------------------

  /** The stages of a pipeline of two or more commands, from `stdin` on:
      each stage reads the output of the one before; a failing stage that
      is not the last ends the pipeline with its output and exit code; the
      error output of every stage that ran is collected. */
  function Stages(h: Host, st: Snapshot, cmds: seq<SimpleCommand>, subs: map<nat, string>, stdin: string, stderr: string): Run
    requires |cmds| > 0
    decreases |cmds|
  {
    match RunSimple(h, st, cmds[0], subs, Some(stdin))
    case Hangs => Hangs
    case Throws(m, st2) => Throws(m, st2)
    case Done(out, st2) =>
      var errors := stderr + out.stderr;
      if |cmds| == 1 || out.exitCode != 0 then Done(CommandOutput(out.stdout, errors, out.exitCode), st2)
      else Stages(h, st2, cmds[1..], subs, out.stdout, errors)
  }

  /** `executePipeline`: a single command reads from the terminal, a
      longer pipeline starts from empty input. */
  function RunPipeline(h: Host, st: Snapshot, p: Pipeline, subs: map<nat, string>): Run {
    if |p.commands| == 0 then Done(Success, st)
    else if |p.commands| == 1 then RunSimple(h, st, p.commands[0], subs, None)
    else Stages(h, st, p.commands, subs, "", "")
  }

  /** A failing stage that is not the last ends the pipeline: the commands
      after it do not run, and the pipeline reports its output, exit code
      and the error output so far. */
  lemma StageFailureStops(h: Host, st: Snapshot, cmds: seq<SimpleCommand>, subs: map<nat, string>, stdin: string, stderr: string)
    requires |cmds| >= 2
    requires RunSimple(h, st, cmds[0], subs, Some(stdin)).Done?
    requires RunSimple(h, st, cmds[0], subs, Some(stdin)).out.exitCode != 0
    ensures var first := RunSimple(h, st, cmds[0], subs, Some(stdin));
      Stages(h, st, cmds, subs, stdin, stderr) ==
      Done(CommandOutput(first.out.stdout, stderr + first.out.stderr, first.out.exitCode), first.st)
  {
  }

  /** A stage that succeeds hands its output to the next as input. */
  lemma StageOutputFeedsNext(h: Host, st: Snapshot, cmds: seq<SimpleCommand>, subs: map<nat, string>, stdin: string, stderr: string)
    requires |cmds| >= 2
    requires RunSimple(h, st, cmds[0], subs, Some(stdin)).Done?
    requires RunSimple(h, st, cmds[0], subs, Some(stdin)).out.exitCode == 0
    ensures var first := RunSimple(h, st, cmds[0], subs, Some(stdin));
      Stages(h, st, cmds, subs, stdin, stderr) ==
      Stages(h, first.st, cmds[1..], subs, first.out.stdout, stderr + first.out.stderr)
  {
  }

  /** The error output of a pipeline starts with everything collected
      before it and ends in the error output of the stage it stopped at. */
  lemma {:induction false} StagesKeepErrors(h: Host, st: Snapshot, cmds: seq<SimpleCommand>, subs: map<nat, string>, stdin: string, stderr: string)
    requires |cmds| > 0
    ensures Stages(h, st, cmds, subs, stdin, stderr).Done? ==> stderr <= Stages(h, st, cmds, subs, stdin, stderr).out.stderr
    decreases |cmds|
  {
    match RunSimple(h, st, cmds[0], subs, Some(stdin))
    case Hangs =>
    case Throws(_, _) =>
    case Done(out, st2) =>
      if |cmds| > 1 && out.exitCode == 0 {
        StagesKeepErrors(h, st2, cmds[1..], subs, out.stdout, stderr + out.stderr);
      }
  }

  // ---- Lists of pipelines -------------------------------------------------------

  /** Whether an element is skipped: `&&` after a failure, `||` after a
      success. */
  predicate Skipped(connector: Connector, lastExitCode: int) {
    (connector == And && lastExitCode != 0) || (connector == Or && lastExitCode == 0)
  }

  /** The elements from the current exit code on: skipped elements change
      nothing; each pipeline that runs sets the exit code and appends its
      output and error output. */
  function Elements(h: Host, st: Snapshot, els: seq<ConditionalElement>, subs: map<nat, string>, last: int, stdout: string, stderr: string): Run
    decreases |els|
  {
    if |els| == 0 then Done(CommandOutput(stdout, stderr, last), st)
    else if Skipped(els[0].connector, last) then Elements(h, st, els[1..], subs, last, stdout, stderr)
    else match RunPipeline(h, st, els[0].pipeline, subs)
      case Hangs => Hangs
      case Throws(m, st2) => Throws(m, st2)
      case Done(out, st2) => Elements(h, st2, els[1..], subs, out.exitCode, stdout + out.stdout, stderr + out.stderr)
  }

  /** `a && b` where `a` fails: `b` does not run and the list reports `a`. */
  lemma AndAfterFailure(h: Host, st: Snapshot, a: Pipeline, b: Pipeline, subs: map<nat, string>)
    requires RunPipeline(h, st, a, subs).Done? && RunPipeline(h, st, a, subs).out.exitCode != 0
    ensures Elements(h, st, [ConditionalElement(NoConnector, a), ConditionalElement(And, b)], subs, 0, "", "") ==
      Done(RunPipeline(h, st, a, subs).out, RunPipeline(h, st, a, subs).st)
  {
    var els := [ConditionalElement(NoConnector, a), ConditionalElement(And, b)];
    var r := RunPipeline(h, st, a, subs);
    assert "" + r.out.stdout == r.out.stdout && "" + r.out.stderr == r.out.stderr;
    assert els[1..] == [ConditionalElement(And, b)] && els[1..][1..] == [];
    assert Elements(h, r.st, els[1..], subs, r.out.exitCode, r.out.stdout, r.out.stderr) == Done(r.out, r.st);
  }

  /** `a || b` where `a` succeeds: `b` does not run and the list reports `a`. */
  lemma OrAfterSuccess(h: Host, st: Snapshot, a: Pipeline, b: Pipeline, subs: map<nat, string>)
    requires RunPipeline(h, st, a, subs).Done? && RunPipeline(h, st, a, subs).out.exitCode == 0
    ensures Elements(h, st, [ConditionalElement(NoConnector, a), ConditionalElement(Or, b)], subs, 0, "", "") ==
      Done(RunPipeline(h, st, a, subs).out, RunPipeline(h, st, a, subs).st)
  {
    var els := [ConditionalElement(NoConnector, a), ConditionalElement(Or, b)];
    var r := RunPipeline(h, st, a, subs);
    assert "" + r.out.stdout == r.out.stdout && "" + r.out.stderr == r.out.stderr;
    assert els[1..] == [ConditionalElement(Or, b)] && els[1..][1..] == [];
    assert Elements(h, r.st, els[1..], subs, r.out.exitCode, r.out.stdout, r.out.stderr) == Done(r.out, r.st);
  }

  /** A run of skipped elements leaves state, output and exit code as they
      were, so the exit code of a list is that of the last pipeline that
      ran. */
  lemma {:induction false} SkippedChangeNothing(h: Host, st: Snapshot, els: seq<ConditionalElement>, rest: seq<ConditionalElement>, subs: map<nat, string>, last: int, stdout: string, stderr: string)
    requires forall k :: 0 <= k < |els| ==> Skipped(els[k].connector, last)
    ensures Elements(h, st, els + rest, subs, last, stdout, stderr) == Elements(h, st, rest, subs, last, stdout, stderr)
    decreases |els|
  {
    if |els| == 0 {
      assert els + rest == rest;
    } else {
      assert (els + rest)[0] == els[0] && (els + rest)[1..] == els[1..] + rest;
      SkippedChangeNothing(h, st, els[1..], rest, subs, last, stdout, stderr);
    }
  }

  /** The output and error output of a list extend what was collected
      before, in the order the pipelines ran. */
  lemma {:induction false} ElementsAccumulate(h: Host, st: Snapshot, els: seq<ConditionalElement>, subs: map<nat, string>, last: int, stdout: string, stderr: string)
    ensures var r := Elements(h, st, els, subs, last, stdout, stderr);
      r.Done? ==> stdout <= r.out.stdout && stderr <= r.out.stderr
    decreases |els|
  {
    if |els| > 0 {
      if Skipped(els[0].connector, last) {
        ElementsAccumulate(h, st, els[1..], subs, last, stdout, stderr);
      } else {
        match RunPipeline(h, st, els[0].pipeline, subs)
        case Hangs =>
        case Throws(_, _) =>
        case Done(out, st2) =>
          ElementsAccumulate(h, st2, els[1..], subs, out.exitCode, stdout + out.stdout, stderr + out.stderr);
      }
    }
  }

  /** A pipeline that throws ends the list: the elements after it do not
      run, and the exception leaves with the state it was thrown in. */
  lemma ThrowEndsList(h: Host, st: Snapshot, c: Connector, p: Pipeline, rest: seq<ConditionalElement>, subs: map<nat, string>, last: int, stdout: string, stderr: string)
    requires !Skipped(c, last) && RunPipeline(h, st, p, subs).Throws?
    ensures Elements(h, st, [ConditionalElement(c, p)] + rest, subs, last, stdout, stderr) == RunPipeline(h, st, p, subs)
  {
    assert ([ConditionalElement(c, p)] + rest)[0] == ConditionalElement(c, p);
  }

  // ---- Command substitutions and whole inputs ------------------------------------

  /** `executeInput` for a nested input: trimmed, an empty input does
      nothing, a parse error is reported, otherwise the parse result runs
      (through the host, as the dispatcher entered again). */
  function RunNested(h: Host, st: Snapshot, input: string): Run {
    var trimmed := Trim(input);
    if trimmed == "" then Done(Success, st)
    else match h.parse(trimmed)
      case Err(e) => Done(Failure("parse error: " + e.message, 1), st)
      case Ok(pr) => h.nested(pr, st)
  }

  /** Every substitution in order, its output with trailing white space
      removed stored under its id; Err with the run of the first one that
      throws or never returns, which ends the whole input. */
  function Substitutions(h: Host, st: Snapshot, subs: seq<CommandSubstitution>, acc: map<nat, string>): Result<(map<nat, string>, Snapshot), Run>
    decreases |subs|
  {
    if |subs| == 0 then Ok((acc, st))
    else match RunNested(h, st, subs[0].input)
      case Hangs => Err(Hangs)
      case Throws(m, st2) => Err(Throws(m, st2))
      case Done(out, st2) => Substitutions(h, st2, subs[1..], acc[subs[0].id := TrimEnd(out.stdout)])
  }

  /** The stored outputs never end in white space, and every id of the
      parse result has one. */
  lemma {:induction false} SubstitutionsTrimmed(h: Host, st: Snapshot, subs: seq<CommandSubstitution>, acc: map<nat, string>)
    requires forall id :: id in acc ==> acc[id] == "" || !IsSpace(acc[id][|acc[id]| - 1])
    ensures var r := Substitutions(h, st, subs, acc);
      r.Ok? ==>
        (forall id :: id in r.value.0 ==> r.value.0[id] == "" || !IsSpace(r.value.0[id][|r.value.0[id]| - 1])) &&
        (forall k :: 0 <= k < |subs| ==> subs[k].id in r.value.0) &&
        (forall id :: id in acc ==> id in r.value.0)
    decreases |subs|
  {
    if |subs| > 0 {
      match RunNested(h, st, subs[0].input)
      case Hangs =>
      case Throws(_, _) =>
      case Done(out, st2) =>
        var acc' := acc[subs[0].id := TrimEnd(out.stdout)];
        TrimEndDrops(out.stdout);
        SubstitutionsTrimmed(h, st2, subs[1..], acc');
        forall k | 1 <= k < |subs| ensures subs[k] == subs[1..][k - 1] { }
    }
  }

  /** `executeParseResult`: the substitutions first, then the list. */
  function ExecuteParseResult(h: Host, st: Snapshot, pr: ParseResult): Run {
    match Substitutions(h, st, pr.substitutions, map[])
    case Err(stopped) => stopped
    case Ok((subs, st1)) => Elements(h, st1, pr.elements, subs, 0, "", "")
  }

  /** `executeInput` */
  function ExecuteInput(h: Host, st: Snapshot, input: string): Run {
    var trimmed := Trim(input);
    if trimmed == "" then Done(Success, st)
    else match h.parse(trimmed)
      case Err(e) => Done(Failure("parse error: " + e.message, 1), st)
      case Ok(pr) => ExecuteParseResult(h, st, pr)
  }

  /** An input line that reads `mv d d`, for an empty directory `d` of the
      working directory and no alias named `mv`, throws the stack-overflow
      exception out of `executeInput`, with the state `mv` left behind. */
  lemma MvIntoItselfInput(h: Host, st: Snapshot, input: string, name: string)
    requires Trim(input) != "" && h.parse(Trim(input)) == Ok(SingleResult(Command(["mv", name, name])))
    requires !Has(st.aliases, "mv")
    requires V.Canonical([name]) && !StartsWith(name, "-") && !StartsWith(name, "/") && !StartsWith(name, "~")
    requires ListAt(st.root, ResolvePath(st.cwd, name)) == Ok([])
    ensures var r := ExecuteInput(h, st, input);
      r == Mv(h, st, ["mv", name, name]) && r.Throws? && r.message == StackOverflow
  {
    assert name[0] != '~' by { assert [name][0] == name; }
    hide *;
    var cmd := Command(["mv", name, name]);
    MvDirectoryIntoItself(h, st, name);
    MvCommand(h, st, [name, name]);
    assert ["mv"] + [name, name] == ["mv", name, name];
    OneCommandThrows(h, st, input, cmd);
  }

  /** An input line of one command that throws throws out of
      `executeInput`: there are no substitutions before it and nothing
      runs after it. */
  lemma OneCommandThrows(h: Host, st: Snapshot, input: string, cmd: SimpleCommand)
    requires Trim(input) != "" && h.parse(Trim(input)) == Ok(SingleResult(cmd))
    requires RunSimple(h, st, cmd, map[], None).Throws?
    ensures ExecuteInput(h, st, input) == RunSimple(h, st, cmd, map[], None)
  {
    hide RunSimple;
    ThrowEndsList(h, st, NoConnector, SinglePipeline(cmd), [], map[], 0, "", "");
    assert [ConditionalElement(NoConnector, SinglePipeline(cmd))] + [] == SingleResult(cmd).elements;
  }

  /** A command line of plain words starting with `mv`, with no alias named
      `mv` and no redirection, is the built-in `mv` on those words. */
  lemma MvCommand(h: Host, st: Snapshot, operands: seq<string>)
    requires !Has(st.aliases, "mv")
    requires forall k :: 0 <= k < |operands| ==> |operands[k]| == 0 || operands[k][0] != '~'
    ensures RunSimple(h, st, Command(["mv"] + operands), map[], None) == Mv(h, st, ["mv"] + operands)
  {
    var words := ["mv"] + operands;
    PlainWords(words, st.env, map[]);
    ResolvedBuiltin(h, st, Command(words), words);
    BuiltinMv(h, st, words);
    UnknownAlias("mv", st.aliases);
    hide Mv, Builtin, Resolved, ExpandAll, ExecuteSource, ExpandAlias, Command;
    assert words[0] == "mv";
  }

  /** A name that is no alias is left as it is. */
  lemma UnknownAlias(name: string, aliases: Entries<string, string>)
    requires !Has(aliases, name)
    ensures ExpandAlias(name, aliases, {}) == NotAlias
  {
  }

  /** The built-in named `mv` is `mv`. */
  lemma BuiltinMv(h: Host, st: Snapshot, args: seq<string>)
    ensures Builtin(h, st, "mv", args) == Mv(h, st, args)
  {
    hide Mv, Cd, Export, Mkdir, Touch, Rm, Alias, Unalias, Sh;
  }

  /** A built-in without redirections: its run is the command's own. */
  lemma ResolvedBuiltin(h: Host, st: Snapshot, cmd: SimpleCommand, words: seq<string>)
    requires cmd.redirects == [] && |words| > 0 && words[0] in BuiltinNames
    ensures Resolved(h, st, cmd, map[], None, words) == Builtin(h, st, words[0], words)
  {
    hide Builtin;
  }

  // ---- The shell ----------------------------------------------------------------------

  const ShellrcPath := "/home/uzimaru0000/.shellrc"

  /** The state `createShell` starts from. */
  function InitialState(root: V.Node): Snapshot {
    Snapshot(Home, [("USER", "uzimaru0000"), ("HOME", Home), ("PATH", "/bin")], [], root)
  }

  /** `initialize`: source `~/.shellrc` when it exists. */
  function Initialize(h: Host, st: Snapshot): Run {
    if Exists(st.root, ShellrcPath) then ExecuteSource(h, st, ShellrcPath) else Done(Success, st)
  }

  // ---- Resolution order --------------------------------------------------------------

  /** A single command word with no redirections. */
  function Command(words: seq<string>): SimpleCommand {
    SimpleCommand(seq(|words|, k requires 0 <= k < |words| => LiteralWord(words[k])), [])
  }

  /** Plain words expand to themselves. */
  lemma PlainWords(words: seq<string>, env: Entries<string, string>, subs: map<nat, string>)
    requires forall k :: 0 <= k < |words| ==> |words[k]| == 0 || words[k][0] != '~'
    ensures ExpandAll(Command(words).args, env, subs) == words
  {
    var args := Command(words).args;
    forall k | 0 <= k < |words|
      ensures W.ExpandWord(args[k], env, subs) == words[k]
    {
      assert args[k] == LiteralWord(words[k]);
      assert args[k].segments[1..] == [];
    }
  }

  /** `source` is recognised before aliases: an alias named `source`
      does not change what `source FILE` does. */
  lemma SourceBeforeAlias(h: Host, st: Snapshot, file: string, subs: map<nat, string>, stdin: Option<string>)
    requires |file| == 0 || file[0] != '~'
    ensures RunSimple(h, st, Command(["source", file]), subs, stdin) == ExecuteSource(h, st, file)
  {
    PlainWords(["source", file], st.env, subs);
  }

  /** A built-in wins over a command of the same name on PATH. */
  lemma BuiltinBeforePath(h: Host, st: Snapshot, name: string, args: seq<string>, stdin: Option<string>)
    requires name in BuiltinNames
    ensures Invoke(h, st, name, args, stdin) == Builtin(h, st, name, args)
  {
  }

  /** A path naming a file whose interpreter is neither absent nor `sh`
      fails with 126 without running anything. */
  lemma UnsupportedInterpreter(h: Host, st: Snapshot, path: string, bytes: Bytes)
    requires ReadAt(st.root, path) == Ok(bytes)
    requires !RunsAsScript(DetectShebang(h.decode(bytes)))
    ensures ExecuteExecutable(h, st, path) ==
      Done(Failure(path + ": unsupported interpreter: " + DetectShebang(h.decode(bytes)).value, 126), st)
  {
  }

  /** A WebAssembly binary on PATH wins over a script of the same name, and
      runs interactively when nothing is piped in. */
  lemma WasmBeforeScript(h: Host, st: Snapshot, cmd: string, args: seq<string>, stdin: Option<string>, k: nat)
    requires k < |PathDirs(st.env)|
    requires ReadAt(st.root, PathDirs(st.env)[k] + "/" + cmd + ".wasm").Ok?
    requires forall j :: 0 <= j < k ==> ReadAt(st.root, PathDirs(st.env)[j] + "/" + cmd + ".wasm").Err?
    ensures External(h, st, cmd, args, stdin) ==
      Done(h.wasm(ReadAt(st.root, PathDirs(st.env)[k] + "/" + cmd + ".wasm").value, cmd, CommandInput(args, st.env, st.cwd, stdin), stdin.None?), st)
  {
    var dirs := PathDirs(st.env);
    forall j | 0 <= j <= k ensures dirs[j] + "/" + (cmd + ".wasm") == dirs[j] + "/" + cmd + ".wasm" { }
    SearchPathFirst(st.root, dirs, cmd + ".wasm", k);
  }

  /** Nothing on PATH: "command not found" with 127. */
  lemma CommandNotFound(h: Host, st: Snapshot, cmd: string, args: seq<string>, stdin: Option<string>)
    requires forall j :: 0 <= j < |PathDirs(st.env)| ==> ReadAt(st.root, PathDirs(st.env)[j] + "/" + cmd + ".wasm").Err?
    requires forall j :: 0 <= j < |PathDirs(st.env)| ==> ReadAt(st.root, PathDirs(st.env)[j] + "/" + cmd + ".sh").Err?
    ensures External(h, st, cmd, args, stdin) == Done(Failure(cmd + ": command not found", 127), st)
  {
    hide SearchPath, PathDirs, ExecuteScript, ReadAt;
    SearchPathMisses(st.root, PathDirs(st.env), cmd, ".wasm");
    SearchPathMisses(st.root, PathDirs(st.env), cmd, ".sh");
  }

  /** No directory of the search path holds `cmd + ext`. */
  lemma SearchPathMisses(root: V.Node, dirs: seq<string>, cmd: string, ext: string)
    requires forall j :: 0 <= j < |dirs| ==> ReadAt(root, dirs[j] + "/" + cmd + ext).Err?
    ensures SearchPath(root, dirs, cmd + ext).None?
  {
    hide ReadAt;
    forall j | 0 <= j < |dirs| ensures dirs[j] + "/" + (cmd + ext) == dirs[j] + "/" + cmd + ext { }
  }

  // ---- Redirections ------------------------------------------------------------------

  /** The last output redirection wins, and input redirections do not touch
      the output file. */
  lemma {:induction false} LastRedirectWins(h: Host, st: Snapshot, cmdName: string, rs: seq<Redirect>, subs: map<nat, string>, acc: Redirection)
    requires Redirects(h, st, cmdName, rs, subs, acc).Ok?
    ensures var rd := Redirects(h, st, cmdName, rs, subs, acc).value;
      (forall k :: 0 <= k < |rs| ==> rs[k].kind == StdinFrom) ==> rd.stdoutFile == acc.stdoutFile && rd.append == acc.append
    ensures var rd := Redirects(h, st, cmdName, rs, subs, acc).value;
      forall k :: 0 <= k < |rs| && rs[k].kind != StdinFrom && (forall j :: k < j < |rs| ==> rs[j].kind == StdinFrom) ==>
        rd.stdoutFile == Some(W.ExpandWord(rs[k].target, st.env, subs)) && rd.append == (rs[k].kind == StdoutAppend)
    decreases |rs|
  {
    if |rs| > 0 {
      hide *;
      var next := RedirectsStep(h, st, cmdName, rs, subs, acc);
      var rest := rs[1..];
      LastRedirectWins(h, st, cmdName, rest, subs, next);
      var rd := Redirects(h, st, cmdName, rs, subs, acc).value;
      forall k | 0 <= k < |rs| && rs[k].kind != StdinFrom && (forall j :: k < j < |rs| ==> rs[j].kind == StdinFrom)
        ensures rd.stdoutFile == Some(W.ExpandWord(rs[k].target, st.env, subs)) && rd.append == (rs[k].kind == StdoutAppend)
      {
        forall j | k <= j < |rest| ensures rest[j] == rs[j + 1] { }
        if k > 0 {
          assert rest[k - 1] == rs[k];
        }
      }
      forall j | 0 <= j < |rest| ensures rest[j] == rs[j + 1] { }
    }
  }

  /** One redirection that succeeds: what it does to the output file. */
  lemma RedirectsStep(h: Host, st: Snapshot, cmdName: string, rs: seq<Redirect>, subs: map<nat, string>, acc: Redirection)
    returns (next: Redirection)
    requires |rs| > 0 && Redirects(h, st, cmdName, rs, subs, acc).Ok?
    ensures Redirects(h, st, cmdName, rs, subs, acc) == Redirects(h, st, cmdName, rs[1..], subs, next)
    ensures rs[0].kind == StdinFrom ==> next.stdoutFile == acc.stdoutFile && next.append == acc.append
    ensures rs[0].kind != StdinFrom ==>
      next.stdoutFile == Some(W.ExpandWord(rs[0].target, st.env, subs)) && next.append == (rs[0].kind == StdoutAppend)
  {
    var target := W.ExpandWord(rs[0].target, st.env, subs);
    next := match rs[0].kind
      case StdinFrom => acc.(stdin := Some(h.decode(ReadAt(st.root, ResolvePath(st.cwd, target)).value)))
      case StdoutTo => acc.(stdoutFile := Some(target), append := false)
      case StdoutAppend => acc.(stdoutFile := Some(target), append := true);
  }

  /** A `<` redirection from a file that cannot be read ends the command
      with exit code 1 before it runs: the state is unchanged. */
  lemma UnreadableInput(h: Host, st: Snapshot, cmdName: string, target: ParsedWord, rest: seq<Redirect>, subs: map<nat, string>, acc: Redirection)
    requires ReadAt(st.root, ResolvePath(st.cwd, W.ExpandWord(target, st.env, subs))).Err?
    ensures Redirects(h, st, cmdName, [Redirect(StdinFrom, target)] + rest, subs, acc) ==
      Err(Failure(cmdName + ": " + W.ExpandWord(target, st.env, subs) + ": No such file or directory", 1))
  {
    assert ([Redirect(StdinFrom, target)] + rest)[0] == Redirect(StdinFrom, target);
  }

  /** `>` leaves exactly the command's encoded output in the file (when
      the file can be written) and an empty output. */
  lemma OverwriteRedirect(h: Host, out: CommandOutput, st: Snapshot, file: string, stdin: Option<string>)
    requires file != ""
    requires WriteAt(st.root, ResolvePath(st.cwd, file), h.encode(out.stdout)).Ok?
    ensures var r := WriteOutput(h, out, st, Redirection(stdin, Some(file), false));
      r.Done? && r.out == out.(stdout := "") &&
      ReadAt(r.st.root, ResolvePath(st.cwd, file)) == Ok(h.encode(out.stdout))
  {
    V.ReadAfterWrite(st.root, V.Normalized(ResolvePath(st.cwd, file)), h.encode(out.stdout));
  }

  /** `>>` to an existing file leaves the old content followed by the
      command's encoded output. */
  lemma AppendRedirect(h: Host, out: CommandOutput, st: Snapshot, file: string, stdin: Option<string>)
    requires IsTree(st.root)
    requires file != ""
    requires ReadAt(st.root, ResolvePath(st.cwd, file)).Ok?
    ensures var old_ := ReadAt(st.root, ResolvePath(st.cwd, file)).value;
      var r := WriteOutput(h, out, st, Redirection(stdin, Some(file), true));
      r.Done? && r.out == out.(stdout := "") &&
      ReadAt(r.st.root, ResolvePath(st.cwd, file)) == Ok(old_ + h.encode(out.stdout))
  {
    var path := ResolvePath(st.cwd, file);
    var parts := V.Normalized(path);
    var data := ReadAt(st.root, path).value + h.encode(out.stdout);
    V.ReadAndListErrors(st.root, parts);
    V.WriteFileOverFile(st.root, parts, data);
    V.ReadAfterWrite(st.root, parts, data);
  }
}
