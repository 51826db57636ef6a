/** The `cat` command: prints the named files in order, or its standard
    input when no file is named. */
module CatCommand {
  import opened Wrappers
  import opened CommandCore

  /** The line printed when standard input is empty. */
  const EmptyStdinNotice := "(stdin is empty - interactive input not yet supported)\n"

  /** One file argument: printed whole when it can be read as text, the end
      of the command otherwise. Arguments are never read as options. */
  function CatStep<F>(calls: FsCalls<F>, cwd: string, fs: F, arg: string): (r: StepResult<F>)
    ensures r.fs == fs
  {
    var path := Resolve(cwd, arg);
    match calls.readToString(fs, path)
    case Ok(content) => Next(fs, content)
    case Err(e) => Halt(fs, "cat: " + path + ": " + e + "\n")
  }

  /** Standard input, read to its end. */
  function CatStdin<F>(fs: F, stdin: Result<string, string>): (r: Outcome<F>)
    ensures r.fs == fs
    ensures stdin.Ok? && stdin.value != "" ==> r == Outcome(stdin.value, "", 0, fs)
    ensures stdin == Ok("") ==> r == Outcome(EmptyStdinNotice, "", 0, fs)
    ensures stdin.Err? ==> r == Outcome("", "cat: stdin: " + stdin.error + "\n", 1, fs)
  {
    match stdin
    case Ok(buffer) => if buffer != "" then Outcome(buffer, "", 0, fs) else Outcome(EmptyStdinNotice, "", 0, fs)
    case Err(e) => Outcome("", "cat: stdin: " + e + "\n", 1, fs)
  }

  /** `cat`: files when there is at least one argument after the command
      name, standard input otherwise. It never changes the filesystem. */
  function Cat<F>(calls: FsCalls<F>, args: seq<string>, cwd: string, fs: F, stdin: Result<string, string>): (r: Outcome<F>)
    ensures r.fs == fs
  {
    if |args| > 1 then
      CatFilesKeepFs(calls, cwd, fs, args[1..]);
      Each((g, arg) => CatStep(calls, cwd, g, arg), fs, args[1..])
    else CatStdin(fs, stdin)
  }

  lemma {:induction false} CatFilesKeepFs<F>(calls: FsCalls<F>, cwd: string, fs: F, args: seq<string>)
    ensures Each((g, arg) => CatStep(calls, cwd, g, arg), fs, args).fs == fs
    decreases |args|
  {
    if |args| > 0 {
      CatFilesKeepFs(calls, cwd, fs, args[1..]);
    }
  }

  /** `Cat::run`. */
  method RunCat<F>(calls: FsCalls<F>, args: seq<string>, cwd: string, fs: F, stdin: Result<string, string>) returns (out: Outcome<F>)
    ensures out == Cat(calls, args, cwd, fs, stdin)
  {
    if |args| > 1 {
      out := RunEach((g, arg) => CatStep(calls, cwd, g, arg), fs, args[1..]);
    } else {
      match stdin {
        case Ok(buffer) =>
          if buffer != "" {
            out := Outcome(buffer, "", 0, fs);
          } else {
            out := Outcome(EmptyStdinNotice, "", 0, fs);
          }
        case Err(e) =>
          out := Outcome("", "cat: stdin: " + e + "\n", 1, fs);
      }
    }
  }

  /** Readable files are printed verbatim, one after another, in argument
      order. */
  lemma CatTwoFiles<F>(calls: FsCalls<F>, cwd: string, fs: F, a: string, b: string, ca: string, cb: string)
    requires calls.readToString(fs, Resolve(cwd, a)) == Ok(ca)
    requires calls.readToString(fs, Resolve(cwd, b)) == Ok(cb)
    ensures Cat(calls, ["cat", a, b], cwd, fs, Err("unused")) == Outcome(ca + cb, "", 0, fs)
  {
    var step := (g, arg) => CatStep(calls, cwd, g, arg);
    assert ["cat", a, b][1..] == [a] + [b];
    EachAppend(step, fs, [a], [b]);
    EachOne(step, fs, a);
    EachOne(step, fs, b);
  }

  /** The first unreadable file ends the command with its error: the files
      before it have been printed, the ones after it are not read. */
  lemma CatStopsAtUnreadable<F>(calls: FsCalls<F>, args: seq<string>, cwd: string, fs: F, stdin: Result<string, string>, k: nat)
    requires 1 <= k < |args|
    requires forall j :: 1 <= j < k ==> calls.readToString(fs, Resolve(cwd, args[j])).Ok?
    requires calls.readToString(fs, Resolve(cwd, args[k])).Err?
    ensures var r := Cat(calls, args, cwd, fs, stdin);
      r.exit == 1 && r.stderr == "cat: " + Resolve(cwd, args[k]) + ": " + calls.readToString(fs, Resolve(cwd, args[k])).error + "\n" &&
      r.stdout == Each((g, arg) => CatStep(calls, cwd, g, arg), fs, args[1..k]).stdout
  {
    hide Each;
    var step := (g, arg) => CatStep(calls, cwd, g, arg);
    var files := args[1..];
    assert files[..k - 1] == args[1..k];
    assert forall j :: 0 <= j < k - 1 ==> args[1..k][j] == args[j + 1];
    assert files[k - 1] == args[k];
    CatAllRead(calls, cwd, fs, args[1..k]);
    CatFilesKeepFs(calls, cwd, fs, args[1..k]);
    EachStopsAtFirstHalt(step, fs, files, k - 1);
  }

  /** Files that can all be read give exit code 0 and nothing on stderr. */
  lemma {:induction false} CatAllRead<F>(calls: FsCalls<F>, cwd: string, fs: F, files: seq<string>)
    requires forall j :: 0 <= j < |files| ==> calls.readToString(fs, Resolve(cwd, files[j])).Ok?
    ensures Each((g, arg) => CatStep(calls, cwd, g, arg), fs, files).exit == 0
    decreases |files|
  {
    if |files| > 0 {
      CatAllRead(calls, cwd, fs, files[1..]);
    }
  }

  /** Standard input is read only when no file is named: piped text is
      echoed as it is, and empty input prints the notice. */
  lemma CatReadsStdin<F>(calls: FsCalls<F>, name: string, cwd: string, fs: F, text: string)
    ensures text != "" ==> Cat(calls, [name], cwd, fs, Ok(text)) == Outcome(text, "", 0, fs)
    ensures Cat(calls, [name], cwd, fs, Ok("")) == Outcome(EmptyStdinNotice, "", 0, fs)
    ensures Cat(calls, [], cwd, fs, Ok(text)).exit == 0
  {
  }
}
