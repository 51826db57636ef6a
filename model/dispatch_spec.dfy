/** What the command dispatcher (src/shell/dispatcher.ts) does, as functions
    of the shell state: path resolution, alias expansion, shebang
    detection, the built-in commands, redirections, pipelines and the
    `&&`/`||` lists. The imperative dispatcher in module Dispatcher is
    proved to follow these functions step by step.

    The shell state is the working directory, the environment and the
    aliases (both JavaScript `Map`s, kept in insertion order) and the tree
    of the in-memory filesystem. Parsing, WebAssembly commands, byte
    decoding and encoding, and the nested run of a parsed script are
    supplied by the host. */
module DispatchSpec {
  import opened Wrappers
  import opened Text
  import opened OrderedMap
  import opened ShellAst
  import opened ShellTypes
  import V = VirtualFs
  import W = WordExpansion

  datatype Snapshot = Snapshot(cwd: string, env: Entries<string, string>, aliases: Entries<string, string>, root: V.Node)

  /** What running something yields: its output and the state after it;
      an exception that ends the run, with its message and the state it
      leaves (the session and filesystem objects keep what was done before
      the throw); or Hangs when it never returns. */
  datatype Run = Done(out: CommandOutput, st: Snapshot) | Throws(message: string, st: Snapshot) | Hangs

  /** The message of the `RangeError` JavaScript engines throw when
      synchronous recursion runs out of call stack. */
  const StackOverflow := "Maximum call stack size exceeded"

  /** The parts of the shell's surroundings the dispatcher calls into:
      the Rust parser (reached through WebAssembly), the run of a parsed
      script or command substitution (which is the dispatcher itself,
      entered again), WebAssembly command execution, `TextDecoder` and
      `TextEncoder`, and the JavaScript engine's recursion limit: how
      deeply the synchronous `moveDirectory` may nest before the call stack
      overflows and a `RangeError` is thrown. */
  datatype Host = Host(
    parse: string -> Result<ParseResult, ParseError>,
    nested: (ParseResult, Snapshot) -> Run,
    wasm: (Bytes, string, CommandInput, bool) -> CommandOutput,
    decode: Bytes -> string,
    encode: string -> Bytes,
    moveDepth: nat)

  /** A filesystem tree as the filesystem object keeps it. */
  ghost predicate IsTree(n: V.Node) {
    n.kind == V.Directory && V.WellFormed(n)
  }

  /** A nested run, whether it returns or throws, leaves a filesystem tree
      behind. */
  ghost predicate Sound(h: Host) {
    forall p: ParseResult, s: Snapshot :: IsTree(s.root) && !h.nested(p, s).Hangs? ==> IsTree(h.nested(p, s).st.root)
  }

  const Success := CommandOutput("", "", 0)

  function Failure(message: string, code: int): CommandOutput {
    CommandOutput("", message, code)
  }

  /** `s.startsWith(p)` */
  predicate StartsWith(s: string, p: string) {
    p <= s
  }

  // ---- Paths ---------------------------------------------------------------

  /** `normalizePath`: the components `VirtualFs.Normalized` keeps, written
      out after a leading slash. */
  function NormalizePath(path: string): (r: string)
    ensures |r| > 0 && r[0] == '/'
  {
    "/" + Join(V.Normalized(path), "/")
  }

  /** `resolvePath`: an absolute target is normalised alone, a relative
      one after the working directory. */
  function ResolvePath(cwd: string, target: string): string {
    if StartsWith(target, "/") then NormalizePath(target) else NormalizePath(cwd + "/" + target)
  }

  /** A normalised path has canonical components (no empty, `.` or `..`
      component), names the same node as the path it came from, and is
      left alone by normalising it again. */
  lemma NormalizePathCanonical(path: string)
    ensures V.Canonical(V.Normalized(path))
    ensures V.Normalized(NormalizePath(path)) == V.Normalized(path)
    ensures NormalizePath(NormalizePath(path)) == NormalizePath(path)
  {
    V.NormalizedCanonical(path);
    V.NormalizeJoined(V.Normalized(path));
  }

  /** A relative target is applied to the components of the working
      directory, one `..` popping one of them; an absolute target does
      not depend on the working directory. */
  lemma ResolveRelative(cwd: string, target: string)
    ensures StartsWith(target, "/") ==> V.Normalized(ResolvePath(cwd, target)) == V.Normalized(target)
    ensures !StartsWith(target, "/") ==>
      V.Normalized(ResolvePath(cwd, target)) == V.Fold(V.Normalized(cwd), V.Segments(Split(target, '/')))
  {
    if StartsWith(target, "/") {
      NormalizePathCanonical(target);
    } else {
      var p := cwd + "/" + target;
      NormalizePathCanonical(p);
      SplitAppend(cwd, target, '/');
      assert p == cwd + ['/'] + target;
      V.SegmentsAppend(Split(cwd, '/'), Split(target, '/'));
      V.FoldAppend([], V.Segments(Split(cwd, '/')), V.Segments(Split(target, '/')));
    }
  }

  /** `cd ..` at the root stays at the root. */
  lemma DotDotAtRootStays()
    ensures ResolvePath("/", "..") == "/"
  {
    assert !StartsWith("..", "/");
    assert "/" + "/" + ".." == ['/'] + ['/'] + "..";
    SplitAppend("/", "..", '/');
    SplitAppend("", "", '/');
    assert "/" == "" + ['/'] + "";
    SplitWithoutSeparator("..", '/');
    assert Split("/" + "/" + "..", '/') == ["", "", ".."];
    assert V.Segments(["", "", ".."]) == [".."];
    assert V.Normalized("/" + "/" + "..") == [];
  }

  /** Appending a plain name to a path appends it to the components. */
  lemma NormalizedChild(path: string, name: string)
    requires V.Canonical([name])
    ensures V.Normalized(path + "/" + name) == V.Normalized(path) + [name]
  {
    SplitAppend(path, name, '/');
    assert path + "/" + name == path + ['/'] + name;
    assert [name][0] == name;
    SplitWithoutSeparator(name, '/');
    V.SegmentsAppend(Split(path, '/'), [name]);
    assert V.Segments([name]) == [name] by {
      assert [name][1..] == [];
    }
    V.FoldAppend([], V.Segments(Split(path, '/')), [name]);
    assert [name][1..] == [];
  }

  // ---- Filesystem operations on path strings -------------------------------

  function Exists(root: V.Node, path: string): bool {
    V.Lookup(root, V.Normalized(path)).Some?
  }

  function StatAt(root: V.Node, path: string): Result<V.FileStat, V.FsError> {
    V.StatOf(root, V.Normalized(path))
  }

  predicate IsDirAt(root: V.Node, path: string) {
    StatAt(root, path).Ok? && StatAt(root, path).value.isDir
  }

  function ReadAt(root: V.Node, path: string): Result<Bytes, V.FsError> {
    V.ReadFileOf(root, V.Normalized(path))
  }

  function ListAt(root: V.Node, path: string): Result<seq<V.FileEntry>, V.FsError> {
    V.ListDirOf(root, V.Normalized(path))
  }

  function WriteAt(root: V.Node, path: string, data: Bytes): Result<V.Node, V.FsError> {
    V.WriteFileTree(root, V.Normalized(path), data)
  }

  function MkdirAt(root: V.Node, path: string): Result<V.Node, V.FsError> {
    V.MkdirTree(root, V.Normalized(path))
  }

  function RemoveAt(root: V.Node, path: string): Result<V.Node, V.FsError> {
    V.RemoveTree(root, V.Normalized(path))
  }

  /** The tree after an operation whose failure leaves it unchanged. */
  function After(r: Result<V.Node, V.FsError>, root: V.Node): V.Node {
    if r.Ok? then r.value else root
  }

  // ---- Alias expansion ---------------------------------------------------------

  datatype AliasResult = NotAlias | Expanded(value: string) | Circular(message: string)

  const CircularPrefix := "alias: circular reference detected: "

  /** `expansion.split(/\s+/)[0]` */
  function FirstWord(s: string): (w: string)
    ensures w <= s
    ensures forall i :: 0 <= i < |w| ==> !IsSpace(w[i])
  {
    SplitSpacesFirst(s);
    SplitSpacesPiecesHaveNoSpace(s);
    assert forall i :: 0 <= i < |SplitSpaces(s)[0]| ==> !IsSpace(SplitSpaces(s)[0][i]);
    SplitSpaces(s)[0]
  }

  function AliasNames(aliases: Entries<string, string>): set<string> {
    set e | e in aliases :: e.0
  }

  /** `expandAlias`: the value of the alias, with its first word expanded
      again when that word is another alias; a name met twice on the way
      is a circular reference. */
  function ExpandAlias(name: string, aliases: Entries<string, string>, seen: set<string>): AliasResult
    decreases |AliasNames(aliases) - seen|
  {
    if !Has(aliases, name) then NotAlias
    else if name in seen then Circular(CircularPrefix + name)
    else
      var expansion := Get(aliases, name).value;
      var first := FirstWord(expansion);
      if Has(aliases, first) && first != name then
        AliasProgress(name, aliases, seen);
        match ExpandAlias(first, aliases, seen + {name})
        case Circular(m) => Circular(m)
        case Expanded(v) => Expanded(v + expansion[|first|..])
        case NotAlias => Expanded(expansion)
      else Expanded(expansion)
  }

  /** Each nested expansion adds one more alias name to those seen. */
  lemma AliasProgress(name: string, aliases: Entries<string, string>, seen: set<string>)
    requires Has(aliases, name) && name !in seen
    ensures |AliasNames(aliases) - (seen + {name})| < |AliasNames(aliases) - seen|
  {
    var i :| 0 <= i < |aliases| && aliases[i].0 == name;
    assert aliases[i] in aliases;
    var a := AliasNames(aliases) - seen;
    assert name in a;
    assert AliasNames(aliases) - (seen + {name}) == a - {name};
    assert a == (a - {name}) + {name};
  }

  /** Only the first word is replaced: whatever the nesting, an expanded
      alias ends with everything its own value has after its first word. */
  lemma {:induction false} AliasKeepsRest(name: string, aliases: Entries<string, string>, seen: set<string>)
    requires ExpandAlias(name, aliases, seen).Expanded?
    ensures var expansion := Get(aliases, name).value;
      var rest := expansion[|FirstWord(expansion)|..];
      var v := ExpandAlias(name, aliases, seen).value;
      |rest| <= |v| && v[|v| - |rest|..] == rest
    decreases |AliasNames(aliases) - seen|
  {
    var expansion := Get(aliases, name).value;
    var first := FirstWord(expansion);
    var rest := expansion[|first|..];
    var v := ExpandAlias(name, aliases, seen).value;
    if Has(aliases, first) && first != name {
      AliasProgress(name, aliases, seen);
      var nested := ExpandAlias(first, aliases, seen + {name});
      if nested.Expanded? {
        assert v == nested.value + rest;
      } else {
        assert v == expansion == first + rest;
      }
    } else {
      assert v == expansion == first + rest;
    }
  }

  /** An alias whose value starts with its own name (`alias ls='ls -la'`)
      is expanded once and not again. */
  lemma SelfAlias(name: string, rest: string, aliases: Entries<string, string>)
    requires |name| > 0 && forall i :: 0 <= i < |name| ==> !IsSpace(name[i])
    requires |rest| > 0 && IsSpace(rest[0])
    requires Get(aliases, name) == Some(name + rest)
    ensures ExpandAlias(name, aliases, {}) == Expanded(name + rest)
  {
    FirstWordIs(name, rest);
  }

  /** The first word of `w + rest` where `rest` starts with white space. */
  lemma {:induction false} FirstWordIs(w: string, rest: string)
    requires forall i :: 0 <= i < |w| ==> !IsSpace(w[i])
    requires |rest| == 0 || IsSpace(rest[0])
    ensures FirstWord(w + rest) == w
  {
    var s := w + rest;
    var f := FirstWord(s);
    SplitSpacesFirst(s);
    assert f == s[..|f|] && w == s[..|w|];
  }

  /** Two aliases naming each other are a circular reference, reported
      with the name the expansion started from. */
  lemma MutualAliases(a: string, b: string, aliases: Entries<string, string>)
    requires a != b
    requires forall i :: 0 <= i < |a| ==> !IsSpace(a[i])
    requires forall i :: 0 <= i < |b| ==> !IsSpace(b[i])
    requires Get(aliases, a) == Some(b) && Get(aliases, b) == Some(a)
    ensures ExpandAlias(a, aliases, {}) == Circular(CircularPrefix + a)
  {
    FirstWordIs(a, "");
    FirstWordIs(b, "");
    assert a + "" == a && b + "" == b;
    assert ExpandAlias(a, aliases, {a} + {b}) == Circular(CircularPrefix + a);
    assert ExpandAlias(b, aliases, {} + {a}) == Circular(CircularPrefix + a);
  }

  /** A chain of two aliases replaces the first word twice and keeps the
      arguments: `ll` = `la -l`, `la` = `ls -a` gives `ls -a -l`. */
  lemma NestedAliases(outer: string, inner: string, target: string, outerArgs: string, innerArgs: string, aliases: Entries<string, string>)
    requires outer != inner && inner != target
    requires forall i :: 0 <= i < |inner| ==> !IsSpace(inner[i])
    requires forall i :: 0 <= i < |target| ==> !IsSpace(target[i])
    requires |outerArgs| > 0 && IsSpace(outerArgs[0]) && |innerArgs| > 0 && IsSpace(innerArgs[0])
    requires Get(aliases, outer) == Some(inner + outerArgs) && Get(aliases, inner) == Some(target + innerArgs)
    requires !Has(aliases, target)
    ensures ExpandAlias(outer, aliases, {}) == Expanded(target + innerArgs + outerArgs)
  {
    FirstWordIs(inner, outerArgs);
    FirstWordIs(target, innerArgs);
    assert (inner + outerArgs)[|inner|..] == outerArgs;
    assert ExpandAlias(inner, aliases, {outer}) == Expanded(target + innerArgs);
  }

  // ---- Scripts and shebangs ------------------------------------------------------

  /** `detectShebang`: the interpreter named on a `#!` first line, or the
      program that `/usr/bin/env` is asked to run. */
  function DetectShebang(content: string): Option<string> {
    var first := Split(content, '\n')[0];
    if !StartsWith(first, "#!") then None
    else
      var parts := SplitSpaces(Trim(first[2..]));
      if parts[0] == "/usr/bin/env" && |parts| > 1 && parts[1] != "" then Some(parts[1]) else Some(parts[0])
  }

  /** No shebang, or one naming `sh`, runs the file as a shell script. */
  predicate RunsAsScript(interpreter: Option<string>) {
    interpreter.None? || interpreter.value in {"", "sh", "/bin/sh", "/usr/bin/sh"}
  }

  /** The first line of `line + "\n" + rest`, or of a line alone. */
  lemma FirstLine(line: string, rest: string)
    requires '\n' !in line
    ensures Split(line + "\n" + rest, '\n')[0] == line
    ensures Split(line, '\n')[0] == line
  {
    SplitAppend(line, rest, '\n');
    assert line + "\n" + rest == line + ['\n'] + rest;
    SplitWithoutSeparator(line, '\n');
  }

  /** A file that does not start with `#!` has no interpreter. */
  lemma NoShebang(content: string)
    requires !StartsWith(content, "#!")
    ensures DetectShebang(content) == None
  {
    var first := Split(content, '\n')[0];
    SplitFirstPiece(content, '\n');
  }

  /** The first piece of a split is a prefix of the string. */
  lemma {:induction false} SplitFirstPiece(s: string, sep: char)
    ensures Split(s, sep)[0] <= s
    decreases |s|
  {
    if |s| > 0 && s[0] != sep {
      SplitFirstPiece(s[1..], sep);
    }
  }

  /** A `#!` first line is split into words after trimming. */
  lemma ShebangWords(body: string, rest: string, parts: seq<string>)
    requires forall i :: 0 <= i < |body| ==> body[i] != '\n'
    requires SplitSpaces(Trim(body)) == parts
    ensures DetectShebang("#!" + body + "\n" + rest) ==
      if parts[0] == "/usr/bin/env" && |parts| > 1 && parts[1] != "" then Some(parts[1]) else Some(parts[0])
  {
    var line := "#!" + body;
    FirstLine(line, rest);
    assert line + "\n" + rest == "#!" + body + "\n" + rest;
    assert line[2..] == body;
  }

  /** `#!/usr/bin/env X` names X as the interpreter. */
  lemma ShebangThroughEnv(x: string, rest: string)
    requires |x| > 0 && forall i :: 0 <= i < |x| ==> !IsSpace(x[i])
    ensures DetectShebang("#!/usr/bin/env " + x + "\n" + rest) == Some(x)
  {
    hide DetectShebang, SplitSpaces, Trim;
    var body := "/usr/bin/env" + " " + x;
    assert body[|body| - 1] == x[|x| - 1];
    TrimPlain(body);
    SplitSpacesTwo("/usr/bin/env", x);
    ShebangWords(body, rest, ["/usr/bin/env", x]);
    assert "#!" + body + "\n" + rest == "#!/usr/bin/env " + x + "\n" + rest;
  }

  /** `#!P` for a path P without white space names P. */
  lemma ShebangDirect(p: string, rest: string)
    requires |p| > 0 && forall i :: 0 <= i < |p| ==> !IsSpace(p[i])
    requires p != "/usr/bin/env"
    ensures DetectShebang("#!" + p + "\n" + rest) == Some(p)
  {
    TrimPlain(p);
    SplitSpacesWord(p);
    ShebangWords(p, rest, [p]);
  }

  /** Trimming a string that neither starts nor ends with white space. */
  lemma TrimPlain(s: string)
    requires |s| > 0 && !IsSpace(s[0]) && !IsSpace(s[|s| - 1])
    ensures Trim(s) == s
  {
    TrimStartDrops(s);
    TrimEndDrops(TrimStart(s));
  }

  /** A word without white space splits to itself. */
  lemma {:induction false} SplitSpacesWord(w: string)
    requires forall i :: 0 <= i < |w| ==> !IsSpace(w[i])
    ensures SplitSpaces(w) == [w]
    decreases |w|
  {
    if |w| > 0 {
      SplitSpacesWord(w[1..]);
      assert [w[0]] + w[1..] == w;
    }
  }

  /** Two words separated by one space split into the two words. */
  lemma {:induction false} SplitSpacesTwo(a: string, b: string)
    requires forall i :: 0 <= i < |a| ==> !IsSpace(a[i])
    requires |b| > 0 && forall i :: 0 <= i < |b| ==> !IsSpace(b[i])
    ensures SplitSpaces(a + " " + b) == [a, b]
    decreases |a|
  {
    if |a| == 0 {
      var s := " " + b;
      assert s[0] == ' ' && IsSpace(s[0]);
      TrimStartDrops(s);
      assert TrimStart(s) == b by {
        var t := TrimStart(s);
        assert |t| <= |s|;
      }
      SplitSpacesWord(b);
      assert a + " " + b == s;
    } else {
      SplitSpacesTwo(a[1..], b);
      assert (a + " " + b)[1..] == a[1..] + " " + b;
      assert [a[0]] + a[1..] == a;
    }
  }

  /** Comment lines, whose first non-blank character is `#`, are blanked
      before a script is parsed; every other line is kept. */
  function StripComment(line: string): string {
    if StartsWith(Trim(line), "#") then "" else line
  }

  function StripComments(lines: seq<string>): (r: seq<string>)
    ensures |r| == |lines|
    ensures forall k :: 0 <= k < |r| ==> r[k] == StripComment(lines[k])
  {
    if |lines| == 0 then [] else [StripComment(lines[0])] + StripComments(lines[1..])
  }

  /** The text handed to the parser for a script. */
  function ScriptText(content: string): string {
    Join(StripComments(Split(content, '\n')), "\n")
  }

  /** `executeScript`: parse the whole script at once and run it. */
  function ExecuteScript(h: Host, st: Snapshot, content: string): Run {
    match h.parse(ScriptText(content))
    case Err(e) => Done(Failure("parse error: " + e.message, 1), st)
    case Ok(pr) => h.nested(pr, st)
  }

  /** `executeSourceCommand` */
  function ExecuteSource(h: Host, st: Snapshot, file: string): Run {
    match ReadAt(st.root, ResolvePath(st.cwd, file))
    case Err(_) => Done(Failure("source: " + file + ": No such file or directory", 1), st)
    case Ok(bytes) => ExecuteScript(h, st, h.decode(bytes))
  }

  /** `executeExecutableFile` */
  function ExecuteExecutable(h: Host, st: Snapshot, path: string): Run {
    match ReadAt(st.root, path)
    case Err(_) => Done(Failure(path + ": No such file or directory", 127), st)
    case Ok(bytes) =>
      var content := h.decode(bytes);
      var interpreter := DetectShebang(content);
      if RunsAsScript(interpreter) then ExecuteScript(h, st, content)
      else Done(Failure(path + ": unsupported interpreter: " + interpreter.value, 126), st)
  }

  // ---- PATH lookup ---------------------------------------------------------------

  /** The directories of `PATH` (default `/bin`), empty entries dropped. */
  function PathDirs(env: Entries<string, string>): seq<string> {
    NonEmpty(Split(Get(env, "PATH").GetOr("/bin"), ':'))
  }

  /** The first directory holding a readable `file`, with its path and bytes. */
  function SearchPath(root: V.Node, dirs: seq<string>, file: string): (r: Option<(string, Bytes)>)
    ensures r.Some? ==> exists k :: 0 <= k < |dirs| && r.value.0 == dirs[k] + "/" + file
    ensures r.Some? ==> ReadAt(root, r.value.0) == Ok(r.value.1)
    ensures r.None? <==> forall k :: 0 <= k < |dirs| ==> ReadAt(root, dirs[k] + "/" + file).Err?
  {
    if |dirs| == 0 then None
    else
      var path := dirs[0] + "/" + file;
      match ReadAt(root, path)
      case Ok(bytes) => Some((path, bytes))
      case Err(_) =>
        var r := SearchPath(root, dirs[1..], file);
        assert forall k :: 1 <= k < |dirs| ==> dirs[k] == dirs[1..][k - 1];
        r
  }

  /** The search takes the earliest directory that has the file. */
  lemma {:induction false} SearchPathFirst(root: V.Node, dirs: seq<string>, file: string, k: nat)
    requires k < |dirs| && ReadAt(root, dirs[k] + "/" + file).Ok?
    requires forall j :: 0 <= j < k ==> ReadAt(root, dirs[j] + "/" + file).Err?
    ensures SearchPath(root, dirs, file) == Some((dirs[k] + "/" + file, ReadAt(root, dirs[k] + "/" + file).value))
    decreases k
  {
    if k > 0 {
      SearchPathFirst(root, dirs[1..], file, k - 1);
    }
  }

  /** `dispatchExternalCommand`: a `.wasm` binary on `PATH`, then a `.sh`
      script on `PATH`, otherwise "command not found". A command without
      piped input runs interactively. */
  function External(h: Host, st: Snapshot, cmd: string, args: seq<string>, stdin: Option<string>): Run {
    var dirs := PathDirs(st.env);
    match SearchPath(st.root, dirs, cmd + ".wasm")
    case Some(found) => Done(h.wasm(found.1, cmd, CommandInput(args, st.env, st.cwd, stdin), stdin.None?), st)
    case None =>
      match SearchPath(st.root, dirs, cmd + ".sh")
      case Some(found) => ExecuteScript(h, st, h.decode(found.1))
      case None => Done(Failure(cmd + ": command not found", 127), st)
  }
}
