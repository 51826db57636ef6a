/** The terminal component's own logic: the display width of the input line,
    the expansion of the `PS1` prompt, the line editor that reacts to each
    keystroke (buffer, cursor, command history and the echo it writes), and
    what is written once a command has finished. */
module Terminal {
  import opened Wrappers
  import opened Text
  import opened OrderedMap
  import opened CharWidth

  const Esc: char := '\U{1B}'
  const Bs: char := '\U{08}'

  /* ---------------- display width ---------------- */

  /** `getDisplayWidth`: two columns per full-width code point, one for any
      other. */
  function DisplayWidth(s: string): (w: nat)
    ensures |s| <= w <= 2 * |s|
  {
    if |s| == 0 then 0 else Width(s[0]) + DisplayWidth(s[1..])
  }

  /** The loop of `getDisplayWidth`. */
  method GetDisplayWidth(s: string) returns (width: nat)
    ensures width == DisplayWidth(s)
  {
    width := 0;
    var i := 0;
    while i < |s|
      invariant 0 <= i <= |s|
      invariant width + DisplayWidth(s[i..]) == DisplayWidth(s)
    {
      assert s[i..][1..] == s[i + 1..];
      width := width + Width(s[i]);
      i := i + 1;
    }
  }

  /** The width of a concatenation is the sum of the widths. */
  lemma {:induction false} DisplayWidthAppend(a: string, b: string)
    ensures DisplayWidth(a + b) == DisplayWidth(a) + DisplayWidth(b)
  {
    if |a| > 0 {
      assert (a + b)[1..] == a[1..] + b;
      DisplayWidthAppend(a[1..], b);
    } else {
      assert a + b == b;
    }
  }

  /** A string is as wide as it is long exactly when none of its code points
      is full-width. */
  lemma {:induction false} NarrowExactly(s: string)
    ensures DisplayWidth(s) == |s| <==> forall i :: 0 <= i < |s| ==> !IsFullWidth(s[i])
  {
    if |s| > 0 {
      NarrowExactly(s[1..]);
      assert forall i :: 1 <= i < |s| ==> s[i] == s[1..][i - 1];
    }
  }

  /** Splitting a line at the cursor splits its width. */
  lemma WidthAtCursor(s: string, pos: nat)
    requires pos <= |s|
    ensures DisplayWidth(s) == DisplayWidth(s[..pos]) + DisplayWidth(s[pos..])
  {
    assert s == s[..pos] + s[pos..];
    DisplayWidthAppend(s[..pos], s[pos..]);
  }

  /* ---------------- prompt expansion ---------------- */

  const DefaultHome: string := "/home/uzimaru0000"
  const DefaultPs1: string := "\\w \\$ "

  /** `env.get(key) || fallback`: an unset or empty variable gives the
      fallback. */
  function EnvOr(env: Entries<string, string>, key: string, fallback: string): (v: string)
    ensures v == fallback || Get(env, key) == Some(v)
    ensures v != fallback ==> v != ""
  {
    match Get(env, key)
    case Some(value) => if value != "" then value else fallback
    case None => fallback
  }

  /** `cwd.split('/').pop() || '/'`. */
  function LastSegment(cwd: string): (r: string)
    ensures r == "/" || r == Split(cwd, '/')[|Split(cwd, '/')| - 1]
    ensures r != ""
  {
    var parts := Split(cwd, '/');
    if parts[|parts| - 1] != "" then parts[|parts| - 1] else "/"
  }

  /** What a backslash followed by `c` becomes. `host` stands for the page's
      `window.location.host`. */
  function EscapeText(c: char, cwd: string, env: Entries<string, string>, host: string): (r: string)
    ensures c == '[' || c == ']' ==> r == ""
    ensures c !in "wWuh$\\ne[]" ==> r == ['\\', c]
  {
    match c
    case 'w' =>
      var home := EnvOr(env, "HOME", DefaultHome);
      if home <= cwd then "~" + cwd[|home|..] else cwd
    case 'W' => LastSegment(cwd)
    case 'u' => EnvOr(env, "USER", "user")
    case 'h' => EnvOr(env, "HOSTNAME", host)
    case '$' => if Get(env, "USER") == Some("root") then "#" else "$"
    case '\\' => "\\"
    case 'n' => "\n"
    case 'e' => [Esc]
    case '[' => ""
    case ']' => ""
    case _ => ['\\', c]
  }

  /** `expandPS1`: escapes are replaced left to right; a backslash that ends
      the string is copied. */
  function Expand(ps1: string, cwd: string, env: Entries<string, string>, host: string): string
    decreases |ps1|
  {
    if |ps1| == 0 then ""
    else if ps1[0] == '\\' && |ps1| >= 2 then EscapeText(ps1[1], cwd, env, host) + Expand(ps1[2..], cwd, env, host)
    else [ps1[0]] + Expand(ps1[1..], cwd, env, host)
  }

  /** The loop of `expandPS1`. */
  method ExpandPs1(ps1: string, cwd: string, env: Entries<string, string>, host: string) returns (result: string)
    ensures result == Expand(ps1, cwd, env, host)
  {
    result := "";
    var i := 0;
    while i < |ps1|
      invariant 0 <= i <= |ps1|
      invariant result + Expand(ps1[i..], cwd, env, host) == Expand(ps1, cwd, env, host)
    {
      if ps1[i] == '\\' && i + 1 < |ps1| {
        assert ps1[i..][2..] == ps1[i + 2..];
        result := result + EscapeText(ps1[i + 1], cwd, env, host);
        i := i + 2;
      } else {
        assert ps1[i..][1..] == ps1[i + 1..];
        result := result + [ps1[i]];
        i := i + 1;
      }
    }
  }

  /** `getPrompt`: PS1, or `\w \$ ` when it is unset or empty. */
  function Prompt(cwd: string, env: Entries<string, string>, host: string): string {
    Expand(EnvOr(env, "PS1", DefaultPs1), cwd, env, host)
  }

  /** Text without a backslash is its own expansion, and it passes through
      unchanged in front of whatever follows it. */
  lemma {:induction false} ExpandLiteral(a: string, b: string, cwd: string, env: Entries<string, string>, host: string)
    requires '\\' !in a
    ensures Expand(a + b, cwd, env, host) == a + Expand(b, cwd, env, host)
  {
    if |a| == 0 {
      assert a + b == b;
    } else {
      assert (a + b)[1..] == a[1..] + b;
      assert a[0] in a;
      ExpandLiteral(a[1..], b, cwd, env, host);
      assert a == [a[0]] + a[1..];
    }
  }

  /** One escape at the head of the string. */
  lemma ExpandEscape(c: char, rest: string, cwd: string, env: Entries<string, string>, host: string)
    ensures Expand(['\\', c] + rest, cwd, env, host) == EscapeText(c, cwd, env, host) + Expand(rest, cwd, env, host)
  {
    assert (['\\', c] + rest)[2..] == rest;
  }

  /** A lone backslash at the end is copied, and `\[ … \]` around literal text
      leaves just the text. */
  lemma TrailingBackslashAndMarkers(s: string, cwd: string, env: Entries<string, string>, host: string)
    requires '\\' !in s
    ensures Expand(s + "\\", cwd, env, host) == s + "\\"
    ensures Expand("\\[" + s + "\\]", cwd, env, host) == s
  {
    ExpandLiteral(s, "\\", cwd, env, host);
    ExpandLiteral(s, "\\]", cwd, env, host);
    ExpandEscape(']', "", cwd, env, host);
    assert "\\]" == ['\\', ']'] + "";
    assert "\\[" + s + "\\]" == ['\\', '['] + (s + "\\]");
    ExpandEscape('[', s + "\\]", cwd, env, host);
  }

  /** `\$` is `#` exactly for the root user. */
  lemma RootMarker(cwd: string, env: Entries<string, string>, host: string)
    ensures Expand("\\$", cwd, env, host) == "#" <==> Get(env, "USER") == Some("root")
    ensures Expand("\\$", cwd, env, host) == "$" <==> Get(env, "USER") != Some("root")
  {
    assert "\\$" == ['\\', '$'] + "";
    ExpandEscape('$', "", cwd, env, host);
    assert Expand("", cwd, env, host) == "";
    assert EscapeText('$', cwd, env, host) == (if Get(env, "USER") == Some("root") then "#" else "$");
    assert "#" != "$" by { assert "#"[0] != "$"[0]; }
  }

  /** A string that is a single escape. */
  lemma ExpandSingle(c: char, cwd: string, env: Entries<string, string>, host: string)
    ensures Expand(['\\', c], cwd, env, host) == EscapeText(c, cwd, env, host)
  {
    assert ['\\', c] == ['\\', c] + "";
    ExpandEscape(c, "", cwd, env, host);
  }

  /** `\w` abbreviates the home directory, and the test is a plain string
      prefix: a sibling directory whose name extends the home directory's
      is abbreviated too. */
  lemma HomeAbbreviated(host: string)
    ensures Expand("\\w", DefaultHome, [], host) == "~"
    ensures Expand("\\w", DefaultHome + "/src", [], host) == "~/src"
    ensures Expand("\\w", DefaultHome + "x", [], host) == "~x"
  {
    hide Expand;
    ExpandSingle('w', DefaultHome, [], host);
    ExpandSingle('w', DefaultHome + "/src", [], host);
    ExpandSingle('w', DefaultHome + "x", [], host);
    assert EnvOr([], "HOME", DefaultHome) == DefaultHome;
    assert DefaultHome <= DefaultHome + "/src";
    assert (DefaultHome + "/src")[|DefaultHome|..] == "/src";
    assert DefaultHome <= DefaultHome + "x";
    assert (DefaultHome + "x")[|DefaultHome|..] == "x";
  }

  /** Outside the home directory `\w` is the working directory itself, and
      HOME, when set, replaces the default home. */
  lemma HomeFromEnvironment(host: string)
    ensures Expand("\\w", "/tmp", [], host) == "/tmp"
    ensures Expand("\\w", "/root", [("HOME", "/root")], host) == "~"
  {
    hide Expand;
    ExpandSingle('w', "/tmp", [], host);
    ExpandSingle('w', "/root", [("HOME", "/root")], host);
    assert EnvOr([], "HOME", DefaultHome) == DefaultHome;
    assert !(DefaultHome <= "/tmp") by { assert "/tmp"[1] != DefaultHome[1]; }
    assert EnvOr([("HOME", "/root")], "HOME", DefaultHome) == "/root";
  }

  lemma SplitRoot()
    ensures Split("/", '/') == ["", ""]
  {
    hide Split;
    SplitAppend("", "", '/');
    SplitWithoutSeparator("", '/');
    assert "/" == "" + ['/'] + "";
  }

  lemma SplitUsrBin()
    ensures Split("/usr/bin", '/') == ["", "usr", "bin"]
  {
    hide Split;
    SplitAppend("usr", "bin", '/');
    SplitWithoutSeparator("usr", '/');
    SplitWithoutSeparator("bin", '/');
    assert "usr/bin" == "usr" + ['/'] + "bin";
    SplitAppend("", "usr/bin", '/');
    SplitWithoutSeparator("", '/');
    assert "/usr/bin" == "" + ['/'] + "usr/bin";
  }

  lemma SplitUsrBinSlash()
    ensures Split("/usr/bin/", '/') == ["", "usr", "bin", ""]
  {
    hide Split;
    SplitUsrBin();
    SplitWithoutSeparator("", '/');
    SplitAppend("/usr/bin", "", '/');
    assert "/usr/bin/" == "/usr/bin" + ['/'] + "";
  }

  /** `\W` is the last path segment, and `/` when that segment is empty. */
  lemma BaseNameExamples(env: Entries<string, string>, host: string)
    ensures EscapeText('W', "/", env, host) == "/"
    ensures EscapeText('W', "/usr/bin", env, host) == "bin"
    ensures EscapeText('W', "/usr/bin/", env, host) == "/"
  {
    hide Split;
    SplitRoot();
    SplitUsrBin();
    SplitUsrBinSlash();
  }

  /** With PS1 unset or empty the prompt is the working directory, a space,
      the user marker and a space. */
  lemma DefaultPrompt(cwd: string, env: Entries<string, string>, host: string)
    requires EnvOr(env, "PS1", DefaultPs1) == DefaultPs1
    ensures Prompt(cwd, env, host) == EscapeText('w', cwd, env, host) + " " + EscapeText('$', cwd, env, host) + " "
  {
    hide EscapeText;
    assert DefaultPs1 == ['\\', 'w'] + (" " + (['\\', '$'] + " "));
    ExpandEscape('w', " " + (['\\', '$'] + " "), cwd, env, host);
    ExpandLiteral(" ", ['\\', '$'] + " ", cwd, env, host);
    ExpandEscape('$', " ", cwd, env, host);
    ExpandLiteral(" ", "", cwd, env, host);
  }

  /** The default prompt is `~ $ ` at home and `/ # ` for root at the top
      of the tree. */
  lemma DefaultPromptExamples(host: string)
    ensures Prompt(DefaultHome, [], host) == "~ $ "
    ensures Prompt("/", [("USER", "root")], host) == "/ # "
  {
    hide Prompt, Expand;
    DefaultPrompt(DefaultHome, [], host);
    DefaultPrompt("/", [("USER", "root")], host);
    assert EnvOr([], "HOME", DefaultHome) == DefaultHome;
    assert EnvOr([("USER", "root")], "HOME", DefaultHome) == DefaultHome;
    assert !(DefaultHome <= "/");
  }

  /* ---------------- the line editor ---------------- */

  /** The editor's state: the input line, the cursor as an index into it,
      the commands entered so far, the history position (-1 when not
      browsing) and whether a command is running. */
  datatype Editor = Editor(buffer: string, cursor: nat, history: seq<string>, historyIndex: int, executing: bool)

  predicate WellFormed(e: Editor) {
    e.cursor <= |e.buffer| && -1 <= e.historyIndex < |e.history|
  }

  const Fresh: Editor := Editor("", 0, [], -1, false)

  /** What a keystroke asks of the rest of the system. */
  datatype Effect = Idle | Execute(command: string) | SendEof | WriteStdin(data: string)

  /** One call on the terminal display. */
  datatype TtyOp = Write(text: string) | ClearScreen

  datatype Reaction = Reaction(next: Editor, effect: Effect, ops: seq<TtyOp>)

  const EnterKey: string := "\n"
  const BackspaceKey: string := "\U{7F}"
  const UpKey: string := [Esc, '[', 'A']
  const DownKey: string := [Esc, '[', 'B']
  const RightKey: string := [Esc, '[', 'C']
  const LeftKey: string := [Esc, '[', 'D']
  const RedrawKey: string := "\U{0C}"
  const KillKey: string := "\U{15}"
  const EofKey: string := "\U{04}"
  const InterruptKey: string := "\U{03}"
  const Rubout: string := [Bs, ' ', Bs]

  /** `s.repeat(n)`. */
  function RepeatText(s: string, n: nat): (r: string)
    ensures |r| == n * |s|
  {
    if n == 0 then "" else s + RepeatText(s, n - 1)
  }

  /** Move to the end of the line and rub out all of it. */
  function EraseLine(buffer: string, cursor: nat): seq<TtyOp>
    requires cursor <= |buffer|
  {
    [Write(RepeatText(RightKey, DisplayWidth(buffer[cursor..]))), Write(RepeatText(Rubout, DisplayWidth(buffer)))]
  }

  /** Enter: the line is taken as a command. A blank line only moves to a
      new prompt; any other is recorded in the history and run. */
  function PressEnter(e: Editor, prompt: string): (r: Reaction)
    requires WellFormed(e)
    ensures WellFormed(r.next)
  {
    var cleared := e.(buffer := "", cursor := 0);
    if Trim(e.buffer) == "" then
      Reaction(cleared, Idle, [Write("\n"), Write("\n"), Write(prompt)])
    else
      Reaction(cleared.(executing := true, history := e.history + [e.buffer], historyIndex := -1), Execute(e.buffer), [Write("\n")])
  }

  /** Backspace: the character before the cursor goes; the rest of the line
      is redrawn one character further left. */
  function PressBackspace(e: Editor): (r: Reaction)
    requires WellFormed(e)
    ensures WellFormed(r.next)
  {
    if e.cursor == 0 then Reaction(e, Idle, [])
    else
      var pos := e.cursor;
      var deleted := Width(e.buffer[pos - 1]);
      var remaining := e.buffer[pos..];
      Reaction(e.(buffer := e.buffer[..pos - 1] + e.buffer[pos..], cursor := pos - 1), Idle,
        [Write(Repeat(Bs, deleted) + remaining + Repeat(' ', deleted) + Repeat(Bs, DisplayWidth(remaining) + deleted))])
  }

  /** Up: step back through the history, starting from the newest entry and
      stopping at the oldest. */
  function PressUp(e: Editor): (r: Reaction)
    requires WellFormed(e)
    ensures WellFormed(r.next)
  {
    if |e.history| == 0 then Reaction(e, Idle, [])
    else
      var index := if e.historyIndex == -1 then |e.history| - 1 else if e.historyIndex - 1 < 0 then 0 else e.historyIndex - 1;
      var command := e.history[index];
      Reaction(e.(historyIndex := index, buffer := command, cursor := |command|), Idle,
        EraseLine(e.buffer, e.cursor) + [Write(command)])
  }

  /** Down: step forward through the history; past the newest entry the
      line is emptied and browsing ends. */
  function PressDown(e: Editor): (r: Reaction)
    requires WellFormed(e)
    ensures WellFormed(r.next)
  {
    if e.historyIndex == -1 then Reaction(e, Idle, [])
    else if e.historyIndex + 1 >= |e.history| then
      Reaction(e.(historyIndex := -1, buffer := "", cursor := 0), Idle, EraseLine(e.buffer, e.cursor))
    else
      var command := e.history[e.historyIndex + 1];
      Reaction(e.(historyIndex := e.historyIndex + 1, buffer := command, cursor := |command|), Idle,
        EraseLine(e.buffer, e.cursor) + [Write(command)])
  }

  function PressRight(e: Editor): (r: Reaction)
    requires WellFormed(e)
    ensures WellFormed(r.next)
  {
    if e.cursor < |e.buffer| then
      Reaction(e.(cursor := e.cursor + 1), Idle, [Write(RepeatText(RightKey, Width(e.buffer[e.cursor])))])
    else Reaction(e, Idle, [])
  }

  function PressLeft(e: Editor): (r: Reaction)
    requires WellFormed(e)
    ensures WellFormed(r.next)
  {
    if e.cursor > 0 then
      Reaction(e.(cursor := e.cursor - 1), Idle, [Write(RepeatText(LeftKey, Width(e.buffer[e.cursor - 1])))])
    else Reaction(e, Idle, [])
  }

  /** Ctrl-L: clear the screen, then show the prompt and the line again with
      the cursor where it was. */
  function PressRedraw(e: Editor, prompt: string): (r: Reaction)
    requires WellFormed(e)
    ensures WellFormed(r.next)
  {
    var after := DisplayWidth(e.buffer[e.cursor..]);
    Reaction(e, Idle, [ClearScreen, Write(prompt), Write(e.buffer)] + (if after > 0 then [Write(RepeatText(LeftKey, after))] else []))
  }

  /** Ctrl-U: erase the whole line. */
  function PressKill(e: Editor): (r: Reaction)
    requires WellFormed(e)
    ensures WellFormed(r.next)
  {
    Reaction(e.(buffer := "", cursor := 0), Idle, EraseLine(e.buffer, e.cursor))
  }

  /** Printable data (typed or pasted) is inserted at the cursor and the
      rest of the line redrawn after it. */
  function InsertText(e: Editor, data: string): (r: Reaction)
    requires WellFormed(e)
    ensures WellFormed(r.next)
  {
    var pos := e.cursor;
    var remaining := e.buffer[pos..];
    var after := DisplayWidth(remaining);
    Reaction(e.(buffer := e.buffer[..pos] + data + e.buffer[pos..], cursor := pos + |data|), Idle,
      [Write(data + remaining)] + (if after > 0 then [Write(RepeatText(LeftKey, after))] else []))
  }

  /** `handleInput`. While a command runs in interactive mode the data goes
      to its standard input (Ctrl-D and Ctrl-C end it); while any other
      command runs input is dropped; otherwise the data is an editing key or
      text to insert, and anything else is ignored. */
  function Input(e: Editor, data: string, interactive: bool, prompt: string): (r: Reaction)
    requires WellFormed(e)
    ensures WellFormed(r.next)
  {
    if e.executing && interactive then
      if data == EofKey || data == InterruptKey then Reaction(e, SendEof, [])
      else Reaction(e, WriteStdin(data), if data == "\n" then [Write("\n")] else [])
    else if e.executing then Reaction(e, Idle, [])
    else if data == EnterKey then PressEnter(e, prompt)
    else if data == BackspaceKey then PressBackspace(e)
    else if data == UpKey then PressUp(e)
    else if data == DownKey then PressDown(e)
    else if data == RightKey then PressRight(e)
    else if data == LeftKey then PressLeft(e)
    else if data == RedrawKey then PressRedraw(e, prompt)
    else if data == KillKey then PressKill(e)
    else if |data| >= 1 && data[0] >= ' ' then InsertText(e, data)
    else Reaction(e, Idle, [])
  }

  /** Printable data lands at the cursor, and the cursor moves past it. */
  lemma InsertSplices(e: Editor, data: string, interactive: bool, prompt: string)
    requires WellFormed(e) && !e.executing
    requires |data| >= 1 && data[0] >= ' ' && data != BackspaceKey
    ensures var r := Input(e, data, interactive, prompt);
      r.next.buffer == e.buffer[..e.cursor] + data + e.buffer[e.cursor..] &&
      r.next.buffer[..r.next.cursor] == e.buffer[..e.cursor] + data &&
      r.next.buffer[r.next.cursor..] == e.buffer[e.cursor..] &&
      r.next.history == e.history && r.effect == Idle
  {
    var r := Input(e, data, interactive, prompt);
    assert data != UpKey && data != DownKey && data != RightKey && data != LeftKey by { assert data[0] != Esc; }
    var front := e.buffer[..e.cursor] + data;
    assert r.next.buffer == front + e.buffer[e.cursor..];
  }

  /** Typing one character and then Backspace restores the line and the
      cursor. */
  lemma InsertThenBackspace(e: Editor, c: char, interactive: bool, prompt: string)
    requires WellFormed(e) && !e.executing
    requires c >= ' ' && c != '\U{7F}'
    ensures var typed := Input(e, [c], interactive, prompt).next;
      Input(typed, BackspaceKey, interactive, prompt).next == e
  {
    InsertSplices(e, [c], interactive, prompt);
    var typed := Input(e, [c], interactive, prompt).next;
    var pos := typed.cursor;
    assert typed.buffer[..pos - 1] == e.buffer[..e.cursor];
    assert e.buffer == e.buffer[..e.cursor] + e.buffer[e.cursor..];
  }

  /** Backspace removes exactly the character before the cursor. */
  lemma BackspaceRemoves(e: Editor, interactive: bool, prompt: string)
    requires WellFormed(e) && !e.executing && e.cursor > 0
    ensures var r := Input(e, BackspaceKey, interactive, prompt);
      e.buffer == r.next.buffer[..r.next.cursor] + [e.buffer[e.cursor - 1]] + r.next.buffer[r.next.cursor..] &&
      r.next.cursor == e.cursor - 1 && |r.next.buffer| == |e.buffer| - 1
  {
    var r := Input(e, BackspaceKey, interactive, prompt);
    var pos := e.cursor;
    assert r.next.buffer[..pos - 1] == e.buffer[..pos - 1];
    assert r.next.buffer[pos - 1..] == e.buffer[pos..];
    assert e.buffer == e.buffer[..pos - 1] + [e.buffer[pos - 1]] + e.buffer[pos..];
  }

  /** Up from a fresh line recalls the newest command; at the oldest it
      stays there. */
  lemma UpRecalls(e: Editor, interactive: bool, prompt: string)
    requires WellFormed(e) && !e.executing && |e.history| > 0
    ensures var r := Input(e, UpKey, interactive, prompt);
      r.next.historyIndex == (if e.historyIndex == -1 then |e.history| - 1
                             else if e.historyIndex == 0 then 0 else e.historyIndex - 1) &&
      r.next.buffer == e.history[r.next.historyIndex] && r.next.cursor == |r.next.buffer|
  {
  }

  /** Down from the newest entry empties the line and ends browsing; from an
      older one it shows the next newer entry. */
  lemma DownAdvances(e: Editor, interactive: bool, prompt: string)
    requires WellFormed(e) && !e.executing && e.historyIndex != -1
    ensures var r := Input(e, DownKey, interactive, prompt);
      if e.historyIndex == |e.history| - 1 then
        r.next.historyIndex == -1 && r.next.buffer == "" && r.next.cursor == 0
      else
        r.next.historyIndex == e.historyIndex + 1 && r.next.buffer == e.history[e.historyIndex + 1]
  {
  }

  /** Down undoes Up while browsing older entries; from a fresh line, Up then
      Down leaves an empty line, not the text that was being typed. */
  lemma UpThenDown(e: Editor, interactive: bool, prompt: string)
    requires WellFormed(e) && !e.executing && |e.history| > 0
    ensures var up := Input(e, UpKey, interactive, prompt).next;
      var down := Input(up, DownKey, interactive, prompt).next;
      (e.historyIndex >= 1 ==> down.historyIndex == e.historyIndex && down.buffer == e.history[e.historyIndex]) &&
      (e.historyIndex == -1 ==> down.historyIndex == -1 && down.buffer == "")
  {
    UpRecalls(e, interactive, prompt);
    var up := Input(e, UpKey, interactive, prompt).next;
    DownAdvances(up, interactive, prompt);
  }

  /** Left undoes Right. */
  lemma RightThenLeft(e: Editor, interactive: bool, prompt: string)
    requires WellFormed(e) && !e.executing && e.cursor < |e.buffer|
    ensures Input(Input(e, RightKey, interactive, prompt).next, LeftKey, interactive, prompt).next == e
  {
  }

  /** Enter always starts a new empty line; a non-blank line becomes the
      newest history entry and is run, a blank one leaves history alone. */
  lemma EnterRecords(e: Editor, interactive: bool, prompt: string)
    requires WellFormed(e) && !e.executing
    ensures var r := Input(e, EnterKey, interactive, prompt);
      r.next.buffer == "" && r.next.cursor == 0 &&
      (r.next.executing <==> Trim(e.buffer) != "") &&
      (r.effect == Execute(e.buffer) <==> Trim(e.buffer) != "") &&
      r.next.history == (if Trim(e.buffer) != "" then e.history + [e.buffer] else e.history) &&
      (Trim(e.buffer) != "" ==> r.next.historyIndex == -1)
  {
  }

  /** While a command runs: in interactive mode the data goes to it
      unchanged, Ctrl-D and Ctrl-C end its input, and the line editor does
      not change; otherwise input is dropped. */
  lemma RunningCommandOwnsInput(e: Editor, data: string, interactive: bool, prompt: string)
    requires WellFormed(e) && e.executing
    ensures var r := Input(e, data, interactive, prompt);
      r.next == e &&
      (!interactive ==> r.effect == Idle && r.ops == []) &&
      (interactive ==> (r.effect == SendEof <==> data == EofKey || data == InterruptKey)) &&
      (interactive && r.effect != SendEof ==> r.effect == WriteStdin(data))
  {
  }

  /* ---------------- the echo follows the cursor ---------------- */

  /** The characters written by the editor; a clear writes nothing. */
  function Written(ops: seq<TtyOp>): string {
    if |ops| == 0 then ""
    else (match ops[0] case Write(t) => t case ClearScreen => "") + Written(ops[1..])
  }

  lemma {:induction false} WrittenAppend(a: seq<TtyOp>, b: seq<TtyOp>)
    ensures Written(a + b) == Written(a) + Written(b)
  {
    if |a| > 0 {
      assert (a + b)[1..] == a[1..] + b;
      WrittenAppend(a[1..], b);
    } else {
      assert a + b == b;
    }
  }

  /** How far written text moves the cursor along a line that does not
      wrap: cursor-right and cursor-left sequences move one column, a
      backspace moves one column left, and any other character advances by
      its width. */
  function Movement(s: string): int
    decreases |s|
  {
    if |s| == 0 then 0
    else if |s| >= 3 && s[0] == Esc && s[1] == '[' && s[2] == 'C' then 1 + Movement(s[3..])
    else if |s| >= 3 && s[0] == Esc && s[1] == '[' && s[2] == 'D' then -1 + Movement(s[3..])
    else if s[0] == Bs then -1 + Movement(s[1..])
    else Width(s[0]) + Movement(s[1..])
  }

  /** Text the editor can hold and echo as it is: no escapes, no backspaces. */
  predicate Printable(s: string) {
    forall i :: 0 <= i < |s| ==> s[i] != Esc && s[i] != Bs
  }

  lemma {:induction false} MovementPlain(a: string, b: string)
    requires Esc !in a
    ensures Movement(a + b) == Movement(a) + Movement(b)
  {
    if |a| == 0 {
      assert a + b == b;
    } else {
      assert a[0] in a;
      assert (a + b)[1..] == a[1..] + b;
      assert forall c :: c in a[1..] ==> c in a;
      MovementPlain(a[1..], b);
    }
  }

  lemma {:induction false} MovementPrintable(s: string)
    requires Printable(s)
    ensures Movement(s) == DisplayWidth(s)
  {
    if |s| > 0 {
      MovementPrintable(s[1..]);
    }
  }

  lemma {:induction false} MovementRepeatChar(c: char, n: nat)
    requires c == Bs || c == ' '
    ensures Movement(Repeat(c, n)) == if c == Bs then -(n as int) else n
  {
    if n > 0 {
      assert Repeat(c, n)[1..] == Repeat(c, n - 1);
      MovementRepeatChar(c, n - 1);
    }
  }

  lemma {:induction false} MovementRepeatKey(key: string, n: nat, b: string)
    requires key == RightKey || key == LeftKey
    ensures Movement(RepeatText(key, n) + b) == (if key == RightKey then n else -(n as int)) + Movement(b)
  {
    if n > 0 {
      var t := RepeatText(key, n - 1) + b;
      assert RepeatText(key, n) + b == key + t;
      assert (key + t)[3..] == t;
      MovementRepeatKey(key, n - 1, b);
    } else {
      assert RepeatText(key, n) + b == b;
    }
  }

  lemma {:induction false} MovementRubout(n: nat)
    ensures Movement(RepeatText(Rubout, n)) == -(n as int)
    ensures Esc !in RepeatText(Rubout, n)
  {
    if n > 0 {
      assert RepeatText(Rubout, n) == Rubout + RepeatText(Rubout, n - 1);
      assert Esc !in Rubout;
      MovementRubout(n - 1);
      MovementPlain(Rubout, RepeatText(Rubout, n - 1));
      assert Movement(Rubout) == -1 by {
        assert Movement([Bs]) == -1 by { assert [Bs][1..] == []; }
        assert Movement([' ', Bs]) == 0 by { assert [' ', Bs][1..] == [Bs]; }
        assert Rubout[1..] == [' ', Bs];
      }
    }
  }

  lemma WrittenOne(t: string)
    ensures Written([Write(t)]) == t
  {
    assert [Write(t)][1..] == [];
  }

  /** A write followed by an optional second write. */
  lemma WrittenThen(t: string, rest: seq<TtyOp>, u: string)
    requires rest == [] || rest == [Write(u)]
    ensures Written([Write(t)] + rest) == t + (if rest == [] then "" else u)
  {
    WrittenAppend([Write(t)], rest);
    WrittenOne(t);
    if rest != [] {
      WrittenOne(u);
    }
  }

  /** The net movement of erasing the line: back to its start. */
  lemma EraseMovement(buffer: string, cursor: nat, b: string)
    requires cursor <= |buffer|
    ensures Movement(Written(EraseLine(buffer, cursor)) + b) == Movement(b) - DisplayWidth(buffer[..cursor])
  {
    var right := RepeatText(RightKey, DisplayWidth(buffer[cursor..]));
    var rub := RepeatText(Rubout, DisplayWidth(buffer));
    WrittenThen(right, [Write(rub)], rub);
    assert EraseLine(buffer, cursor) == [Write(right)] + [Write(rub)];
    assert right + rub + b == right + (rub + b);
    MovementRepeatKey(RightKey, DisplayWidth(buffer[cursor..]), rub + b);
    MovementRubout(DisplayWidth(buffer));
    MovementPlain(rub, b);
    WidthAtCursor(buffer, cursor);
  }

  /** Back over the deleted character, redraw the rest of the line, blank
      the freed columns and come back: a net move of the deleted width to
      the left. */
  lemma RedrawAfterDelete(dw: nat, remaining: string)
    requires Printable(remaining)
    ensures Movement(Repeat(Bs, dw) + remaining + Repeat(' ', dw) + Repeat(Bs, DisplayWidth(remaining) + dw)) == -(dw as int)
  {
    var back := Repeat(Bs, dw);
    var pad := Repeat(' ', dw);
    var tail := Repeat(Bs, DisplayWidth(remaining) + dw);
    assert Esc !in back + remaining + pad by {
      assert forall i :: 0 <= i < |remaining| ==> remaining[i] != Esc;
    }
    MovementPlain(back + remaining + pad, tail);
    assert Esc !in back + remaining;
    MovementPlain(back + remaining, pad);
    assert Esc !in back;
    MovementPlain(back, remaining);
    MovementRepeatChar(Bs, dw);
    MovementRepeatChar(' ', dw);
    MovementRepeatChar(Bs, DisplayWidth(remaining) + dw);
    MovementPrintable(remaining);
  }

  /** The backspace echo moves the cursor back over the deleted character. */
  lemma BackspaceEcho(e: Editor)
    requires WellFormed(e) && Printable(e.buffer)
    ensures var r := PressBackspace(e);
      Movement(Written(r.ops)) == DisplayWidth(r.next.buffer[..r.next.cursor]) - DisplayWidth(e.buffer[..e.cursor])
  {
    if e.cursor > 0 {
      var pos := e.cursor;
      var dw := Width(e.buffer[pos - 1]);
      var remaining := e.buffer[pos..];
      var text := Repeat(Bs, dw) + remaining + Repeat(' ', dw) + Repeat(Bs, DisplayWidth(remaining) + dw);
      var r := PressBackspace(e);
      assert r.ops == [Write(text)];
      assert r.next.buffer[..r.next.cursor] == e.buffer[..pos - 1];
      assert e.buffer[..pos] == e.buffer[..pos - 1] + [e.buffer[pos - 1]];
      hide PressBackspace, Movement;
      WrittenOne(text);
      assert Printable(remaining) by {
        assert forall i :: 0 <= i < |remaining| ==> remaining[i] == e.buffer[pos + i];
      }
      RedrawAfterDelete(dw, remaining);
      DisplayWidthAppend(e.buffer[..pos - 1], [e.buffer[pos - 1]]);
    }
  }

  /** The insertion echo moves the cursor past the inserted text. */
  lemma InsertEcho(e: Editor, data: string)
    requires WellFormed(e) && Printable(e.buffer) && Printable(data)
    ensures var r := InsertText(e, data);
      Movement(Written(r.ops)) == DisplayWidth(r.next.buffer[..r.next.cursor]) - DisplayWidth(e.buffer[..e.cursor])
  {
    var pos := e.cursor;
    var remaining := e.buffer[pos..];
    var after := DisplayWidth(remaining);
    var r := InsertText(e, data);
    var back := RepeatText(LeftKey, after);
    var rest: seq<TtyOp> := if after > 0 then [Write(back)] else [];
    assert r.ops == [Write(data + remaining)] + rest;
    WrittenThen(data + remaining, rest, back);
    assert Written(r.ops) == data + remaining + back;
    assert Printable(data + remaining) by {
      assert forall i :: 0 <= i < |remaining| ==> remaining[i] == e.buffer[pos + i];
    }
    assert Esc !in data + remaining by {
      assert forall i :: 0 <= i < |data + remaining| ==> (data + remaining)[i] != Esc;
    }
    MovementPlain(data + remaining, back);
    MovementPrintable(data + remaining);
    MovementRepeatKey(LeftKey, after, "");
    assert back + "" == back;
    DisplayWidthAppend(data, remaining);
    var front := e.buffer[..pos] + data;
    assert r.next.buffer == front + e.buffer[pos..];
    assert r.next.buffer[..r.next.cursor] == front;
    DisplayWidthAppend(e.buffer[..pos], data);
  }

  /** Moving through history or erasing the line: the echo ends right after
      the newly shown line. */
  lemma ReplaceEcho(e: Editor, r: Reaction, shown: string)
    requires WellFormed(e) && WellFormed(r.next) && Printable(shown)
    requires r.next.buffer == shown && r.next.cursor == |shown|
    requires r.ops == EraseLine(e.buffer, e.cursor) + [Write(shown)] || (shown == "" && r.ops == EraseLine(e.buffer, e.cursor))
    ensures Movement(Written(r.ops)) == DisplayWidth(r.next.buffer[..r.next.cursor]) - DisplayWidth(e.buffer[..e.cursor])
  {
    var erase := EraseLine(e.buffer, e.cursor);
    if r.ops == erase + [Write(shown)] {
      WrittenAppend(erase, [Write(shown)]);
      WrittenOne(shown);
    } else {
      assert Written(erase) + shown == Written(erase);
    }
    EraseMovement(e.buffer, e.cursor, shown);
    MovementPrintable(shown);
    assert r.next.buffer[..r.next.cursor] == shown;
  }

  predicate HistoryPrintable(e: Editor) {
    forall k :: 0 <= k < |e.history| ==> Printable(e.history[k])
  }

  lemma UpEcho(e: Editor)
    requires WellFormed(e) && HistoryPrintable(e)
    ensures var r := PressUp(e);
      Movement(Written(r.ops)) == DisplayWidth(r.next.buffer[..r.next.cursor]) - DisplayWidth(e.buffer[..e.cursor])
  {
    if |e.history| > 0 {
      var r := PressUp(e);
      ReplaceEcho(e, r, r.next.buffer);
    }
  }

  lemma DownEcho(e: Editor)
    requires WellFormed(e) && HistoryPrintable(e)
    ensures var r := PressDown(e);
      Movement(Written(r.ops)) == DisplayWidth(r.next.buffer[..r.next.cursor]) - DisplayWidth(e.buffer[..e.cursor])
  {
    if e.historyIndex != -1 {
      var r := PressDown(e);
      ReplaceEcho(e, r, r.next.buffer);
    }
  }

  lemma KillEcho(e: Editor)
    requires WellFormed(e)
    ensures var r := PressKill(e);
      Movement(Written(r.ops)) == DisplayWidth(r.next.buffer[..r.next.cursor]) - DisplayWidth(e.buffer[..e.cursor])
  {
    ReplaceEcho(e, PressKill(e), "");
  }

  lemma RightEcho(e: Editor)
    requires WellFormed(e)
    ensures var r := PressRight(e);
      Movement(Written(r.ops)) == DisplayWidth(r.next.buffer[..r.next.cursor]) - DisplayWidth(e.buffer[..e.cursor])
  {
    if e.cursor < |e.buffer| {
      var moves := RepeatText(RightKey, Width(e.buffer[e.cursor]));
      WrittenOne(moves);
      MovementRepeatKey(RightKey, Width(e.buffer[e.cursor]), "");
      assert moves + "" == moves;
      assert e.buffer[..e.cursor + 1] == e.buffer[..e.cursor] + [e.buffer[e.cursor]];
      DisplayWidthAppend(e.buffer[..e.cursor], [e.buffer[e.cursor]]);
    }
  }

  lemma LeftEcho(e: Editor)
    requires WellFormed(e)
    ensures var r := PressLeft(e);
      Movement(Written(r.ops)) == DisplayWidth(r.next.buffer[..r.next.cursor]) - DisplayWidth(e.buffer[..e.cursor])
  {
    if e.cursor > 0 {
      var moves := RepeatText(LeftKey, Width(e.buffer[e.cursor - 1]));
      WrittenOne(moves);
      MovementRepeatKey(LeftKey, Width(e.buffer[e.cursor - 1]), "");
      assert moves + "" == moves;
      assert e.buffer[..e.cursor] == e.buffer[..e.cursor - 1] + [e.buffer[e.cursor - 1]];
      DisplayWidthAppend(e.buffer[..e.cursor - 1], [e.buffer[e.cursor - 1]]);
    }
  }

  /** Nothing written, no movement. */
  lemma NoEcho()
    ensures Movement(Written([])) == 0
  {
  }

  /** For every editing key other than Enter and Ctrl-L, and for printable
      text, the echo moves the terminal cursor by exactly the change in the
      width of the text before the edit cursor, so the screen cursor stays
      over the edit cursor. */
  lemma EchoTracksCursor(e: Editor, data: string, prompt: string)
    requires WellFormed(e) && !e.executing && Printable(e.buffer) && HistoryPrintable(e)
    requires data != EnterKey && data != RedrawKey
    requires |data| >= 1 && data[0] >= ' ' ==> Printable(data)
    ensures var r := Input(e, data, false, prompt);
      Movement(Written(r.ops)) == DisplayWidth(r.next.buffer[..r.next.cursor]) - DisplayWidth(e.buffer[..e.cursor])
  {
    hide PressBackspace, PressUp, PressDown, PressRight, PressLeft, PressKill, InsertText, Movement, Written, DisplayWidth;
    if data == BackspaceKey {
      BackspaceEcho(e);
    } else if data == UpKey {
      UpEcho(e);
    } else if data == DownKey {
      DownEcho(e);
    } else if data == RightKey {
      RightEcho(e);
    } else if data == LeftKey {
      LeftEcho(e);
    } else if data == KillKey {
      KillEcho(e);
    } else if |data| >= 1 && data[0] >= ' ' {
      InsertEcho(e, data);
    } else {
      NoEcho();
    }
  }

  /** Ctrl-L clears the screen and redraws the prompt and the line; the
      cursor then goes back to where it was within the line. */
  lemma RedrawRestoresCursor(e: Editor, prompt: string)
    requires WellFormed(e) && !e.executing && Printable(e.buffer)
    ensures var r := Input(e, RedrawKey, false, prompt);
      r.next == e && r.ops[0] == ClearScreen && r.ops[1] == Write(prompt) &&
      Movement(Written(r.ops[2..])) == DisplayWidth(e.buffer[..e.cursor])
  {
    var r := Input(e, RedrawKey, false, prompt);
    var after := DisplayWidth(e.buffer[e.cursor..]);
    var back := if after > 0 then RepeatText(LeftKey, after) else "";
    var rest: seq<TtyOp> := if after > 0 then [Write(back)] else [];
    assert r.ops[2..] == [Write(e.buffer)] + rest;
    WrittenThen(e.buffer, rest, back);
    assert Esc !in e.buffer by {
      assert forall i :: 0 <= i < |e.buffer| ==> e.buffer[i] != Esc;
    }
    MovementPlain(e.buffer, back);
    MovementPrintable(e.buffer);
    MovementRepeatKey(LeftKey, after, "");
    assert RepeatText(LeftKey, after) + "" == RepeatText(LeftKey, after);
    WidthAtCursor(e.buffer, e.cursor);
  }

  /* ---------------- the finished command ---------------- */

  /** How `shell.execute` ended: with its output, or by throwing. */
  datatype Outcome = Completed(stdout: string, stderr: string) | Failed(message: string)

  const ClearMarker: string := [Esc] + "[clear]"
  const ExitMarker: string := [Esc] + "[exit]"
  const RedOn: string := [Esc] + "[31m"
  const ColorOff: string := [Esc] + "[0m"

  /** One output stream: nothing when it is empty, otherwise `shown`
      followed by a newline when the stream's own text `raw` does not end
      with one. */
  function StreamOps(shown: string, raw: string): seq<TtyOp> {
    if raw == "" then [] else [Write(shown)] + (if raw[|raw| - 1] == '\n' then [] else [Write("\n")])
  }

  lemma WrittenStream(shown: string, raw: string)
    ensures Written(StreamOps(shown, raw)) == if raw == "" then "" else shown + (if raw[|raw| - 1] == '\n' then "" else "\n")
  {
    if raw != "" {
      WrittenThen(shown, if raw[|raw| - 1] == '\n' then [] else [Write("\n")], "\n");
    }
  }

  /** The ordinary output: stdout, then stderr in red. */
  function ResultOps(stdout: string, stderr: string): seq<TtyOp> {
    StreamOps(stdout, stdout) + StreamOps(RedOn + stderr + ColorOff, stderr)
  }

  /** The writes `executeCommand` makes after the command, as written: the
      clear branch shows the prompt and returns, and the `finally` block then
      shows it a second time. The flag says whether the terminal is closed. */
  function CompletionAsWritten(o: Outcome, prompt: string): (seq<TtyOp>, bool) {
    match o
    case Failed(message) => ([Write(RedOn + "Error: " + message + ColorOff + "\n"), Write(prompt)], false)
    case Completed(stdout, stderr) =>
      if stdout == ClearMarker then ([ClearScreen, Write(prompt), Write(prompt)], false)
      else if stdout == ExitMarker then ([Write(prompt)], true)
      else (ResultOps(stdout, stderr) + [Write(prompt)], false)
  }

  /** The writes after the command with the prompt shown once after a
      clear. */
  function Completion(o: Outcome, prompt: string): (r: (seq<TtyOp>, bool))
    ensures |r.0| >= 1 && r.0[|r.0| - 1] == Write(prompt)
    ensures r.1 <==> o.Completed? && o.stdout == ExitMarker
  {
    match o
    case Failed(message) => ([Write(RedOn + "Error: " + message + ColorOff + "\n"), Write(prompt)], false)
    case Completed(stdout, stderr) =>
      if stdout == ClearMarker then ([ClearScreen, Write(prompt)], false)
      else if stdout == ExitMarker then ([Write(prompt)], true)
      else (ResultOps(stdout, stderr) + [Write(prompt)], false)
  }

  /** Everything written after the last clear of the screen. */
  function AfterClear(ops: seq<TtyOp>): string
    decreases |ops|
  {
    if |ops| == 0 then ""
    else if ops[|ops| - 1] == ClearScreen then ""
    else AfterClear(ops[..|ops| - 1]) + (match ops[|ops| - 1] case Write(t) => t case ClearScreen => "")
  }

  /** As written, `clear` leaves the prompt twice on the cleared screen. */
  lemma ClearShowsPromptTwiceAsWritten(prompt: string)
    ensures var (ops, closes) := CompletionAsWritten(Completed(ClearMarker, ""), prompt);
      AfterClear(ops) == prompt + prompt && !closes
  {
    var ops := CompletionAsWritten(Completed(ClearMarker, ""), prompt).0;
    assert ops == [ClearScreen, Write(prompt), Write(prompt)];
    assert ops[..2][..1] == [ClearScreen];
    assert AfterClear(ops[..2][..1]) == "";
    assert AfterClear(ops[..2]) == prompt;
  }

  /** With the prompt shown once, `clear` leaves exactly one prompt on the
      cleared screen. */
  lemma ClearShowsPromptOnce(prompt: string)
    ensures var (ops, closes) := Completion(Completed(ClearMarker, ""), prompt);
      ops[0] == ClearScreen && AfterClear(ops) == prompt && !closes
  {
    var ops := Completion(Completed(ClearMarker, ""), prompt).0;
    assert ops == [ClearScreen, Write(prompt)];
    assert ops[..1] == [ClearScreen];
    assert AfterClear(ops[..1]) == "";
  }

  /** Apart from `clear` and `exit`, the prompt comes after everything the
      command wrote, on a line of its own: the text before it is empty or
      ends with a newline, possibly followed by the colour reset. */
  lemma PromptOnFreshLine(o: Outcome, prompt: string)
    requires !(o.Completed? && (o.stdout == ClearMarker || o.stdout == ExitMarker))
    ensures var ops := Completion(o, prompt).0;
      exists before :: Written(ops) == before + prompt &&
        (before == "" || before[|before| - 1] == '\n' ||
         (|before| > |ColorOff| && before[|before| - |ColorOff|..] == ColorOff && before[|before| - |ColorOff| - 1] == '\n'))
  {
    var ops := Completion(o, prompt).0;
    match o {
    case Failed(message) =>
      var before := RedOn + "Error: " + message + ColorOff + "\n";
      WrittenThen(before, [Write(prompt)], prompt);
      assert before[|before| - 1] == '\n';
    case Completed(stdout, stderr) =>
      assert ops == ResultOps(stdout, stderr) + [Write(prompt)];
      hide Completion, ResultOps;
      WrittenAppend(ResultOps(stdout, stderr), [Write(prompt)]);
      WrittenOne(prompt);
      ResultEndsLine(stdout, stderr);
    }
  }

  /** The ordinary output is empty or ends a line, possibly followed by the
      colour reset. */
  lemma ResultEndsLine(stdout: string, stderr: string)
    ensures var before := Written(ResultOps(stdout, stderr));
      before == "" || before[|before| - 1] == '\n' ||
      (|before| > |ColorOff| && before[|before| - |ColorOff|..] == ColorOff && before[|before| - |ColorOff| - 1] == '\n')
  {
    var out := StreamOps(stdout, stdout);
    var err := StreamOps(RedOn + stderr + ColorOff, stderr);
    WrittenAppend(out, err);
    WrittenStream(stdout, stdout);
    WrittenStream(RedOn + stderr + ColorOff, stderr);
    var before := Written(out) + Written(err);
    hide Written, StreamOps;
    if stderr != "" && stderr[|stderr| - 1] == '\n' {
      assert before == Written(out) + RedOn + stderr + ColorOff;
      assert before[|before| - |ColorOff|..] == ColorOff;
      assert before[|before| - |ColorOff| - 1] == stderr[|stderr| - 1];
    } else if stderr != "" {
      assert before[|before| - 1] == '\n';
    } else if stdout != "" {
      assert before == Written(out);
      assert before[|before| - 1] == '\n';
    } else {
      assert before == "";
    }
  }

  /** The terminal's editing state, updated in place by each keystroke and
      by the end of each command. */
  class LineEditor {
    var buffer: string
    var cursor: nat
    var history: seq<string>
    var historyIndex: int
    var executing: bool

    function State(): Editor
      reads this
    {
      Editor(buffer, cursor, history, historyIndex, executing)
    }

    predicate Valid()
      reads this
    {
      WellFormed(State())
    }

    constructor ()
      ensures State() == Fresh && Valid()
    {
      buffer, cursor, history, historyIndex, executing := "", 0, [], -1, false;
    }

    /** Erase the displayed line: move to its end, then rub it out. */
    method EraseOps() returns (ops: seq<TtyOp>)
      requires Valid()
      ensures ops == EraseLine(buffer, cursor)
    {
      var after := GetDisplayWidth(buffer[cursor..]);
      var total := GetDisplayWidth(buffer);
      ops := [Write(RepeatText(RightKey, after)), Write(RepeatText(Rubout, total))];
    }

    /** Enter. */
    method Enter(prompt: string) returns (effect: Effect, ops: seq<TtyOp>)
      requires Valid() && !executing
      modifies this
      ensures Reaction(State(), effect, ops) == PressEnter(old(State()), prompt)
      ensures Valid()
    {
      var command := buffer;
      ops := [Write("\n")];
      effect := Idle;
      buffer, cursor := "", 0;
      if Trim(command) == "" {
        ops := ops + [Write("\n"), Write(prompt)];
      } else {
        executing := true;
        history := history + [command];
        historyIndex := -1;
        effect := Execute(command);
      }
    }

    /** Backspace. */
    method Backspace() returns (ops: seq<TtyOp>)
      requires Valid()
      modifies this
      ensures Reaction(State(), Idle, ops) == PressBackspace(old(State()))
      ensures Valid()
    {
      ops := [];
      var pos := cursor;
      if pos > 0 {
        var deleted := Width(buffer[pos - 1]);
        var remaining := buffer[pos..];
        var after := GetDisplayWidth(remaining);
        buffer := buffer[..pos - 1] + buffer[pos..];
        cursor := pos - 1;
        ops := [Write(Repeat(Bs, deleted) + remaining + Repeat(' ', deleted) + Repeat(Bs, after + deleted))];
      }
    }

    /** The up arrow. */
    method HistoryUp() returns (ops: seq<TtyOp>)
      requires Valid()
      modifies this
      ensures Reaction(State(), Idle, ops) == PressUp(old(State()))
      ensures Valid()
    {
      ops := [];
      if |history| > 0 {
        var index := if historyIndex == -1 then |history| - 1 else if historyIndex - 1 < 0 then 0 else historyIndex - 1;
        ops := EraseOps();
        historyIndex := index;
        var command := history[index];
        buffer, cursor := command, |command|;
        ops := ops + [Write(command)];
      }
    }

    /** The down arrow. */
    method HistoryDown() returns (ops: seq<TtyOp>)
      requires Valid()
      modifies this
      ensures Reaction(State(), Idle, ops) == PressDown(old(State()))
      ensures Valid()
    {
      ops := [];
      if historyIndex != -1 {
        ops := EraseOps();
        var index := historyIndex + 1;
        if index >= |history| {
          historyIndex, buffer, cursor := -1, "", 0;
        } else {
          historyIndex := index;
          var command := history[index];
          buffer, cursor := command, |command|;
          ops := ops + [Write(command)];
        }
      }
    }

    /** Ctrl-L. */
    method Redraw(prompt: string) returns (ops: seq<TtyOp>)
      requires Valid()
      ensures Reaction(State(), Idle, ops) == PressRedraw(State(), prompt)
    {
      ops := [ClearScreen, Write(prompt), Write(buffer)];
      var after := GetDisplayWidth(buffer[cursor..]);
      if after > 0 {
        ops := ops + [Write(RepeatText(LeftKey, after))];
      }
    }

    /** Printable data. */
    method Insert(data: string) returns (ops: seq<TtyOp>)
      requires Valid()
      modifies this
      ensures Reaction(State(), Idle, ops) == InsertText(old(State()), data)
      ensures Valid()
    {
      var pos := cursor;
      var remaining := buffer[pos..];
      var after := GetDisplayWidth(remaining);
      buffer := buffer[..pos] + data + buffer[pos..];
      cursor := pos + |data|;
      ops := [Write(data + remaining)];
      if after > 0 {
        ops := ops + [Write(RepeatText(LeftKey, after))];
      }
    }

    /** `handleInput` on the editor's own state. */
    method HandleInput(data: string, interactive: bool, prompt: string) returns (effect: Effect, ops: seq<TtyOp>)
      requires Valid()
      modifies this
      ensures Reaction(State(), effect, ops) == Input(old(State()), data, interactive, prompt)
      ensures Valid()
    {
      hide PressEnter, PressBackspace, PressUp, PressDown, PressRedraw, InsertText;
      effect, ops := Idle, [];
      if executing && interactive {
        if data == EofKey || data == InterruptKey {
          effect := SendEof;
        } else {
          effect := WriteStdin(data);
          if data == "\n" {
            ops := [Write("\n")];
          }
        }
      } else if executing {
      } else if data == EnterKey {
        effect, ops := Enter(prompt);
      } else if data == BackspaceKey {
        ops := Backspace();
      } else if data == UpKey {
        ops := HistoryUp();
      } else if data == DownKey {
        ops := HistoryDown();
      } else if data == RightKey {
        if cursor < |buffer| {
          var width := Width(buffer[cursor]);
          cursor := cursor + 1;
          ops := [Write(RepeatText(RightKey, width))];
        }
      } else if data == LeftKey {
        if cursor > 0 {
          var width := Width(buffer[cursor - 1]);
          cursor := cursor - 1;
          ops := [Write(RepeatText(LeftKey, width))];
        }
      } else if data == RedrawKey {
        ops := Redraw(prompt);
      } else if data == KillKey {
        ops := EraseOps();
        buffer, cursor := "", 0;
      } else if |data| >= 1 && data[0] >= ' ' {
        ops := Insert(data);
      }
    }

    /** The end of `executeCommand`: the command is no longer running, and
        the result and the prompt are written. */
    method FinishCommand(o: Outcome, prompt: string) returns (ops: seq<TtyOp>, closes: bool)
      requires Valid()
      modifies this
      ensures State() == old(State()).(executing := false) && Valid()
      ensures (ops, closes) == Completion(o, prompt)
    {
      closes := false;
      match o {
        case Failed(message) =>
          ops := [Write(RedOn + "Error: " + message + ColorOff + "\n")];
        case Completed(stdout, stderr) =>
          if stdout == ClearMarker {
            ops := [ClearScreen];
          } else if stdout == ExitMarker {
            ops := [];
            closes := true;
          } else {
            var out: seq<TtyOp> := [];
            if stdout != "" {
              out := [Write(stdout)];
              if stdout[|stdout| - 1] != '\n' {
                out := out + [Write("\n")];
              }
            }
            var err: seq<TtyOp> := [];
            if stderr != "" {
              err := [Write(RedOn + stderr + ColorOff)];
              if stderr[|stderr| - 1] != '\n' {
                err := err + [Write("\n")];
              }
            }
            assert out == StreamOps(stdout, stdout);
            assert err == StreamOps(RedOn + stderr + ColorOff, stderr);
            ops := out + err;
          }
      }
      executing := false;
      ops := ops + [Write(prompt)];
      assert ops == Completion(o, prompt).0;
    }
  }
}
