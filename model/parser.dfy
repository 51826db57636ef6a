/** The shell's parser: a cursor over the tokens that builds `&&`/`||`
    lists of pipelines of simple commands, reads `$VAR`, `${VAR}`,
    `${VAR:-default}` and `$(...)` inside words, and numbers the command
    substitutions in the order it meets them.

    Every parsing step is first a function over a `PState` (the cursor,
    the substitutions so far and the next id); the `Parser` class updates
    the same three fields in place and each of its methods is proved to
    agree with its function. */
module ShellParser {
  import opened Wrappers
  import opened Text
  import opened ShellAst
  import L = Lexer

  // ---- Words ----------------------------------------------------------------

  /** The characters of a `$NAME` reference. */
  predicate IsNameChar(c: char) {
    ('a' <= c <= 'z') || ('A' <= c <= 'Z') || ('0' <= c <= '9') || c == '_'
  }

  /** How many name characters start at `i`. */
  function NameLength(s: string, i: nat): (n: nat)
    requires i <= |s|
    ensures i + n <= |s|
    decreases |s| - i
  {
    if i < |s| && IsNameChar(s[i]) then 1 + NameLength(s, i + 1) else 0
  }

  /** How many characters start at `i` before `a`, `b` or the end. */
  function UpTo(s: string, i: nat, a: char, b: char): (n: nat)
    requires i <= |s|
    ensures i + n <= |s|
    decreases |s| - i
  {
    if i == |s| || s[i] == a || s[i] == b then 0 else 1 + UpTo(s, i + 1, a, b)
  }

  /** The body of `$( ... )` inside a word, from index `i` with `depth`
      parentheses open: the text up to the matching `)` and the index after
      it, or everything that is left when it is never closed. */
  function ParenBody(s: string, i: nat, depth: nat): (r: (string, nat))
    requires i <= |s| && depth >= 1
    ensures i <= r.1 <= |s|
    decreases |s| - i
  {
    if i == |s| then ("", i)
    else if s[i] == ')' && depth == 1 then ("", i + 1)
    else
      var d := if s[i] == '(' then depth + 1 else if s[i] == ')' then depth - 1 else depth;
      var r := ParenBody(s, i + 1, d);
      ([s[i]] + r.0, r.1)
  }

  /** `${NAME}` or `${NAME:-default}` from just after the `{`: the name runs
      to `}` or `:`, a default follows `:-` up to `}`, and a closing `}` is
      taken when present. The reference and the index after it. */
  function Braced(s: string, i: nat): (r: (EnvRef, nat))
    requires i <= |s|
    ensures i <= r.1 <= |s|
  {
    var j := i + UpTo(s, i, '}', ':');
    var d := DefaultAt(s, j);
    var k := if d.1 < |s| && s[d.1] == '}' then d.1 + 1 else d.1;
    (EnvRef(s[i..j], d.0), k)
  }

  /** After the name: `:-` and a default up to `}`; a `:` without `-` is
      dropped and gives no default. */
  function DefaultAt(s: string, j: nat): (r: (Option<string>, nat))
    requires j <= |s|
    ensures j <= r.1 <= |s|
  {
    if j < |s| && s[j] == ':' then
      if j + 1 < |s| && s[j + 1] == '-' then
        var m := UpTo(s, j + 2, '}', '}');
        (Some(s[j + 2..j + 2 + m]), j + 2 + m)
      else (None, j + 1)
    else (None, j)
  }

  /** The segments of a word and the substitutions it opens. */
  datatype Scan = Scan(segments: seq<WordSegment>, substitutions: seq<CommandSubstitution>)

  function Put(segs: seq<WordSegment>, subs: seq<CommandSubstitution>, sc: Scan): Scan {
    Scan(segs + sc.segments, subs + sc.substitutions)
  }

  lemma PutTwice(a: seq<WordSegment>, b: seq<CommandSubstitution>, c: seq<WordSegment>, d: seq<CommandSubstitution>, sc: Scan)
    ensures Put(a, b, Put(c, d, sc)) == Put(a + c, b + d, sc)
    ensures Put([], [], sc) == sc
  {
    assert a + (c + sc.segments) == (a + c) + sc.segments;
    assert b + (d + sc.substitutions) == (b + d) + sc.substitutions;
    assert [] + sc.segments == sc.segments;
    assert [] + sc.substitutions == sc.substitutions;
  }

  /** The pending literal as a segment, unless it is empty. */
  function Flush(lit: string): (r: seq<WordSegment>)
    ensures |r| <= 1
    ensures r == [] <==> lit == ""
  {
    if lit == "" then [] else [Literal(lit)]
  }

  /** `parse_word` from index `i` with the literal `lit` pending and `id`
      the next substitution id. A `$` always flushes the pending literal,
      even when it turns out to be a literal `$` itself. */
  function WordScan(s: string, i: nat, lit: string, id: nat): (r: Scan)
    requires i <= |s|
    decreases |s| - i
  {
    if i == |s| then Scan(Flush(lit), [])
    else if s[i] != '$' then WordScan(s, i + 1, lit + [s[i]], id)
    else if i + 1 < |s| && s[i + 1] == '(' then
      var b := ParenBody(s, i + 2, 1);
      Put(Flush(lit) + [CommandSubst(id)], [CommandSubstitution(id, b.0)], WordScan(s, b.1, "", id + 1))
    else if i + 1 < |s| && s[i + 1] == '{' then
      var b := Braced(s, i + 2);
      Put(Flush(lit) + [EnvVar(b.0)], [], WordScan(s, b.1, "", id))
    else if i + 1 < |s| && IsNameChar(s[i + 1]) then
      var n := NameLength(s, i + 1);
      Put(Flush(lit) + [EnvVar(EnvRef(s[i + 1..i + 1 + n], None))], [], WordScan(s, i + 1 + n, "", id))
    else Put(Flush(lit), [], WordScan(s, i + 1, "$", id))
  }

  /** `parse_word`: the segments, never none (an empty word is one empty
      literal), and the substitutions numbered from `id`. */
  function WordOf(s: string, id: nat): (ParsedWord, seq<CommandSubstitution>) {
    var sc := WordScan(s, 0, "", id);
    (ParsedWord(if sc.segments == [] then [Literal("")] else sc.segments), sc.substitutions)
  }

  // ---- Parser state -----------------------------------------------------------

  /** The parser's mutable fields: the cursor, the substitutions collected
      so far and the next substitution id. */
  datatype PState = PState(pos: nat, substs: seq<CommandSubstitution>, nextId: nat)

  /** `check`: the token under the cursor has the same variant as `t`. */
  predicate SameKind(a: L.Token, b: L.Token) {
    (a.Word? && b.Word?) || (a.SingleQuoted? && b.SingleQuoted?) || (a.DoubleQuoted? && b.DoubleQuoted?) ||
    (a.Pipe? && b.Pipe?) || (a.And? && b.And?) || (a.Or? && b.Or?) ||
    (a.RedirectOut? && b.RedirectOut?) || (a.RedirectAppend? && b.RedirectAppend?) || (a.RedirectIn? && b.RedirectIn?) ||
    (a.SubstStart? && b.SubstStart?) || (a.ParenClose? && b.ParenClose?) || (a.Newline? && b.Newline?)
  }

  predicate At(toks: seq<L.Token>, p: nat, t: L.Token) {
    p < |toks| && SameKind(toks[p], t)
  }

  /** `parse_word` on the parser: the word, with its substitutions appended
      and the id counter moved past them. */
  function WordAt(s: string, st: PState): (ParsedWord, PState) {
    var (w, subs) := WordOf(s, st.nextId);
    (w, PState(st.pos, st.substs + subs, st.nextId + |subs|))
  }

  const RedirectTargetError := "Expected redirect target"

  /** `parse_redirect_target`: a word or quoted string, or an error at the
      cursor. */
  function RedirectTarget(toks: seq<L.Token>, st: PState): (r: Result<(ParsedWord, PState), ParseError>)
    requires st.pos <= |toks|
    ensures r.Ok? ==> r.value.1.pos == st.pos + 1 && r.value.1.pos <= |toks|
  {
    if st.pos == |toks| then Err(ParseError(RedirectTargetError, st.pos))
    else match toks[st.pos]
      case Word(s) => var (w, st1) := WordAt(s, st); Ok((w, st1.(pos := st.pos + 1)))
      case SingleQuoted(s) => Ok((LiteralWord(s), st.(pos := st.pos + 1)))
      case DoubleQuoted(s) => var (w, st1) := WordAt(s, st); Ok((w, st1.(pos := st.pos + 1)))
      case _ => Err(ParseError(RedirectTargetError, st.pos))
  }

  /** `token_to_string` */
  function TokenToString(t: L.Token): string {
    match t
    case Word(s) => s
    case SingleQuoted(s) => "'" + s + "'"
    case DoubleQuoted(s) => "\"" + s + "\""
    case Pipe => "|"
    case And => "&&"
    case Or => "||"
    case RedirectOut => ">"
    case RedirectAppend => ">>"
    case RedirectIn => "<"
    case SubstStart => "$("
    case ParenClose => ")"
    case Newline => "\n"
  }

  /** `parse_command_substitution` before the final trim: the tokens up to
      the `)` that closes `depth` open substitutions written back as text
      (each followed by a space, the nested `$(` and `)` without one) and
      the cursor after them. */
  function SubstText(toks: seq<L.Token>, p: nat, depth: nat, content: string): (r: (string, nat))
    requires p <= |toks|
    ensures p <= r.1 <= |toks|
    decreases |toks| - p
  {
    if p == |toks| || depth == 0 then (content, p)
    else match toks[p]
      case SubstStart => SubstText(toks, p + 1, depth + 1, content + "$(")
      case ParenClose => SubstText(toks, p + 1, depth - 1, if depth - 1 > 0 then content + ")" else content)
      case t => SubstText(toks, p + 1, depth, content + TokenToString(t) + " ")
  }

  /** `parse_simple_command` from state `st` with `cmd` read so far: words
      and quoted strings become arguments, redirection operators take a
      target, `$(` records a substitution and stands for its result; any
      other token ends the command without being consumed. */
  function CommandFrom(toks: seq<L.Token>, st: PState, cmd: SimpleCommand): (r: Result<(SimpleCommand, PState), ParseError>)
    requires st.pos <= |toks|
    ensures r.Ok? ==> st.pos <= r.value.1.pos <= |toks|
    ensures r.Ok? && r.value.1.pos == st.pos ==> r.value.0 == cmd
    decreases |toks| - st.pos
  {
    if st.pos == |toks| then Ok((cmd, st))
    else match toks[st.pos]
      case Word(s) =>
        var (w, st1) := WordAt(s, st);
        CommandFrom(toks, st1.(pos := st.pos + 1), cmd.(args := cmd.args + [w]))
      case SingleQuoted(s) =>
        CommandFrom(toks, st.(pos := st.pos + 1), cmd.(args := cmd.args + [LiteralWord(s)]))
      case DoubleQuoted(s) =>
        var (w, st1) := WordAt(s, st);
        CommandFrom(toks, st1.(pos := st.pos + 1), cmd.(args := cmd.args + [w]))
      case RedirectOut => RedirectThen(toks, st, cmd, StdoutTo)
      case RedirectAppend => RedirectThen(toks, st, cmd, StdoutAppend)
      case RedirectIn => RedirectThen(toks, st, cmd, StdinFrom)
      case SubstStart =>
        var (text, p) := SubstText(toks, st.pos + 1, 1, "");
        var id := st.nextId;
        CommandFrom(toks, PState(p, st.substs + [CommandSubstitution(id, Trim(text))], id + 1),
                    cmd.(args := cmd.args + [ParsedWord([CommandSubst(id)])]))
      case _ => Ok((cmd, st))
  }

  /** One step of `CommandFrom` at `$(`. */
  lemma CommandFromSubst(toks: seq<L.Token>, st: PState, cmd: SimpleCommand, st2: PState, cmd2: SimpleCommand)
    requires st.pos < |toks| && toks[st.pos] == L.SubstStart
    requires var text := SubstText(toks, st.pos + 1, 1, "");
             st2 == PState(text.1, st.substs + [CommandSubstitution(st.nextId, Trim(text.0))], st.nextId + 1)
    requires cmd2 == cmd.(args := cmd.args + [ParsedWord([CommandSubst(st.nextId)])])
    ensures st2.pos <= |toks| && CommandFrom(toks, st, cmd) == CommandFrom(toks, st2, cmd2)
  {
    hide WordAt, RedirectThen, SubstText, Trim;
  }

  /** A redirection operator under the cursor, then its target. */
  function RedirectThen(toks: seq<L.Token>, st: PState, cmd: SimpleCommand, kind: RedirectKind): (r: Result<(SimpleCommand, PState), ParseError>)
    requires st.pos < |toks|
    ensures r.Ok? ==> st.pos < r.value.1.pos <= |toks|
    decreases |toks| - st.pos, 0
  {
    match RedirectTarget(toks, st.(pos := st.pos + 1))
    case Err(e) => Err(e)
    case Ok((target, st1)) => CommandFrom(toks, st1, cmd.(redirects := cmd.redirects + [Redirect(kind, target)]))
  }

  /** `parse_pipeline` with `cmds` read so far: simple commands separated
      by `|`. When nothing is consumed the pipeline is one empty command. */
  function PipelineFrom(toks: seq<L.Token>, st: PState, cmds: seq<SimpleCommand>): (r: Result<(Pipeline, PState), ParseError>)
    requires st.pos <= |toks|
    ensures r.Ok? ==> st.pos <= r.value.1.pos <= |toks|
    ensures r.Ok? ==> |r.value.0.commands| > |cmds| && r.value.0.commands[..|cmds|] == cmds
    ensures r.Ok? && r.value.1.pos == st.pos ==> r.value.0.commands == cmds + [EmptyCommand]
    decreases |toks| - st.pos
  {
    match CommandFrom(toks, st, EmptyCommand)
    case Err(e) => Err(e)
    case Ok((cmd, st1)) =>
      if At(toks, st1.pos, L.Pipe) then
        var r := PipelineFrom(toks, st1.(pos := st1.pos + 1), cmds + [cmd]);
        assert r.Ok? ==> r.value.0.commands[..|cmds|] == (cmds + [cmd])[..|cmds|];
        r
      else Ok((Pipeline(cmds + [cmd]), st1))
  }

  /** The check `parse` makes before keeping a pipeline: every command in it
      is empty (redirections alone do not count). */
  predicate AllEmpty(pl: Pipeline) {
    |pl.commands| == 0 || forall c :: c in pl.commands ==> IsEmptyCommand(c)
  }

  /** The cursor after the newlines at `p`. */
  function SkipNewlines(toks: seq<L.Token>, p: nat): (q: nat)
    requires p <= |toks|
    ensures p <= q <= |toks|
    ensures q == |toks| || !toks[q].Newline?
    decreases |toks| - p
  {
    if At(toks, p, L.Newline) then SkipNewlines(toks, p + 1) else p
  }

  /** What `parse` does: return, or loop for ever at a position where a
      pipeline is all empty and consumes nothing. */
  datatype ParseOutcome = Finished(result: Result<ParseResult, ParseError>) | Diverges(at: nat)

  /** The loop of `parse` from state `st`, with `connector` waiting for the
      next element and `elements` kept so far. An empty pipeline is
      skipped and keeps the waiting connector; after a kept pipeline `&&`
      or `||` sets the connector, a newline resets it, and anything else
      ends the list. */
  function ParseFrom(toks: seq<L.Token>, st: PState, connector: Connector, elements: seq<ConditionalElement>): ParseOutcome
    requires st.pos <= |toks|
    decreases |toks| - st.pos
  {
    var p := SkipNewlines(toks, st.pos);
    if p == |toks| then Finished(Ok(ParseResult(elements, st.substs)))
    else match PipelineFrom(toks, st.(pos := p), [])
      case Err(e) => Finished(Err(e))
      case Ok((pl, st1)) =>
        if AllEmpty(pl) then
          if st1.pos == p then Diverges(p)
          else ParseFrom(toks, st1, connector, elements)
        else
          var kept := elements + [ConditionalElement(connector, pl)];
          if At(toks, st1.pos, L.And) then ParseFrom(toks, st1.(pos := st1.pos + 1), And, kept)
          else if At(toks, st1.pos, L.Or) then ParseFrom(toks, st1.(pos := st1.pos + 1), Or, kept)
          else if At(toks, st1.pos, L.Newline) then ParseFrom(toks, st1, NoConnector, kept)
          else Finished(Ok(ParseResult(kept, st1.substs)))
  }

  /** How `ParseFrom` continues once the pipeline at the first non-newline
      token has been read. */
  lemma ParseFromStep(toks: seq<L.Token>, st: PState, connector: Connector, elements: seq<ConditionalElement>,
                      p: nat, pl: Pipeline, st1: PState)
    requires st.pos <= |toks| && p == SkipNewlines(toks, st.pos) < |toks|
    requires PipelineFrom(toks, st.(pos := p), []) == Ok((pl, st1))
    ensures p <= st1.pos <= |toks|
    ensures AllEmpty(pl) && st1.pos == p ==> ParseFrom(toks, st, connector, elements) == Diverges(p)
    ensures AllEmpty(pl) && st1.pos != p ==>
              ParseFrom(toks, st, connector, elements) == ParseFrom(toks, st1, connector, elements)
    ensures var kept := elements + [ConditionalElement(connector, pl)];
            !AllEmpty(pl) ==>
              ParseFrom(toks, st, connector, elements) ==
                if At(toks, st1.pos, L.And) then ParseFrom(toks, st1.(pos := st1.pos + 1), And, kept)
                else if At(toks, st1.pos, L.Or) then ParseFrom(toks, st1.(pos := st1.pos + 1), Or, kept)
                else if At(toks, st1.pos, L.Newline) then ParseFrom(toks, st1, NoConnector, kept)
                else Finished(Ok(ParseResult(kept, st1.substs)))
  {
    hide PipelineFrom, SkipNewlines, AllEmpty;
  }

  /** `ParseFrom` at the end of the tokens, and on a pipeline error. */
  lemma ParseFromStops(toks: seq<L.Token>, st: PState, connector: Connector, elements: seq<ConditionalElement>)
    requires st.pos <= |toks|
    ensures var p := SkipNewlines(toks, st.pos);
            p == |toks| ==> ParseFrom(toks, st, connector, elements) == Finished(Ok(ParseResult(elements, st.substs)))
    ensures var p := SkipNewlines(toks, st.pos);
            p < |toks| && PipelineFrom(toks, st.(pos := p), []).Err? ==>
              ParseFrom(toks, st, connector, elements) == Finished(Err(PipelineFrom(toks, st.(pos := p), []).error))
  {
  }

  const Start := PState(0, [], 0)

  /** `Parser::new(tokens).parse()` */
  function ParseTokens(toks: seq<L.Token>): ParseOutcome {
    ParseFrom(toks, Start, NoConnector, [])
  }

  /** `Parser::parse_input`: a tokenizer error becomes a parse error at
      position 0. */
  function ParseString(s: string): ParseOutcome {
    match L.Lex(s)
    case Err(e) => Finished(Err(ParseError(e, 0)))
    case Ok(toks) => ParseTokens(toks)
  }

  /** A method's result paired with the parser state it leaves, to compare
      with the step functions above (an error carries no state). */
  function WithState<X>(r: Result<X, ParseError>, st: PState): Result<(X, PState), ParseError> {
    match r
    case Ok(v) => Ok((v, st))
    case Err(e) => Err(e)
  }

  // ---- The parser -------------------------------------------------------------

  /** The `$( ... )` body inside a word: the loop that counts parentheses. */
  method TakeParenBody(s: string, start: nat) returns (content: string, next: nat)
    requires start <= |s|
    ensures (content, next) == ParenBody(s, start, 1)
  {
    var depth: nat := 1;
    var i := start;
    content := "";
    assert "" + ParenBody(s, start, 1).0 == ParenBody(s, start, 1).0;
    while i < |s|
      invariant start <= i <= |s| && depth >= 1
      invariant ParenBody(s, start, 1) == (content + ParenBody(s, i, depth).0, ParenBody(s, i, depth).1)
      decreases |s| - i
    {
      var c := s[i];
      ghost var tail := ParenBody(s, i, depth);
      if c == ')' && depth == 1 {
        assert tail == ("", i + 1);
        assert content + "" == content;
        return content, i + 1;
      }
      if c == '(' {
        depth := depth + 1;
      } else if c == ')' {
        depth := depth - 1;
      }
      assert tail.0 == [c] + ParenBody(s, i + 1, depth).0;
      assert content + ([c] + ParenBody(s, i + 1, depth).0) == (content + [c]) + ParenBody(s, i + 1, depth).0;
      content := content + [c];
      i := i + 1;
    }
    assert content + "" == content;
    return content, i;
  }

  /** The characters from `start` up to `a`, `b` or the end, and the index there. */
  method TakeUpTo(s: string, start: nat, a: char, b: char) returns (text: string, next: nat)
    requires start <= |s|
    ensures next == start + UpTo(s, start, a, b) && text == s[start..next]
  {
    var i := start;
    text := "";
    while i < |s| && s[i] != a && s[i] != b
      invariant start <= i <= |s| && text == s[start..i]
      invariant UpTo(s, start, a, b) == (i - start) + UpTo(s, i, a, b)
      decreases |s| - i
    {
      text := text + [s[i]];
      i := i + 1;
    }
    next := i;
  }

  /** `${NAME}` and `${NAME:-default}` inside a word, from just after `{`. */
  method TakeBraced(s: string, start: nat) returns (ref: EnvRef, next: nat)
    requires start <= |s|
    ensures (ref, next) == Braced(s, start)
  {
    var name, i := TakeUpTo(s, start, '}', ':');
    ghost var j0 := i;
    var default: Option<string> := None;
    if i < |s| && s[i] == ':' {
      i := i + 1;
      if i < |s| && s[i] == '-' {
        var d;
        d, i := TakeUpTo(s, i + 1, '}', '}');
        default := Some(d);
      }
    }
    assert (default, i) == DefaultAt(s, j0);
    if i < |s| && s[i] == '}' {
      i := i + 1;
    }
    return EnvRef(name, default), i;
  }

  /** `$NAME` inside a word: the loop over name characters. */
  method TakeName(s: string, start: nat) returns (name: string, next: nat)
    requires start <= |s|
    ensures next == start + NameLength(s, start) && name == s[start..next]
  {
    var i := start;
    name := "";
    while i < |s| && IsNameChar(s[i])
      invariant start <= i <= |s| && name == s[start..i]
      invariant NameLength(s, start) == (i - start) + NameLength(s, i)
      decreases |s| - i
    {
      name := name + [s[i]];
      i := i + 1;
    }
    return name, i;
  }

  /** `Parser`: the tokens, the cursor, the substitutions found so far and
      the id the next one gets. */
  class Parser {
    const tokens: seq<L.Token>
    var pos: nat
    var substitutions: seq<CommandSubstitution>
    var nextSubstId: nat

    /** `Parser::new` */
    constructor (tokens: seq<L.Token>)
      ensures this.tokens == tokens && State() == Start
    {
      this.tokens := tokens;
      pos := 0;
      substitutions := [];
      nextSubstId := 0;
    }

    function State(): PState
      reads this
    {
      PState(pos, substitutions, nextSubstId)
    }

    /** `check` */
    predicate Check(t: L.Token)
      reads this
    {
      At(tokens, pos, t)
    }

    /** `advance`: one token on, never past the end. */
    method Advance()
      modifies this
      ensures pos == if old(pos) < |tokens| then old(pos) + 1 else old(pos)
      ensures substitutions == old(substitutions) && nextSubstId == old(nextSubstId)
    {
      if pos < |tokens| {
        pos := pos + 1;
      }
    }

    /** `parse_word`: the word's segments, with its substitutions recorded
        under fresh ids. */
    method ParseWord(s: string) returns (w: ParsedWord)
      modifies this
      ensures (w, State()) == WordAt(s, old(State()))
    {
      ghost var id0 := nextSubstId;
      ghost var added: seq<CommandSubstitution> := [];
      var segments: seq<WordSegment> := [];
      var lit := "";
      var i := 0;
      PutTwice([], [], [], [], WordScan(s, 0, "", id0));
      assert substitutions == old(substitutions) + added;
      while i < |s|
        invariant 0 <= i <= |s|
        invariant pos == old(pos)
        invariant substitutions == old(substitutions) + added
        invariant nextSubstId == id0 + |added|
        invariant WordScan(s, 0, "", id0) == Put(segments, added, WordScan(s, i, lit, nextSubstId))
        decreases |s| - i
      {
        var c := s[i];
        if c != '$' {
          lit := lit + [c];
          i := i + 1;
          continue;
        }
        ghost var pre := segments;
        ghost var pending := lit;
        if lit != "" {
          segments := segments + [Literal(lit)];
          lit := "";
        }
        assert segments == pre + Flush(pending);
        var seg, next, sub := ParseDollar(s, i);
        ghost var found := if seg.Some? then [seg.value] else [];
        PutTwice(pre, added, Flush(pending) + found, sub, WordScan(s, next, if seg.Some? then "" else "$", nextSubstId));
        if seg.Some? {
          segments := segments + [seg.value];
        } else {
          lit := "$";
        }
        assert segments == pre + (Flush(pending) + found);
        added := added + sub;
        i := next;
      }
      if lit != "" {
        segments := segments + [Literal(lit)];
      }
      assert WordScan(s, 0, "", id0) == Scan(segments, added) by {
        assert added + [] == added;
      }
      if segments == [] {
        segments := [Literal("")];
      }
      return ParsedWord(segments);
    }

    /** The arm of `parse_word` after a `$`: a substitution, a braced or
        plain reference (the segment it adds), or a literal `$` (no
        segment). `sub` is the substitution it records, if any. */
    method ParseDollar(s: string, i: nat) returns (seg: Option<WordSegment>, next: nat, ghost sub: seq<CommandSubstitution>)
      requires i < |s| && s[i] == '$'
      modifies this
      ensures pos == old(pos) && substitutions == old(substitutions) + sub && nextSubstId == old(nextSubstId) + |sub|
      ensures i < next <= |s|
      ensures forall lit :: WordScan(s, i, lit, old(nextSubstId)) ==
                Put(Flush(lit) + (if seg.Some? then [seg.value] else []), sub, WordScan(s, next, if seg.Some? then "" else "$", nextSubstId))
    {
      if i + 1 < |s| && s[i + 1] == '(' {
        var content, after := TakeParenBody(s, i + 2);
        var id := nextSubstId;
        nextSubstId := nextSubstId + 1;
        substitutions := substitutions + [CommandSubstitution(id, content)];
        return Some(CommandSubst(id)), after, [CommandSubstitution(id, content)];
      } else if i + 1 < |s| && s[i + 1] == '{' {
        var ref, after := TakeBraced(s, i + 2);
        assert substitutions == old(substitutions) + [];
        return Some(EnvVar(ref)), after, [];
      } else if i + 1 < |s| && IsNameChar(s[i + 1]) {
        var name, after := TakeName(s, i + 1);
        assert substitutions == old(substitutions) + [];
        return Some(EnvVar(EnvRef(name, None))), after, [];
      } else {
        assert substitutions == old(substitutions) + [];
        assert forall lit :: Flush(lit) + [] == Flush(lit);
        return None, i + 1, [];
      }
    }

    /** `parse_redirect_target` */
    method ParseRedirectTarget() returns (r: Result<ParsedWord, ParseError>)
      requires pos <= |tokens|
      modifies this
      ensures pos <= |tokens|
      ensures WithState(r, State()) == RedirectTarget(tokens, old(State()))
    {
      if pos < |tokens| {
        match tokens[pos] {
          case Word(s) =>
            var w := ParseWord(s);
            Advance();
            return Ok(w);
          case SingleQuoted(s) =>
            var w := LiteralWord(s);
            Advance();
            return Ok(w);
          case DoubleQuoted(s) =>
            var w := ParseWord(s);
            Advance();
            return Ok(w);
          case _ =>
        }
      }
      return Err(ParseError(RedirectTargetError, pos));
    }

    /** `parse_command_substitution`: the tokens up to the matching `)`,
        written back as text and trimmed. */
    method ParseCommandSubstitution() returns (input: string)
      requires pos <= |tokens|
      modifies this
      ensures substitutions == old(substitutions) && nextSubstId == old(nextSubstId)
      ensures input == Trim(SubstText(tokens, old(pos), 1, "").0) && pos == SubstText(tokens, old(pos), 1, "").1
    {
      var content := "";
      var depth: nat := 1;
      while pos < |tokens| && depth > 0
        invariant pos <= |tokens|
        invariant substitutions == old(substitutions) && nextSubstId == old(nextSubstId)
        invariant SubstText(tokens, old(pos), 1, "") == SubstText(tokens, pos, depth, content)
        decreases |tokens| - pos
      {
        match tokens[pos] {
          case SubstStart =>
            depth := depth + 1;
            content := content + "$(";
          case ParenClose =>
            depth := depth - 1;
            if depth > 0 {
              content := content + ")";
            }
          case _ =>
            content := content + TokenToString(tokens[pos]) + " ";
        }
        Advance();
      }
      return Trim(content);
    }

    /** The `$(` arm of `parse_simple_command`: the substitution's text is
        recorded under the next id, which is returned. */
    method SubstitutionArgument() returns (id: nat)
      requires pos < |tokens| && tokens[pos] == L.SubstStart
      modifies this
      ensures pos <= |tokens|
      ensures var text := SubstText(tokens, old(pos) + 1, 1, "");
              id == old(nextSubstId) &&
              State() == PState(text.1, old(substitutions) + [CommandSubstitution(id, Trim(text.0))], id + 1)
    {
      Advance();
      var input := ParseCommandSubstitution();
      id := nextSubstId;
      nextSubstId := nextSubstId + 1;
      substitutions := substitutions + [CommandSubstitution(id, input)];
    }

    /** A word or quoted string under the cursor becomes the next argument. */
    method ArgumentStep(cmd: SimpleCommand) returns (next: SimpleCommand)
      requires pos < |tokens| && (tokens[pos].Word? || tokens[pos].SingleQuoted? || tokens[pos].DoubleQuoted?)
      modifies this
      ensures old(pos) < pos <= |tokens|
      ensures CommandFrom(tokens, old(State()), cmd) == CommandFrom(tokens, State(), next)
    {
      ghost var st := State();
      match tokens[pos] {
        case Word(s) =>
          var w := ParseWord(s);
          next := cmd.(args := cmd.args + [w]);
          Advance();
        case SingleQuoted(s) =>
          next := cmd.(args := cmd.args + [LiteralWord(s)]);
          Advance();
        case DoubleQuoted(s) =>
          var w := ParseWord(s);
          next := cmd.(args := cmd.args + [w]);
          Advance();
          assert State() == WordAt(s, st).1.(pos := st.pos + 1) && w == WordAt(s, st).0;
      }
    }

    /** A redirection operator under the cursor, then its target. */
    method RedirectStep(cmd: SimpleCommand, kind: RedirectKind) returns (r: Result<SimpleCommand, ParseError>)
      requires pos < |tokens|
      modifies this
      ensures pos <= |tokens| && (r.Ok? ==> old(pos) < pos)
      ensures r.Err? ==> RedirectThen(tokens, old(State()), cmd, kind) == Err(r.error)
      ensures r.Ok? ==> RedirectThen(tokens, old(State()), cmd, kind) == CommandFrom(tokens, State(), r.value)
    {
      ghost var st := State();
      Advance();
      var target := ParseRedirectTarget();
      if target.Err? {
        return Err(target.error);
      }
      assert RedirectTarget(tokens, st.(pos := st.pos + 1)) == Ok((target.value, State()));
      r := Ok(cmd.(redirects := cmd.redirects + [Redirect(kind, target.value)]));
    }

    /** `$(` under the cursor: the substitution is recorded and its
        placeholder becomes the next argument. */
    method SubstitutionStep(cmd: SimpleCommand) returns (next: SimpleCommand)
      requires pos < |tokens| && tokens[pos] == L.SubstStart
      modifies this
      ensures old(pos) < pos <= |tokens|
      ensures CommandFrom(tokens, old(State()), cmd) == CommandFrom(tokens, State(), next)
    {
      ghost var st := State();
      var id := SubstitutionArgument();
      next := cmd.(args := cmd.args + [ParsedWord([CommandSubst(id)])]);
      CommandFromSubst(tokens, st, cmd, State(), next);
    }

    /** `parse_simple_command` */
    method ParseSimpleCommand() returns (r: Result<SimpleCommand, ParseError>)
      requires pos <= |tokens|
      modifies this
      ensures pos <= |tokens|
      ensures WithState(r, State()) == CommandFrom(tokens, old(State()), EmptyCommand)
    {
      var cmd := EmptyCommand;
      while pos < |tokens|
        invariant pos <= |tokens|
        invariant CommandFrom(tokens, old(State()), EmptyCommand) == CommandFrom(tokens, State(), cmd)
        decreases |tokens| - pos
      {
        match tokens[pos] {
          case Word(_) =>
            cmd := ArgumentStep(cmd);
          case SingleQuoted(_) =>
            cmd := ArgumentStep(cmd);
          case DoubleQuoted(_) =>
            cmd := ArgumentStep(cmd);
          case RedirectOut =>
            var next := RedirectStep(cmd, StdoutTo);
            if next.Err? {
              return Err(next.error);
            }
            cmd := next.value;
          case RedirectAppend =>
            var next := RedirectStep(cmd, StdoutAppend);
            if next.Err? {
              return Err(next.error);
            }
            cmd := next.value;
          case RedirectIn =>
            var next := RedirectStep(cmd, StdinFrom);
            if next.Err? {
              return Err(next.error);
            }
            cmd := next.value;
          case SubstStart =>
            cmd := SubstitutionStep(cmd);
          case _ =>
            break;
        }
      }
      return Ok(cmd);
    }

    /** `parse_pipeline` */
    method ParsePipeline() returns (r: Result<Pipeline, ParseError>)
      requires pos <= |tokens|
      modifies this
      ensures pos <= |tokens|
      ensures WithState(r, State()) == PipelineFrom(tokens, old(State()), [])
    {
      var commands: seq<SimpleCommand> := [];
      while true
        invariant pos <= |tokens|
        invariant PipelineFrom(tokens, old(State()), []) == PipelineFrom(tokens, State(), commands)
        decreases |tokens| - pos
      {
        var cmd := ParseSimpleCommand();
        if cmd.Err? {
          return Err(cmd.error);
        }
        commands := commands + [cmd.value];
        if Check(L.Pipe) {
          Advance();
        } else {
          break;
        }
      }
      return Ok(Pipeline(commands));
    }

    /** `parse`. The source loops for ever where `ParseFrom` says `Diverges`,
        so that is excluded here; the substitutions are moved out into the
        result. */
    method Parse() returns (r: Result<ParseResult, ParseError>)
      requires pos <= |tokens|
      requires !ParseFrom(tokens, State(), NoConnector, []).Diverges?
      modifies this
      ensures Finished(r) == ParseFrom(tokens, old(State()), NoConnector, [])
    {
      hide ParseFrom, PipelineFrom;
      var elements: seq<ConditionalElement> := [];
      var connector := NoConnector;
      while true
        invariant pos <= |tokens|
        invariant ParseFrom(tokens, old(State()), NoConnector, []) == ParseFrom(tokens, State(), connector, elements)
        decreases |tokens| - pos
      {
        ghost var st := State();
        while Check(L.Newline)
          invariant st.pos <= pos <= |tokens|
          invariant SkipNewlines(tokens, pos) == SkipNewlines(tokens, st.pos)
          invariant State() == st.(pos := pos)
          decreases |tokens| - pos
        {
          Advance();
        }
        ParseFromStops(tokens, st, connector, elements);
        if pos >= |tokens| {
          break;
        }
        ghost var p := pos;
        var pipeline := ParsePipeline();
        if pipeline.Err? {
          return Err(pipeline.error);
        }
        ParseFromStep(tokens, st, connector, elements, p, pipeline.value, State());
        hide AllEmpty;
        if AllEmpty(pipeline.value) {
          assert pos != p;
          continue;
        }
        elements := elements + [ConditionalElement(connector, pipeline.value)];
        if Check(L.And) {
          Advance();
          connector := And;
        } else if Check(L.Or) {
          Advance();
          connector := Or;
        } else if Check(L.Newline) {
          connector := NoConnector;
        } else {
          break;
        }
      }
      r := Ok(ParseResult(elements, substitutions));
      substitutions := [];
    }
  }

  /** `Parser::parse_input`: tokenize, then parse; a tokenizer error is a
      parse error at position 0. */
  method ParseInput(input: string) returns (r: Result<ParseResult, ParseError>)
    requires !ParseString(input).Diverges?
    ensures Finished(r) == ParseString(input)
  {
    var lexed := L.Tokenize(input);
    if lexed.Err? {
      return Err(ParseError(lexed.error, 0));
    }
    var parser := new Parser(lexed.value);
    r := parser.Parse();
  }

  // ---- Words: properties ------------------------------------------------------

  /** Characters other than `$` only extend the pending literal. */
  lemma {:induction false} ScanPlainUpTo(s: string, i: nat, j: nat, lit: string, id: nat)
    requires i <= j <= |s| && forall k :: i <= k < j ==> s[k] != '$'
    ensures WordScan(s, i, lit, id) == WordScan(s, j, lit + s[i..j], id)
    decreases j - i
  {
    if i < j {
      ScanPlainUpTo(s, i + 1, j, lit + [s[i]], id);
      assert (lit + [s[i]]) + s[i + 1..j] == lit + s[i..j];
    } else {
      assert lit + s[i..j] == lit;
    }
  }

  /** A word without `$` is one literal, and an empty word one empty
      literal. */
  lemma WordWithoutDollar(s: string, id: nat)
    requires '$' !in s
    ensures WordOf(s, id) == (LiteralWord(s), [])
  {
    ScanPlainUpTo(s, 0, |s|, "", id);
    assert "" + s[0..|s|] == s;
  }

  lemma {:induction false} NameLengthAll(s: string, i: nat)
    requires i <= |s| && forall k :: i <= k < |s| ==> IsNameChar(s[k])
    ensures NameLength(s, i) == |s| - i
    decreases |s| - i
  {
    if i < |s| {
      NameLengthAll(s, i + 1);
    }
  }

  lemma {:induction false} UpToIs(s: string, i: nat, n: nat, a: char, b: char)
    requires i + n <= |s|
    requires forall k :: i <= k < i + n ==> s[k] != a && s[k] != b
    requires i + n == |s| || s[i + n] == a || s[i + n] == b
    ensures UpTo(s, i, a, b) == n
    decreases n
  {
    if n > 0 {
      UpToIs(s, i + 1, n - 1, a, b);
    }
  }

  /** `$NAME` is a reference without a default. */
  lemma WordVariable(name: string, id: nat)
    requires |name| > 0 && forall k :: 0 <= k < |name| ==> IsNameChar(name[k])
    ensures WordOf("$" + name, id) == (ParsedWord([EnvVar(EnvRef(name, None))]), [])
  {
    var s := "$" + name;
    NameLengthAll(s, 1);
    assert s[1..1 + |name|] == name;
    assert s[1] == name[0] && s[1] != '(' && s[1] != '{';
    assert WordScan(s, |s|, "", id) == Scan([], []);
    assert WordScan(s, 0, "", id) == Put([] + [EnvVar(EnvRef(name, None))], [], WordScan(s, |s|, "", id));
    assert WordScan(s, 0, "", id) == Scan([EnvVar(EnvRef(name, None))], []);
    assert [] + [EnvVar(EnvRef(name, None))] + [] == [EnvVar(EnvRef(name, None))];
  }

  /** `${NAME}` is a reference without a default. */
  lemma WordBraced(name: string, id: nat)
    requires '}' !in name && ':' !in name
    ensures WordOf("${" + name + "}", id) == (ParsedWord([EnvVar(EnvRef(name, None))]), [])
  {
    var s := "${" + name + "}";
    var j := 2 + |name|;
    UpToIs(s, 2, |name|, '}', ':');
    assert s[2..j] == name;
    assert DefaultAt(s, j) == (None, j);
    assert Braced(s, 2) == (EnvRef(name, None), |s|);
    assert WordScan(s, |s|, "", id) == Scan([], []);
    assert WordScan(s, 0, "", id) == Put([] + [EnvVar(EnvRef(name, None))], [], WordScan(s, |s|, "", id));
    assert WordScan(s, 0, "", id) == Scan([EnvVar(EnvRef(name, None))], []);
    assert [] + [EnvVar(EnvRef(name, None))] + [] == [EnvVar(EnvRef(name, None))];
  }

  /** `${NAME:-default}` is a reference with that default. */
  lemma WordBracedDefault(name: string, default: string, id: nat)
    requires '}' !in name && ':' !in name && '}' !in default
    ensures WordOf("${" + name + ":-" + default + "}", id) == (ParsedWord([EnvVar(EnvRef(name, Some(default)))]), [])
  {
    var s := "${" + name + ":-" + default + "}";
    var j := 2 + |name|;
    UpToIs(s, 2, |name|, '}', ':');
    assert s[2..j] == name;
    assert s[j] == ':' && s[j + 1] == '-';
    UpToIs(s, j + 2, |default|, '}', '}');
    assert s[j + 2..j + 2 + |default|] == default;
    assert DefaultAt(s, j) == (Some(default), j + 2 + |default|);
    assert Braced(s, 2) == (EnvRef(name, Some(default)), |s|);
    assert WordScan(s, |s|, "", id) == Scan([], []);
    assert WordScan(s, 0, "", id) == Put([] + [EnvVar(EnvRef(name, Some(default)))], [], WordScan(s, |s|, "", id));
    assert WordScan(s, 0, "", id) == Scan([EnvVar(EnvRef(name, Some(default)))], []);
    assert [] + [EnvVar(EnvRef(name, Some(default)))] + [] == [EnvVar(EnvRef(name, Some(default)))];
  }

  /** A `$` that starts no reference stays literal, but only after the text
      before it was flushed as a literal of its own. */
  lemma WordDollarAfterText(a: string, id: nat)
    requires a != "" && '$' !in a
    ensures WordOf(a + "$", id) == (ParsedWord([Literal(a), Literal("$")]), [])
  {
    var s := a + "$";
    ScanPlainUpTo(s, 0, |a|, "", id);
    assert "" + s[0..|a|] == a;
    hide *;
    WordScanLoneDollar(s, |a|, a, id);
    WordOfScan(s, id);
    assert [Literal(a)] + [Literal("$")] == [Literal(a), Literal("$")];
  }

  /** A `$` as the last character flushes the pending literal and stays literal. */
  lemma WordScanLoneDollar(s: string, i: nat, lit: string, id: nat)
    requires i + 1 == |s| && s[i] == '$' && lit != ""
    ensures WordScan(s, i, lit, id) == Scan([Literal(lit), Literal("$")], [])
  {
    assert WordScan(s, i + 1, "$", id) == Scan([Literal("$")], []);
  }

  /** `parse_word` on a scan that found segments. */
  lemma WordOfScan(s: string, id: nat)
    ensures WordScan(s, 0, "", id).segments != [] ==>
      WordOf(s, id) == (ParsedWord(WordScan(s, 0, "", id).segments), WordScan(s, 0, "", id).substitutions)
  {
  }

  /** The substitutions of a word are numbered from `id` on. */
  predicate IdsFrom(subs: seq<CommandSubstitution>, id: nat) {
    forall k :: 0 <= k < |subs| ==> subs[k].id == id + k
  }

  lemma {:induction false} ScanIds(s: string, i: nat, lit: string, id: nat)
    requires i <= |s|
    ensures IdsFrom(WordScan(s, i, lit, id).substitutions, id)
    decreases |s| - i
  {
    if i < |s| {
      if s[i] != '$' {
        ScanIds(s, i + 1, lit + [s[i]], id);
      } else if i + 1 < |s| && s[i + 1] == '(' {
        ScanIds(s, ParenBody(s, i + 2, 1).1, "", id + 1);
      } else if i + 1 < |s| && s[i + 1] == '{' {
        ScanIds(s, Braced(s, i + 2).1, "", id);
      } else if i + 1 < |s| && IsNameChar(s[i + 1]) {
        ScanIds(s, i + 1 + NameLength(s, i + 1), "", id);
      } else {
        ScanIds(s, i + 1, "$", id);
      }
    }
  }

  // ---- Parsing: properties ----------------------------------------------------

  /** The substitutions collected so far are numbered 0, 1, 2, ... and the
      next id is their count. */
  predicate Numbered(st: PState) {
    st.nextId == |st.substs| && IdsFrom(st.substs, 0)
  }

  lemma WordAtNumbered(s: string, st: PState)
    requires Numbered(st)
    ensures Numbered(WordAt(s, st).1) && WordAt(s, st).1.pos == st.pos
  {
    ScanIds(s, 0, "", st.nextId);
  }

  lemma {:induction false} CommandFromNumbered(toks: seq<L.Token>, st: PState, cmd: SimpleCommand)
    requires st.pos <= |toks| && Numbered(st)
    ensures CommandFrom(toks, st, cmd).Ok? ==> Numbered(CommandFrom(toks, st, cmd).value.1)
    decreases |toks| - st.pos
  {
    if st.pos < |toks| {
      match toks[st.pos]
      case Word(s) =>
        WordAtNumbered(s, st);
        CommandFromNumbered(toks, WordAt(s, st).1.(pos := st.pos + 1), cmd.(args := cmd.args + [WordAt(s, st).0]));
      case SingleQuoted(s) =>
        CommandFromNumbered(toks, st.(pos := st.pos + 1), cmd.(args := cmd.args + [LiteralWord(s)]));
      case DoubleQuoted(s) =>
        WordAtNumbered(s, st);
        CommandFromNumbered(toks, WordAt(s, st).1.(pos := st.pos + 1), cmd.(args := cmd.args + [WordAt(s, st).0]));
      case RedirectOut => RedirectThenNumbered(toks, st, cmd, StdoutTo);
      case RedirectAppend => RedirectThenNumbered(toks, st, cmd, StdoutAppend);
      case RedirectIn => RedirectThenNumbered(toks, st, cmd, StdinFrom);
      case SubstStart =>
        var text := SubstText(toks, st.pos + 1, 1, "");
        var st2 := PState(text.1, st.substs + [CommandSubstitution(st.nextId, Trim(text.0))], st.nextId + 1);
        var cmd2 := cmd.(args := cmd.args + [ParsedWord([CommandSubst(st.nextId)])]);
        CommandFromSubst(toks, st, cmd, st2, cmd2);
        CommandFromNumbered(toks, st2, cmd2);
      case _ =>
    }
  }

  lemma {:induction false} RedirectThenNumbered(toks: seq<L.Token>, st: PState, cmd: SimpleCommand, kind: RedirectKind)
    requires st.pos < |toks| && Numbered(st)
    ensures RedirectThen(toks, st, cmd, kind).Ok? ==> Numbered(RedirectThen(toks, st, cmd, kind).value.1)
    decreases |toks| - st.pos, 0
  {
    var st1 := st.(pos := st.pos + 1);
    if st1.pos < |toks| {
      match toks[st1.pos]
      case Word(s) => WordAtNumbered(s, st1);
      case DoubleQuoted(s) => WordAtNumbered(s, st1);
      case _ =>
    }
    match RedirectTarget(toks, st1)
    case Err(_) =>
    case Ok((target, st2)) =>
      CommandFromNumbered(toks, st2, cmd.(redirects := cmd.redirects + [Redirect(kind, target)]));
  }

  lemma {:induction false} PipelineFromNumbered(toks: seq<L.Token>, st: PState, cmds: seq<SimpleCommand>)
    requires st.pos <= |toks| && Numbered(st)
    ensures PipelineFrom(toks, st, cmds).Ok? ==> Numbered(PipelineFrom(toks, st, cmds).value.1)
    decreases |toks| - st.pos
  {
    CommandFromNumbered(toks, st, EmptyCommand);
    match CommandFrom(toks, st, EmptyCommand)
    case Err(_) =>
    case Ok((cmd, st1)) =>
      if At(toks, st1.pos, L.Pipe) {
        PipelineFromNumbered(toks, st1.(pos := st1.pos + 1), cmds + [cmd]);
      }
  }

  /** What a finished parse always satisfies: the elements kept so far stay
      in front, no kept pipeline is all empty, the first element has no
      connector, and the substitutions are numbered 0, 1, 2, ... */
  predicate WellFormed(r: ParseResult) {
    (forall e :: e in r.elements ==> !AllEmpty(e.pipeline)) &&
    (|r.elements| > 0 ==> r.elements[0].connector == NoConnector) &&
    IdsFrom(r.substitutions, 0)
  }

  lemma {:induction false} ParseFromWellFormed(toks: seq<L.Token>, st: PState, connector: Connector, elements: seq<ConditionalElement>)
    requires st.pos <= |toks| && Numbered(st)
    requires elements == [] ==> connector == NoConnector
    requires |elements| > 0 ==> elements[0].connector == NoConnector
    requires forall e :: e in elements ==> !AllEmpty(e.pipeline)
    ensures ParseFrom(toks, st, connector, elements).Finished? && ParseFrom(toks, st, connector, elements).result.Ok? ==>
              var r := ParseFrom(toks, st, connector, elements).result.value;
              WellFormed(r) && elements <= r.elements
    decreases |toks| - st.pos
  {
    var p := SkipNewlines(toks, st.pos);
    ParseFromStops(toks, st, connector, elements);
    hide ParseFrom, PipelineFrom, AllEmpty;
    if p < |toks| {
      PipelineFromNumbered(toks, st.(pos := p), []);
      match PipelineFrom(toks, st.(pos := p), [])
      case Err(_) =>
      case Ok((pl, st1)) =>
        ParseFromStep(toks, st, connector, elements, p, pl, st1);
        if AllEmpty(pl) {
          if st1.pos != p {
            ParseFromWellFormed(toks, st1, connector, elements);
          }
        } else {
          var kept := elements + [ConditionalElement(connector, pl)];
          KeptElements(elements, connector, pl);
          if At(toks, st1.pos, L.And) {
            ParseFromWellFormed(toks, st1.(pos := st1.pos + 1), And, kept);
          } else if At(toks, st1.pos, L.Or) {
            ParseFromWellFormed(toks, st1.(pos := st1.pos + 1), Or, kept);
          } else if At(toks, st1.pos, L.Newline) {
            ParseFromWellFormed(toks, st1, NoConnector, kept);
          }
        }
    }
  }

  /** Keeping a non-empty pipeline keeps what `ParseFromWellFormed` asks of
      the elements. */
  lemma KeptElements(elements: seq<ConditionalElement>, connector: Connector, pl: Pipeline)
    requires elements == [] ==> connector == NoConnector
    requires |elements| > 0 ==> elements[0].connector == NoConnector
    requires forall e :: e in elements ==> !AllEmpty(e.pipeline)
    requires !AllEmpty(pl)
    ensures var kept := elements + [ConditionalElement(connector, pl)];
            kept[0].connector == NoConnector && elements <= kept &&
            forall e :: e in kept ==> !AllEmpty(e.pipeline)
  {
  }

  /** A finished parse keeps no empty pipeline, gives the first element no
      connector and numbers the substitutions 0, 1, 2, ... in order. */
  lemma ParseWellFormed(toks: seq<L.Token>)
    ensures ParseTokens(toks).Finished? && ParseTokens(toks).result.Ok? ==> WellFormed(ParseTokens(toks).result.value)
  {
    ParseFromWellFormed(toks, Start, NoConnector, []);
  }

  /** A simple command that consumes nothing stops at the end or at a token
      that cannot start or continue a command. */
  lemma CommandStalls(toks: seq<L.Token>, st: PState, cmd: SimpleCommand)
    requires st.pos <= |toks|
    requires CommandFrom(toks, st, cmd).Ok? && CommandFrom(toks, st, cmd).value.1.pos == st.pos
    ensures st.pos == |toks| || toks[st.pos] in {L.Pipe, L.And, L.Or, L.ParenClose, L.Newline}
  {
    if st.pos < |toks| && toks[st.pos].SubstStart? {
      var text := SubstText(toks, st.pos + 1, 1, "");
      var st2 := PState(text.1, st.substs + [CommandSubstitution(st.nextId, Trim(text.0))], st.nextId + 1);
      CommandFromSubst(toks, st, cmd, st2, cmd.(args := cmd.args + [ParsedWord([CommandSubst(st.nextId)])]));
    }
  }

  /** `parse` loops for ever exactly at a `&&`, `||` or `)` where a pipeline
      should start: one direction here, the other in `DivergesAtOperator`. */
  lemma {:induction false} DivergesOnlyAtOperator(toks: seq<L.Token>, st: PState, connector: Connector, elements: seq<ConditionalElement>)
    requires st.pos <= |toks|
    ensures ParseFrom(toks, st, connector, elements).Diverges? ==>
              var p := ParseFrom(toks, st, connector, elements).at;
              p < |toks| && toks[p] in {L.And, L.Or, L.ParenClose}
    decreases |toks| - st.pos
  {
    var p := SkipNewlines(toks, st.pos);
    ParseFromStops(toks, st, connector, elements);
    hide ParseFrom, PipelineFrom, AllEmpty;
    if p < |toks| {
      match PipelineFrom(toks, st.(pos := p), [])
      case Err(_) =>
      case Ok((pl, st1)) =>
        ParseFromStep(toks, st, connector, elements, p, pl, st1);
        if AllEmpty(pl) {
          if st1.pos == p {
            PipelineStalls(toks, st.(pos := p), []);
            CommandStalls(toks, st.(pos := p), EmptyCommand);
          } else {
            DivergesOnlyAtOperator(toks, st1, connector, elements);
          }
        } else {
          var kept := elements + [ConditionalElement(connector, pl)];
          if At(toks, st1.pos, L.And) {
            DivergesOnlyAtOperator(toks, st1.(pos := st1.pos + 1), And, kept);
          } else if At(toks, st1.pos, L.Or) {
            DivergesOnlyAtOperator(toks, st1.(pos := st1.pos + 1), Or, kept);
          } else if At(toks, st1.pos, L.Newline) {
            DivergesOnlyAtOperator(toks, st1, NoConnector, kept);
          }
        }
    }
  }

  /** A pipeline that consumes nothing is a first command that consumes nothing. */
  lemma PipelineStalls(toks: seq<L.Token>, st: PState, cmds: seq<SimpleCommand>)
    requires st.pos <= |toks|
    ensures PipelineFrom(toks, st, cmds).Ok? && PipelineFrom(toks, st, cmds).value.1.pos == st.pos ==>
              CommandFrom(toks, st, EmptyCommand).Ok? && CommandFrom(toks, st, EmptyCommand).value.1.pos == st.pos
  {
  }

  /** Wherever a pipeline should start, after any newlines, a `&&`, `||`
      or `)` makes `parse` loop for ever at that token. */
  lemma DivergesAtOperator(toks: seq<L.Token>, st: PState, connector: Connector, elements: seq<ConditionalElement>)
    requires st.pos <= |toks|
    requires SkipNewlines(toks, st.pos) < |toks| && toks[SkipNewlines(toks, st.pos)] in {L.And, L.Or, L.ParenClose}
    ensures ParseFrom(toks, st, connector, elements) == Diverges(SkipNewlines(toks, st.pos))
  {
    var at := st.(pos := SkipNewlines(toks, st.pos));
    assert CommandFrom(toks, at, EmptyCommand) == Ok((EmptyCommand, at));
    assert PipelineFrom(toks, at, []) == Ok((Pipeline([EmptyCommand]), at));
  }

  /** So does any input that starts with `&&`. */
  lemma InputStartingWithAndDiverges(s: string)
    requires L.Lex(s).Ok?
    ensures ParseString("&&" + (" " + s)) == Diverges(0)
  {
    L.LexAndThen(s, L.Lex(s).value);
    DivergesAtOperator([L.And] + L.Lex(s).value, Start, NoConnector, []);
  }

  /** A redirection operator that is not followed by a word or a quoted
      string is an error at the position after the operator. */
  lemma RedirectNeedsTarget(toks: seq<L.Token>, st: PState, cmd: SimpleCommand)
    requires st.pos < |toks| && toks[st.pos] in {L.RedirectOut, L.RedirectAppend, L.RedirectIn}
    requires st.pos + 1 == |toks| || !(toks[st.pos + 1].Word? || toks[st.pos + 1].SingleQuoted? || toks[st.pos + 1].DoubleQuoted?)
    ensures CommandFrom(toks, st, cmd) == Err(ParseError(RedirectTargetError, st.pos + 1))
  {
  }

  // ---- Writing a substitution back as text ------------------------------------

  /** The tokens that `token_to_string` writes back so that the tokenizer
      reads them again unchanged: words without meta characters or `$(`,
      quoted text without its own quote (and, for double quotes, without a
      backslash). */
  predicate Renderable(t: L.Token) {
    match t
    case Word(w) => |w| > 0 && L.PlainWord(w)
    case SingleQuoted(w) => '\'' !in w
    case DoubleQuoted(w) => '"' !in w && '\\' !in w
    case _ => true
  }

  /** The text `parse_command_substitution` builds from tokens that open
      and close no substitution: each token written back, then a space. */
  function Render(ts: seq<L.Token>): (r: string)
    ensures ts == [] <==> r == ""
  {
    if ts == [] then "" else TokenToString(ts[0]) + " " + Render(ts[1..])
  }

  lemma LexOperatorThen(t: L.Token, rest: string)
    requires !t.Word? && !t.SingleQuoted? && !t.DoubleQuoted? && !t.Newline?
    ensures L.Lex(TokenToString(t) + " " + rest) == L.PrependAll([t], L.Lex(" " + rest))
  {
    hide L.Lex, L.LexAt, L.PrependAll;
    var op := TokenToString(t);
    var s := op + " " + rest;
    assert s == op + (" " + rest);
    assert s[|op|..] == " " + rest;
    assert s[0] == op[0] && s[1] == (if |op| == 2 then op[1] else ' ');
    assert L.SkipBlanks(s) == s;
    assert L.Operator(s) == Some((t, " " + rest));
    L.LexStep(s, t, " " + rest);
  }

  lemma LexSingleQuotedThen(w: string, rest: string)
    requires '\'' !in w
    ensures L.Lex(TokenToString(L.SingleQuoted(w)) + " " + rest) == L.PrependAll([L.SingleQuoted(w)], L.Lex(" " + rest))
  {
    var s := TokenToString(L.SingleQuoted(w)) + " " + rest;
    assert s == "'" + w + "'" + (" " + rest);
    L.NextTokenSingleQuoted(w, " " + rest);
    hide *;
    L.LexStep(s, L.SingleQuoted(w), " " + rest);
  }

  lemma LexDoubleQuotedThen(w: string, rest: string)
    requires '"' !in w && '\\' !in w
    ensures L.Lex(TokenToString(L.DoubleQuoted(w)) + " " + rest) == L.PrependAll([L.DoubleQuoted(w)], L.Lex(" " + rest))
  {
    var s := TokenToString(L.DoubleQuoted(w)) + " " + rest;
    assert s[1..] == L.Escape(w) + "\"" + (" " + rest);
    L.DecodeEscaped(w, " " + rest);
    assert L.SkipBlanks(s) == s;
    assert L.SingleQuotedToken(s).None?;
    assert L.DoubleQuotedToken(s) == Some((L.DoubleQuoted(w), " " + rest));
  }

  /** One written-back token, then the rest. */
  lemma LexTokenThen(t: L.Token, rest: string)
    requires Renderable(t)
    ensures L.Lex(TokenToString(t) + " " + rest) == L.PrependAll([t], L.Lex(rest))
  {
    hide L.Lex, L.LexAt, L.NextToken, L.SkipBlanks, L.PrependAll;
    L.LexBlankThen(rest);
    match t
    case Word(w) =>
      L.LexWord(w, " " + rest);
      assert TokenToString(t) + " " + rest == w + (" " + rest);
    case Newline =>
      L.LexBlankAndNewline(" " + rest);
      assert TokenToString(t) + " " + rest == "\n" + (" " + rest);
    case SingleQuoted(w) => LexSingleQuotedThen(w, rest);
    case DoubleQuoted(w) => LexDoubleQuotedThen(w, rest);
    case _ => LexOperatorThen(t, rest);
  }

  /** Written-back tokens are read back as the same tokens. */
  lemma {:induction false} RenderRoundTrip(ts: seq<L.Token>)
    requires forall k :: 0 <= k < |ts| ==> Renderable(ts[k])
    ensures L.Lex(Render(ts)) == Ok(ts)
    decreases |ts|
  {
    if ts == [] {
      assert L.Lex("") == Ok([]);
    } else {
      RenderRoundTrip(ts[1..]);
      LexTokenThen(ts[0], Render(ts[1..]));
      assert [ts[0]] + ts[1..] == ts;
    }
  }

  /** Up to the closing `)`, `parse_command_substitution` writes back the
      tokens it passes. */
  lemma {:induction false} SubstTextPlain(toks: seq<L.Token>, p: nat, n: nat, content: string)
    requires p + n < |toks| && toks[p + n] == L.ParenClose
    requires forall k :: p <= k < p + n ==> !toks[k].SubstStart? && !toks[k].ParenClose?
    ensures SubstText(toks, p, 1, content) == (content + Render(toks[p..p + n]), p + n + 1)
    decreases n
  {
    hide *;
    if n == 0 {
      SubstTextStep(toks, p, content);
      RenderFirst(toks, p, n);
      assert content + "" == content;
    } else {
      var piece := TokenToString(toks[p]) + " ";
      SubstTextStep(toks, p, content);
      RenderFirst(toks, p, n);
      SubstTextPlain(toks, p + 1, n - 1, content + piece);
      assert (content + piece) + Render(toks[p + 1..p + n]) == content + (piece + Render(toks[p + 1..p + n]));
    }
  }

  /** One token of `SubstText` at depth 1: `)` closes, a plain token is
      appended with a space. */
  lemma SubstTextStep(toks: seq<L.Token>, p: nat, content: string)
    requires p < |toks|
    ensures toks[p] == L.ParenClose ==> SubstText(toks, p, 1, content) == (content, p + 1)
    ensures !toks[p].SubstStart? && !toks[p].ParenClose? ==>
              SubstText(toks, p, 1, content) == SubstText(toks, p + 1, 1, content + (TokenToString(toks[p]) + " "))
  {
    assert content + TokenToString(toks[p]) + " " == content + (TokenToString(toks[p]) + " ");
  }

  /** Rendering a non-empty stretch of tokens: the first, a space, the rest. */
  lemma RenderFirst(toks: seq<L.Token>, p: nat, n: nat)
    requires p + n <= |toks|
    ensures n == 0 ==> Render(toks[p..p + n]) == ""
    ensures n > 0 ==> Render(toks[p..p + n]) == TokenToString(toks[p]) + " " + Render(toks[p + 1..p + n])
  {
    if n > 0 {
      assert toks[p..p + n][1..] == toks[p + 1..p + n];
    } else {
      assert toks[p..p + n] == [];
    }
  }

  /** The text recorded for `$( ... )` (before trimming) tokenizes back to
      the tokens between the parentheses. */
  lemma SubstitutionReparses(toks: seq<L.Token>, p: nat, n: nat)
    requires p + n < |toks| && toks[p + n] == L.ParenClose
    requires forall k :: p <= k < p + n ==> !toks[k].SubstStart? && !toks[k].ParenClose? && Renderable(toks[k])
    ensures SubstText(toks, p, 1, "").1 == p + n + 1
    ensures L.Lex(SubstText(toks, p, 1, "").0) == Ok(toks[p..p + n])
  {
    SubstTextPlain(toks, p, n, "");
    assert "" + Render(toks[p..p + n]) == Render(toks[p..p + n]);
    RenderRoundTrip(toks[p..p + n]);
  }

  // ---- The parser's own examples, for any plain words ---------------------------

  /** A word without `$`, followed by the end, `&&`, `||`, a newline or `)`,
      is a pipeline of one one-word command. */
  lemma PipelineOfWord(toks: seq<L.Token>, st: PState, a: string)
    requires st.pos < |toks| && toks[st.pos] == L.Word(a) && '$' !in a
    requires st.pos + 1 == |toks| || toks[st.pos + 1] in {L.And, L.Or, L.Newline, L.ParenClose}
    ensures PipelineFrom(toks, st, []) == Ok((Pipeline([SimpleCommand([LiteralWord(a)], [])]), st.(pos := st.pos + 1)))
  {
    WordWithoutDollar(a, st.nextId);
    assert st.substs + [] == st.substs;
    assert WordAt(a, st) == (LiteralWord(a), st);
    var one := SimpleCommand([LiteralWord(a)], []);
    assert EmptyCommand.(args := EmptyCommand.args + [LiteralWord(a)]) == one;
    assert CommandFrom(toks, st.(pos := st.pos + 1), one) == Ok((one, st.(pos := st.pos + 1)));
    assert CommandFrom(toks, st, EmptyCommand) == Ok((one, st.(pos := st.pos + 1)));
  }

  function OneWord(a: string): (p: Pipeline)
    ensures !AllEmpty(p)
  {
    var c := SimpleCommand([LiteralWord(a)], []);
    assert c in [c] && !IsEmptyCommand(c);
    Pipeline([c])
  }

  /** A plain word followed by the end or an operator is one element. */
  lemma ParseFromWord(toks: seq<L.Token>, st: PState, connector: Connector, elements: seq<ConditionalElement>, a: string)
    requires st.pos < |toks| && toks[st.pos] == L.Word(a) && '$' !in a
    requires st.pos + 1 == |toks| || toks[st.pos + 1] in {L.And, L.Or, L.Newline, L.ParenClose}
    ensures var kept := elements + [ConditionalElement(connector, OneWord(a))];
            ParseFrom(toks, st, connector, elements) ==
              if At(toks, st.pos + 1, L.And) then ParseFrom(toks, st.(pos := st.pos + 2), And, kept)
              else if At(toks, st.pos + 1, L.Or) then ParseFrom(toks, st.(pos := st.pos + 2), Or, kept)
              else if At(toks, st.pos + 1, L.Newline) then ParseFrom(toks, st.(pos := st.pos + 1), NoConnector, kept)
              else Finished(Ok(ParseResult(kept, st.substs)))
  {
    PipelineOfWord(toks, st, a);
    hide ParseFrom, PipelineFrom, CommandFrom, WordAt;
    ParseFromStep(toks, st, connector, elements, st.pos, OneWord(a), st.(pos := st.pos + 1));
  }

  /** `a && b || c` gives three elements joined by no connector, `&&` and
      `||`. */
  lemma AndOrConnectors(a: string, b: string, c: string)
    requires '$' !in a && '$' !in b && '$' !in c
    ensures ParseTokens([L.Word(a), L.And, L.Word(b), L.Or, L.Word(c)]) ==
            Finished(Ok(ParseResult([ConditionalElement(NoConnector, OneWord(a)), ConditionalElement(And, OneWord(b)), ConditionalElement(Or, OneWord(c))], [])))
  {
    var toks := [L.Word(a), L.And, L.Word(b), L.Or, L.Word(c)];
    var e1 := [ConditionalElement(NoConnector, OneWord(a))];
    var e2 := e1 + [ConditionalElement(And, OneWord(b))];
    var e3 := e2 + [ConditionalElement(Or, OneWord(c))];
    hide ParseFrom, PipelineFrom, CommandFrom, WordAt, OneWord;
    ParseFromWord(toks, Start.(pos := 4), Or, e2, c);
    ParseFromWord(toks, Start.(pos := 2), And, e1, b);
    ParseFromWord(toks, Start, NoConnector, [], a);
    assert [] + e1 == e1;
    assert e3 == [ConditionalElement(NoConnector, OneWord(a)), ConditionalElement(And, OneWord(b)), ConditionalElement(Or, OneWord(c))];
  }

  /** The same from the text `a && b || c`. */
  lemma AndOrInput(a: string, b: string, c: string)
    requires |a| > 0 && L.PlainWord(a) && '$' !in a
    requires |b| > 0 && L.PlainWord(b) && '$' !in b
    requires |c| > 0 && L.PlainWord(c) && '$' !in c
    ensures ParseString(a + " && " + b + " || " + c) ==
            Finished(Ok(ParseResult([ConditionalElement(NoConnector, OneWord(a)), ConditionalElement(And, OneWord(b)), ConditionalElement(Or, OneWord(c))], [])))
  {
    L.AndOrList(a, b, c);
    AndOrConnectors(a, b, c);
  }

  lemma TrimPadded(l: string)
    requires |l| > 0 && !IsSpace(l[0]) && !IsSpace(l[|l| - 1])
    ensures Trim(l + " ") == l
  {
    assert TrimStart(l + " ") == l + " ";
    assert (l + " ")[..|l|] == l;
    assert TrimEnd(l + " ") == TrimEnd(l) == l;
  }

  /** The text recorded for `$(l)`, and its trimmed form. */
  lemma SubstitutionExampleText(toks: seq<L.Token>, l: string)
    requires |l| > 0 && !IsSpace(l[0]) && !IsSpace(l[|l| - 1])
    requires |toks| == 4 && toks[2] == L.Word(l) && toks[3] == L.ParenClose
    ensures SubstText(toks, 2, 1, "") == (l + " ", 4) && Trim(l + " ") == l
  {
    SubstTextPlain(toks, 2, 1, "");
    assert toks[2..3] == [L.Word(l)];
    assert Render([L.Word(l)]) == l + " ";
    assert "" + (l + " ") == l + " ";
    TrimPadded(l);
  }

  /** The simple command of `e $(l)`. */
  lemma SubstitutionExampleCommand(toks: seq<L.Token>, e: string, l: string)
    requires '$' !in e && |l| > 0 && !IsSpace(l[0]) && !IsSpace(l[|l| - 1])
    requires toks == [L.Word(e), L.SubstStart, L.Word(l), L.ParenClose]
    ensures CommandFrom(toks, Start, EmptyCommand) ==
              Ok((SimpleCommand([LiteralWord(e), ParsedWord([CommandSubst(0)])], []), PState(4, [CommandSubstitution(0, l)], 1)))
  {
    var st1 := PState(1, [], 0);
    var c1 := SimpleCommand([LiteralWord(e)], []);
    var st2 := PState(4, [CommandSubstitution(0, l)], 1);
    var c2 := SimpleCommand([LiteralWord(e), ParsedWord([CommandSubst(0)])], []);
    SubstitutionExampleText(toks, l);
    WordWithoutDollar(e, 0);
    assert Start.substs + [] == Start.substs;
    assert WordAt(e, Start) == (LiteralWord(e), Start);
    assert [] + [CommandSubstitution(0, l)] == [CommandSubstitution(0, l)];
    assert c1.(args := c1.args + [ParsedWord([CommandSubst(0)])]) == c2;
    assert EmptyCommand.(args := EmptyCommand.args + [LiteralWord(e)]) == c1;
    CommandFromSubst(toks, st1, c1, st2, c2);
    assert CommandFrom(toks, Start, EmptyCommand) == CommandFrom(toks, st1, c1);
  }

  /** A command that ends the input is a pipeline of its own. */
  lemma PipelineOfCommand(toks: seq<L.Token>, st: PState, c: SimpleCommand, st1: PState)
    requires st.pos <= |toks| && st1.pos == |toks|
    requires CommandFrom(toks, st, EmptyCommand) == Ok((c, st1))
    ensures PipelineFrom(toks, st, []) == Ok((Pipeline([c]), st1))
  {
    assert [] + [c] == [c];
  }

  /** `e $(l)` gives one command whose second argument stands for
      substitution 0, whose input is `l`. */
  lemma SubstitutionExample(e: string, l: string)
    requires '$' !in e && |l| > 0 && !IsSpace(l[0]) && !IsSpace(l[|l| - 1])
    ensures ParseTokens([L.Word(e), L.SubstStart, L.Word(l), L.ParenClose]) ==
            Finished(Ok(ParseResult([ConditionalElement(NoConnector, Pipeline([SimpleCommand([LiteralWord(e), ParsedWord([CommandSubst(0)])], [])]))],
                                    [CommandSubstitution(0, l)])))
  {
    var toks := [L.Word(e), L.SubstStart, L.Word(l), L.ParenClose];
    var st2 := PState(4, [CommandSubstitution(0, l)], 1);
    var c2 := SimpleCommand([LiteralWord(e), ParsedWord([CommandSubst(0)])], []);
    SubstitutionExampleCommand(toks, e, l);
    hide *;
    PipelineOfCommand(toks, Start, c2, st2);
    assert c2 in [c2] && !IsEmptyCommand(c2);
    assert !AllEmpty(Pipeline([c2]));
    ParseFromStep(toks, Start, NoConnector, [], 0, Pipeline([c2]), st2);
    var el := ConditionalElement(NoConnector, Pipeline([c2]));
    assert [] + [el] == [el];
  }
}
