/** The shell's abstract syntax: words made of segments, simple commands
    with redirections, pipelines, `&&`/`||` lists and the command
    substitutions collected while parsing. The same shapes are exchanged
    with the TypeScript side. */
module ShellAst {
  import opened Wrappers

  /** `$VAR`, `${VAR}` or `${VAR:-default}`. */
  datatype EnvRef = EnvRef(name: string, default: Option<string>)

  /** A literal piece of text, a variable reference or the place of the
      command substitution with the given id. */
  datatype WordSegment = Literal(text: string) | EnvVar(ref: EnvRef) | CommandSubst(id: nat)

  datatype ParsedWord = ParsedWord(segments: seq<WordSegment>)

  /** `<`, `>` and `>>`. */
  datatype RedirectKind = StdinFrom | StdoutTo | StdoutAppend

  datatype Redirect = Redirect(kind: RedirectKind, target: ParsedWord)

  datatype SimpleCommand = SimpleCommand(args: seq<ParsedWord>, redirects: seq<Redirect>)

  datatype Pipeline = Pipeline(commands: seq<SimpleCommand>)

  /** How an element joins the one before it: the first element of a line
      has none, then `&&` or `||`. */
  datatype Connector = NoConnector | And | Or

  datatype ConditionalElement = ConditionalElement(connector: Connector, pipeline: Pipeline)

  datatype CommandSubstitution = CommandSubstitution(id: nat, input: string)

  datatype ParseResult = ParseResult(elements: seq<ConditionalElement>, substitutions: seq<CommandSubstitution>)

  datatype ParseError = ParseError(message: string, position: nat)

  /** `ParsedWord::is_empty`: no segments, or one empty literal. */
  predicate IsEmptyWord(w: ParsedWord) {
    |w.segments| == 0 || (|w.segments| == 1 && w.segments[0] == Literal(""))
  }

  /** `ParsedWord::literal`: one literal segment, empty exactly when the
      text is. */
  function LiteralWord(s: string): (w: ParsedWord)
    ensures |w.segments| == 1 && w.segments[0].Literal? && w.segments[0].text == s
    ensures IsEmptyWord(w) <==> s == ""
  {
    ParsedWord([Literal(s)])
  }

  /** `SimpleCommand::new` and `default` */
  const EmptyCommand := SimpleCommand([], [])

  /** `SimpleCommand::is_empty`: only the arguments matter, so a command
      made of redirections alone is empty. */
  predicate IsEmptyCommand(c: SimpleCommand) {
    |c.args| == 0
  }

  /** `Pipeline::new` and `default` */
  const EmptyPipeline := Pipeline([])

  /** `Pipeline::single` */
  function SinglePipeline(cmd: SimpleCommand): (p: Pipeline)
    ensures |p.commands| == 1 && p.commands[0] == cmd
  {
    Pipeline([cmd])
  }

  /** `ParseResult::new` and `default` */
  const EmptyResult := ParseResult([], [])

  /** `ParseResult::single`: one element without a connector, no substitutions. */
  function SingleResult(cmd: SimpleCommand): (r: ParseResult)
    ensures |r.elements| == 1 && r.elements[0].connector == NoConnector
    ensures r.elements[0].pipeline == SinglePipeline(cmd) && r.substitutions == []
  {
    ParseResult([ConditionalElement(NoConnector, SinglePipeline(cmd))], [])
  }
}
