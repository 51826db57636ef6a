/** The Markdown renderer: a flat stream of parser events (`Start tag`,
    `End`, text and inline events) is folded into a tree, each `Start`
    taking the following events up to its matching `End` as its children,
    and each node is then rendered by a per-tag decision (element, class,
    table-header cells, ordered lists, heading classes, code-block
    languages). */
module Markdown {
  import opened Wrappers
  import opened Text
  import opened OrderedMap

  datatype Tag =
    | Paragraph
    | Heading(level: int, id: Option<string>)
    | BlockQuote(kind: Option<string>)
    | CodeBlock(language: Option<string>)
    | List(startNumber: Option<int>)
    | Item
    | Emphasis
    | Strong
    | Strikethrough
    | Link(url: string, title: Option<string>)
    | Image(url: string, title: Option<string>)
    | Table(alignments: seq<string>)
    | TableHead
    | TableRow
    | TableCell
    | HtmlBlock
    | OtherTag(name: string)

  /** One parser event. The tag an `End` carries is never read, so it is not
      kept. */
  datatype Event =
    | Start(tag: Tag)
    | End
    | Text(content: string)
    | Code(content: string)
    | Html(content: string)
    | InlineHtml(content: string)
    | SoftBreak
    | HardBreak
    | Rule
    | TaskListMarker(checked: bool)
    | FootnoteReference(reference: string)
    | OtherEvent(name: string)

  /** A rendered node: an inline event, or a tag with its children. The key
      is the index of the event in the stream; `inTableHead` is the flag in
      force when the tag is rendered. */
  datatype Node =
    | Leaf(event: Event, key: nat)
    | Branch(tag: Tag, key: nat, inTableHead: bool, children: seq<Node>)

  /* ---------------- folding the event stream ---------------- */

  /** `processEvents` from index `i`: the nodes up to the `End` that closes
      this level (consumed) or the end of the stream, and the index after
      them. */
  function Collect(events: seq<Event>, i: nat, inHead: bool): (r: (seq<Node>, nat))
    requires i <= |events|
    ensures i <= r.1 <= |events|
    ensures i < |events| ==> i < r.1
    decreases |events| - i
  {
    if i == |events| then ([], i)
    else match events[i]
      case End => ([], i + 1)
      case Start(tag) =>
        var flag := inHead || tag.TableHead?;
        var inner := Collect(events, i + 1, flag);
        var rest := Collect(events, inner.1, inHead);
        ([Branch(tag, i, flag, inner.0)] + rest.0, rest.1)
      case _ =>
        var rest := Collect(events, i + 1, inHead);
        ([Leaf(events[i], i)] + rest.0, rest.1)
  }

  /** `eventsToReact`: the top level of the fold. */
  function Render(events: seq<Event>): seq<Node> {
    Collect(events, 0, false).0
  }

  /** The walk with its shared cursor and table-head flag. */
  class MarkdownFolder {
    const events: seq<Event>
    var index: nat
    var inTableHead: bool

    constructor (events: seq<Event>)
      ensures this.events == events && index == 0 && !inTableHead
    {
      this.events := events;
      index := 0;
      inTableHead := false;
    }

    /** `processEvents`: collects nodes until the closing `End` or the end of
        the stream; a `Start` recurses for its children with the flag set
        inside a table head, and restores the flag afterwards. */
    method ProcessEvents() returns (nodes: seq<Node>)
      requires index <= |events|
      modifies this
      decreases |events| - index
      ensures (nodes, index) == Collect(events, old(index), old(inTableHead))
      ensures inTableHead == old(inTableHead)
    {
      hide Collect;
      ghost var start := index;
      nodes := [];
      while index < |events|
        invariant start <= index <= |events|
        invariant inTableHead == old(inTableHead)
        invariant Collect(events, start, inTableHead).0 == nodes + Collect(events, index, inTableHead).0
        invariant Collect(events, start, inTableHead).1 == Collect(events, index, inTableHead).1
        decreases |events| - index
      {
        var event := events[index];
        if event.End? {
          CollectEnd(events, index, inTableHead);
          assert nodes + [] == nodes;
          index := index + 1;
          return;
        }
        if event.Start? {
          var startIndex := index;
          var wasInTableHead := inTableHead;
          if event.tag.TableHead? {
            inTableHead := true;
          }
          index := index + 1;
          var children := ProcessEvents();
          var element := Branch(event.tag, startIndex, inTableHead, children);
          inTableHead := wasInTableHead;
          CollectStart(events, startIndex, inTableHead);
          nodes := nodes + [element];
        } else {
          CollectLeaf(events, index, inTableHead);
          nodes := nodes + [Leaf(event, index)];
          index := index + 1;
        }
      }
      CollectExhausted(events, inTableHead);
      assert nodes + [] == nodes;
    }
  }

  /** `eventsToReact` run on a fresh walk. */
  method EventsToNodes(events: seq<Event>) returns (nodes: seq<Node>)
    ensures nodes == Render(events)
  {
    var folder := new MarkdownFolder(events);
    nodes := folder.ProcessEvents();
  }

  /* ---------------- the fold inverts flattening ---------------- */

  /** A document tree without positions. */
  datatype Tree = TLeaf(event: Event) | TBranch(tag: Tag, children: seq<Tree>)

  predicate Inline(e: Event) {
    !e.Start? && !e.End?
  }

  /** Trees whose leaves are inline events. */
  predicate WellFormed(ts: seq<Tree>)
    decreases ts
  {
    forall k :: 0 <= k < |ts| ==>
      match ts[k]
      case TLeaf(e) => Inline(e)
      case TBranch(_, cs) => WellFormed(cs)
  }

  /** The event stream of a tree: a branch is its `Start`, its children's
      events and an `End`. */
  function Flatten(ts: seq<Tree>): seq<Event>
    decreases ts
  {
    if |ts| == 0 then []
    else
      (match ts[0]
       case TLeaf(e) => [e]
       case TBranch(tag, cs) => [Start(tag)] + Flatten(cs) + [End]) + Flatten(ts[1..])
  }

  /** The tree of rendered nodes, without keys and flags. */
  function Erase(ns: seq<Node>): seq<Tree>
    decreases ns
  {
    if |ns| == 0 then []
    else
      [match ns[0]
       case Leaf(e, _) => TLeaf(e)
       case Branch(tag, _, _, cs) => TBranch(tag, Erase(cs))] + Erase(ns[1..])
  }

  lemma EraseAppend(a: seq<Node>, b: seq<Node>)
    ensures Erase(a + b) == Erase(a) + Erase(b)
  {
    if |a| > 0 {
      assert (a + b)[1..] == a[1..] + b;
      EraseAppend(a[1..], b);
    } else {
      assert a + b == b;
    }
  }

  lemma EraseBranch(tag: Tag, key: nat, flag: bool, cs: seq<Node>)
    ensures Erase([Branch(tag, key, flag, cs)]) == [TBranch(tag, Erase(cs))]
    ensures Erase([]) == []
  {
    assert [Branch(tag, key, flag, cs)][1..] == [];
  }

  lemma WellFormedTail(ts: seq<Tree>)
    requires |ts| > 0 && WellFormed(ts)
    ensures WellFormed(ts[1..])
  {
    assert forall k :: 0 <= k < |ts[1..]| ==> ts[1..][k] == ts[k + 1];
  }

  /** One leaf at the head of the stream. */
  lemma CollectLeaf(events: seq<Event>, i: nat, inHead: bool)
    requires i < |events| && Inline(events[i])
    ensures Collect(events, i, inHead).0 == [Leaf(events[i], i)] + Collect(events, i + 1, inHead).0
    ensures Collect(events, i, inHead).1 == Collect(events, i + 1, inHead).1
  {
  }

  /** One `Start` at the head of the stream. */
  lemma CollectStart(events: seq<Event>, i: nat, inHead: bool)
    requires i < |events| && events[i].Start?
    ensures var flag := inHead || events[i].tag.TableHead?;
      var inner := Collect(events, i + 1, flag);
      Collect(events, i, inHead).0 == [Branch(events[i].tag, i, flag, inner.0)] + Collect(events, inner.1, inHead).0 &&
      Collect(events, i, inHead).1 == Collect(events, inner.1, inHead).1
  {
  }

  /** The fold of a leaf's event. */
  lemma LeafStep(events: seq<Event>, i: nat, inHead: bool)
    requires i < |events| && Inline(events[i])
    ensures Erase(Collect(events, i, inHead).0) == [TLeaf(events[i])] + Erase(Collect(events, i + 1, inHead).0)
    ensures Collect(events, i, inHead).1 == Collect(events, i + 1, inHead).1
  {
    CollectLeaf(events, i, inHead);
    EraseAppend([Leaf(events[i], i)], Collect(events, i + 1, inHead).0);
  }

  /** The fold of a branch's events, given the fold of its children's. */
  lemma BranchStep(events: seq<Event>, i: nat, inHead: bool, tag: Tag, cs: seq<Tree>)
    requires i + 1 + |Flatten(cs)| < |events|
    requires events[i] == Start(tag) && events[i + 1 + |Flatten(cs)|] == End
    requires var flag := inHead || tag.TableHead?; var m := i + 1 + |Flatten(cs)|;
      Erase(Collect(events, i + 1, flag).0) == cs + Erase(Collect(events, m, flag).0) &&
      Collect(events, i + 1, flag).1 == Collect(events, m, flag).1
    ensures var j := i + 2 + |Flatten(cs)|;
      Erase(Collect(events, i, inHead).0) == [TBranch(tag, cs)] + Erase(Collect(events, j, inHead).0) &&
      Collect(events, i, inHead).1 == Collect(events, j, inHead).1
  {
    var flag := inHead || tag.TableHead?;
    var m := i + 1 + |Flatten(cs)|;
    CollectEnd(events, m, flag);
    assert cs + [] == cs;
    var inner := Collect(events, i + 1, flag);
    CollectStart(events, i, inHead);
    EraseAppend([Branch(tag, i, flag, inner.0)], Collect(events, m + 1, inHead).0);
  }

  /** The events of one tree. */
  function TreeEvents(t: Tree): seq<Event>
    ensures TreeEvents(t) == Flatten([t])
  {
    assert [t][1..] == [];
    match t
    case TLeaf(e) => [e]
    case TBranch(tag, cs) => [Start(tag)] + Flatten(cs) + [End]
  }

  /** Folding a stream that begins with the events of well-formed trees
      yields those trees, followed by whatever the rest of the stream folds
      to. */
  lemma {:induction false} FoldPrefix(events: seq<Event>, i: nat, inHead: bool, ts: seq<Tree>)
    requires WellFormed(ts)
    requires i + |Flatten(ts)| <= |events| && events[i..i + |Flatten(ts)|] == Flatten(ts)
    ensures var r := Collect(events, i, inHead); var s := Collect(events, i + |Flatten(ts)|, inHead);
      Erase(r.0) == ts + Erase(s.0) && r.1 == s.1
    decreases ts
  {
    hide Collect, Erase;
    if |ts| > 0 {
      WellFormedTail(ts);
      var head := TreeEvents(ts[0]);
      assert Flatten(ts) == head + Flatten(ts[1..]);
      var j := i + |head|;
      SliceSplit(events, i, head, Flatten(ts[1..]));
      FoldOne(events, i, inHead, ts[0]);
      FoldPrefix(events, j, inHead, ts[1..]);
      assert ts == [ts[0]] + ts[1..];
    } else {
      assert Flatten(ts) == [];
    }
  }

  /** `FoldPrefix` for one tree. */
  lemma {:induction false} FoldOne(events: seq<Event>, i: nat, inHead: bool, t: Tree)
    requires WellFormed([t])
    requires i + |TreeEvents(t)| <= |events| && events[i..i + |TreeEvents(t)|] == TreeEvents(t)
    ensures var r := Collect(events, i, inHead); var s := Collect(events, i + |TreeEvents(t)|, inHead);
      Erase(r.0) == [t] + Erase(s.0) && r.1 == s.1
    decreases t
  {
    hide Collect, Erase;
    match t
    case TLeaf(e) =>
      assert events[i] == TreeEvents(t)[0];
      assert Inline(e) by { assert [t][0] == t; }
      LeafStep(events, i, inHead);
    case TBranch(tag, cs) =>
      assert WellFormed(cs) by { assert [t][0] == t; }
      SliceSplit(events, i, [Start(tag)], Flatten(cs) + [End]);
      SliceSplit(events, i + 1, Flatten(cs), [End]);
      var flag := inHead || tag.TableHead?;
      FoldPrefix(events, i + 1, flag, cs);
      BranchStep(events, i, inHead, tag, cs);
  }

  /** A slice equal to a concatenation splits into slices equal to its
      parts. */
  lemma SliceSplit(events: seq<Event>, i: nat, a: seq<Event>, b: seq<Event>)
    requires i + |a + b| <= |events| && events[i..i + |a + b|] == a + b
    ensures events[i..i + |a|] == a && events[i + |a|..i + |a| + |b|] == b
  {
    var s := events[i..i + |a + b|];
    assert events[i..i + |a|] == s[..|a|];
    assert events[i + |a|..i + |a| + |b|] == s[|a|..];
    assert s[..|a|] == a && s[|a|..] == b;
  }

  /** The end of the stream closes every level. */
  lemma CollectExhausted(events: seq<Event>, inHead: bool)
    ensures Collect(events, |events|, inHead) == ([], |events|)
  {
  }

  /** An `End` closes the current level. */
  lemma CollectEnd(events: seq<Event>, i: nat, inHead: bool)
    requires i < |events| && events[i] == End
    ensures Collect(events, i, inHead) == ([], i + 1)
  {
  }

  /** Rendering the events of well-formed trees gives back the trees. */
  lemma RenderFlatten(ts: seq<Tree>)
    requires WellFormed(ts)
    ensures Erase(Render(Flatten(ts))) == ts
  {
    var events := Flatten(ts);
    assert events[0..|events|] == events;
    FoldPrefix(events, 0, false, ts);
    assert Erase([]) == [];
  }

  /** An `End` with no open `Start` ends rendering: whatever follows it is
      dropped. */
  lemma StrayEndDiscards(ts: seq<Tree>, rest: seq<Event>)
    requires WellFormed(ts)
    ensures Erase(Render(Flatten(ts) + [End] + rest)) == ts
  {
    var events := Flatten(ts) + [End] + rest;
    assert events[0..|Flatten(ts)|] == Flatten(ts);
    FoldPrefix(events, 0, false, ts);
    CollectEnd(events, |Flatten(ts)|, false);
    assert Erase([]) == [];
  }

  /** A `Start` that is never closed takes every remaining event as its
      children. */
  lemma UnclosedStartTakesRest(ts: seq<Tree>, tag: Tag, cs: seq<Tree>)
    requires WellFormed(ts) && WellFormed(cs)
    ensures Erase(Render(Flatten(ts) + [Start(tag)] + Flatten(cs))) == ts + [TBranch(tag, cs)]
  {
    hide Collect, Erase, Flatten;
    var events := Flatten(ts) + [Start(tag)] + Flatten(cs);
    var p := |Flatten(ts)|;
    assert events[0..p] == Flatten(ts);
    FoldPrefix(events, 0, false, ts);
    var flag := tag.TableHead?;
    assert events[p + 1..p + 1 + |Flatten(cs)|] == Flatten(cs);
    FoldPrefix(events, p + 1, flag, cs);
    CollectExhausted(events, flag);
    CollectExhausted(events, false);
    CollectStart(events, p, false);
    var inner := Collect(events, p + 1, flag);
    EraseBranch(tag, p, flag, inner.0);
    assert cs + [] == cs;
    assert [Branch(tag, p, flag, inner.0)] + [] == [Branch(tag, p, flag, inner.0)];
  }

  /* ---------------- the table-head flag ---------------- */

  /** Every rendered tag records whether it lies inside a `TableHead`
      subtree (itself included), given that its surroundings are `inHead`. */
  predicate FlagsMatch(ns: seq<Node>, inHead: bool)
    decreases ns
  {
    forall k :: 0 <= k < |ns| ==>
      match ns[k]
      case Leaf(_, _) => true
      case Branch(tag, _, flag, cs) => flag == (inHead || tag.TableHead?) && FlagsMatch(cs, flag)
  }

  lemma FlagsMatchCons(n: Node, ns: seq<Node>, inHead: bool)
    requires FlagsMatch([n], inHead) && FlagsMatch(ns, inHead)
    ensures FlagsMatch([n] + ns, inHead)
  {
    assert forall k :: 1 <= k < |[n] + ns| ==> ([n] + ns)[k] == ns[k - 1];
  }

  /** The fold keeps the flag true exactly inside table heads, whatever the
      stream. */
  lemma {:induction false} TableHeadFlag(events: seq<Event>, i: nat, inHead: bool)
    requires i <= |events|
    ensures FlagsMatch(Collect(events, i, inHead).0, inHead)
    decreases |events| - i
  {
    if i < |events| {
      match events[i]
      case End =>
      case Start(tag) =>
        var flag := inHead || tag.TableHead?;
        var inner := Collect(events, i + 1, flag);
        TableHeadFlag(events, i + 1, flag);
        TableHeadFlag(events, inner.1, inHead);
        FlagsMatchCons(Branch(tag, i, flag, inner.0), Collect(events, inner.1, inHead).0, inHead);
      case _ =>
        TableHeadFlag(events, i + 1, inHead);
        FlagsMatchCons(Leaf(events[i], i), Collect(events, i + 1, inHead).0, inHead);
    }
  }

  /** A table cell is a header cell exactly under a table head. */
  function CellElement(inTableHead: bool): (name: string)
    ensures name == "th" || name == "td"
  {
    if inTableHead then "th" else "td"
  }

  /** Below a table head every cell is a header cell; outside one, a
      cell directly at the level is a data cell. */
  lemma CellKinds(ns: seq<Node>, inHead: bool, k: nat)
    requires FlagsMatch(ns, inHead) && k < |ns| && ns[k].Branch? && ns[k].tag == TableCell
    ensures CellElement(ns[k].inTableHead) == if inHead then "th" else "td"
  {
  }

  /* ---------------- per-tag decisions ---------------- */

  /** A list is ordered exactly when it has a start number (zero included). */
  function ListElement(startNumber: Option<int>): (name: string)
    ensures name == "ol" <==> startNumber.Some?
    ensures name == "ol" || name == "ul"
  {
    if startNumber.Some? then "ol" else "ul"
  }

  lemma ListExamples()
    ensures ListElement(Some(1)) == "ol" && ListElement(Some(0)) == "ol" && ListElement(None) == "ul"
  {
  }

  const HeadingClasses: seq<string> := [
    "text-2xl font-bold text-term-keyword mt-4 mb-2",
    "text-xl font-bold text-term-keyword mt-3.5 mb-1.5",
    "text-lg font-bold text-term-keyword mt-3 mb-1",
    "text-base font-bold text-term-keyword mt-2.5 mb-1",
    "text-sm font-bold text-term-keyword mt-2 mb-1",
    "text-sm font-bold text-term-keyword mt-2 mb-1"
  ]

  /** The heading class: the level's own for levels 1 to 6, the level-4
      class for any other. */
  function HeadingClass(level: int): (c: string)
    ensures 1 <= level <= 6 ==> c == HeadingClasses[level - 1]
    ensures !(1 <= level <= 6) ==> c == HeadingClasses[3]
  {
    if 1 <= level <= 6 then HeadingClasses[level - 1] else HeadingClasses[3]
  }

  /** The heading element name, `h` followed by the level as written. */
  function HeadingElement(level: int): (name: string)
    ensures |name| >= 2 && name[0] == 'h'
  {
    if level >= 0 then "h" + Decimal(level) else "h-" + Decimal(-level)
  }

  /** The code-block language aliases. */
  const Aliases: map<string, string> := map[
    "js" := "javascript", "ts" := "typescript", "sh" := "bash", "shell" := "bash",
    "py" := "python", "yml" := "yaml", "rs" := "rust"
  ]

  /** `aliases[language || ''] || language`. */
  function EffectiveLanguage(language: Option<string>): (r: Option<string>)
    ensures language.None? ==> r.None?
    ensures language.Some? && language.value in Aliases ==> r == Some(Aliases[language.value])
    ensures language.Some? && language.value !in Aliases ==> r == language
  {
    match language
    case None => None
    case Some(l) => if l in Aliases then Some(Aliases[l]) else Some(l)
  }

  /** How a code block shows its code: as it is, or highlighted with a
      grammar. */
  datatype CodeView = Raw(code: string) | Highlighted(code: string, grammar: string)

  /** `highlightCodeToElements`: no language, an empty one, or one with no
      grammar (`known` says which grammars are loaded) leave the code raw. */
  function Highlight(code: string, language: Option<string>, known: string -> bool): (v: CodeView)
    ensures v.code == code
    ensures v.Highlighted? <==> EffectiveLanguage(language).Some? && EffectiveLanguage(language).value != "" && known(EffectiveLanguage(language).value)
    ensures v.Highlighted? ==> v.grammar == EffectiveLanguage(language).value
  {
    match EffectiveLanguage(language)
    case None => Raw(code)
    case Some(l) => if l == "" || !known(l) then Raw(code) else Highlighted(code, l)
  }

  /** Each alias resolves to its grammar. */
  lemma AliasExamples()
    ensures EffectiveLanguage(Some("js")) == Some("javascript")
    ensures EffectiveLanguage(Some("ts")) == Some("typescript")
    ensures EffectiveLanguage(Some("sh")) == Some("bash") && EffectiveLanguage(Some("shell")) == Some("bash")
    ensures EffectiveLanguage(Some("py")) == Some("python") && EffectiveLanguage(Some("yml")) == Some("yaml")
    ensures EffectiveLanguage(Some("rs")) == Some("rust")
  {
  }

  /** Other names are kept; no language, an empty one, or a name without a
      loaded grammar give the raw code. */
  lemma RawCodeExamples(code: string, known: string -> bool)
    ensures EffectiveLanguage(Some("go")) == Some("go")
    ensures !known("go") ==> Highlight(code, Some("go"), known) == Raw(code)
    ensures known("go") ==> Highlight(code, Some("go"), known) == Highlighted(code, "go")
    ensures Highlight(code, None, known) == Raw(code) && Highlight(code, Some(""), known) == Raw(code)
  {
    assert "go" !in Aliases by {
      assert forall k :: k in Aliases ==> |k| != 2 || k[0] != 'g';
    }
    assert "" !in Aliases;
  }

  /* ---------------- text content ---------------- */

  /** `extractTextContent`: the text of a node list as the renderer reads it
      back from its own elements. Text, inline code and HTML give their
      content, a soft break a space, a footnote reference its bracketed
      label; a code block gives its language label and its code; a table
      head (one row element inside) and elements without children give
      nothing; other tags give their children's text. */
  function TextContent(ns: seq<Node>): string
    decreases ns
  {
    if |ns| == 0 then ""
    else NodeText(ns[0]) + TextContent(ns[1..])
  }

  function NodeText(n: Node): string
    decreases n
  {
    match n
    case Leaf(e, _) =>
      (match e
       case Text(c) => c
       case Code(c) => c
       case Html(c) => c
       case InlineHtml(c) => c
       case SoftBreak => " "
       case FootnoteReference(reference) => "[" + reference + "]"
       case _ => "")
    case Branch(tag, _, _, cs) =>
      (match tag
       case TableHead => ""
       case Image(_, _) => ""
       case CodeBlock(language) => (if language.Some? then language.value else "") + TextContent(cs)
       case _ => TextContent(cs))
  }

  lemma {:induction false} TextContentAppend(a: seq<Node>, b: seq<Node>)
    ensures TextContent(a + b) == TextContent(a) + TextContent(b)
  {
    if |a| > 0 {
      assert (a + b)[1..] == a[1..] + b;
      TextContentAppend(a[1..], b);
    } else {
      assert a + b == b;
    }
  }

  /** The contents of text events, concatenated. */
  function Texts(es: seq<Event>): string
    requires forall k :: 0 <= k < |es| ==> es[k].Text?
  {
    if |es| == 0 then "" else es[0].content + Texts(es[1..])
  }

  /** The text read back from rendered text events is the concatenation of
      their contents: a code block highlights exactly the code it was
      given. */
  lemma {:induction false} TextEventsReadBack(events: seq<Event>, i: nat, inHead: bool)
    requires i <= |events| && forall k :: i <= k < |events| ==> events[k].Text?
    ensures TextContent(Collect(events, i, inHead).0) == Texts(events[i..])
    decreases |events| - i
  {
    if i < |events| {
      TextEventsReadBack(events, i + 1, inHead);
      CollectLeaf(events, i, inHead);
      assert events[i..][1..] == events[i + 1..];
      var rest := Collect(events, i + 1, inHead).0;
      assert ([Leaf(events[i], i)] + rest)[1..] == rest;
    }
  }

  /** The renderer's own reading of a code block: its language label (shown
      when the language is non-empty) and how the code is shown. */
  function CodeBlockView(language: Option<string>, children: seq<Node>, known: string -> bool): (r: (Option<string>, CodeView))
    ensures r.0.Some? <==> language.Some? && language.value != ""
    ensures r.1.code == TextContent(children)
  {
    (if language.Some? && language.value != "" then language else None, Highlight(TextContent(children), language, known))
  }

  /* ---------------- the props check ---------------- */

  /** A JavaScript value as far as the props check looks at it. */
  datatype JsValue =
    | JsUndefined
    | JsNull
    | JsBool(b: bool)
    | JsNumber(n: int)
    | JsString(s: string)
    | JsArray(items: seq<JsValue>)
    | JsObject(fields: seq<(string, JsValue)>)

  /** `isMarkdownProps`: a non-null object whose `events` property is an
      array (an array value has no such property). */
  predicate IsMarkdownProps(v: JsValue) {
    match v
    case JsObject(fields) => Get(fields, "events").Some? && Get(fields, "events").value.JsArray?
    case _ => false
  }

  /** The accepted shapes, and rejections of null, undefined, an object
      without `events` and a non-array `events`. */
  lemma PropsExamples()
    ensures IsMarkdownProps(JsObject([("events", JsArray([]))]))
    ensures IsMarkdownProps(JsObject([("events", JsArray([JsObject([("type", JsString("Text")), ("content", JsString("hi"))])]))]))
    ensures !IsMarkdownProps(JsNull) && !IsMarkdownProps(JsUndefined)
    ensures !IsMarkdownProps(JsObject([]))
    ensures !IsMarkdownProps(JsObject([("events", JsString("not array"))]))
  {
  }

  /** An empty event list renders to nothing. */
  lemma EmptyRendersNothing()
    ensures Render([]) == []
  {
  }
}
